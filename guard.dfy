/**
 * Identity: the user record, the session token, and the two middleware stages that
 * every write route runs first, `protect` (who is calling?) and `admin` (may they write?).
 *
 * Signature checking is a foreign computation; a presented token arrives with the
 * verdict of that check. The middleware's own source is not part of this model: its
 * behaviour here is the documented one (401 when there is no usable token, 403 for a
 * signed-in user who is not an administrator).
 */
module Guard {
  import opened Wrappers
  import opened Http

  datatype Role = RegularUser | Administrator

  function RoleName(r: Role): string {
    match r
    case RegularUser => "user"
    case Administrator => "admin"
  }

  /** A stored user. `password` holds what the save hook stored: the one-way hash. */
  datatype User = User(name: string, email: string, password: string, role: Role)

  /** A user as attached to a request or returned by `/me`: everything but the password. */
  datatype UserView = UserView(id: Id, name: string, email: string, role: Role)

  function ViewOf(id: Id, u: User): (v: UserView)
    ensures v.id == id && v.name == u.name && v.email == u.email && v.role == u.role
  {
    UserView(id, u.name, u.email, u.role)
  }

  /** `expiresIn: '30d'`, in seconds. */
  const TOKEN_LIFETIME: nat := 30 * 24 * 60 * 60

  /** The claims of a signed token: the user id only, plus issue and expiry times in seconds. */
  datatype Token = Token(id: Id, iat: nat, exp: nat)

  /** Token times are whole seconds of the millisecond clock. */
  function Seconds(nowMs: nat): nat {
    nowMs / 1000
  }

  /** `generateToken(id)`, issued at `nowMs`. */
  function GenerateToken(id: Id, nowMs: nat): (t: Token)
    ensures t.id == id && t.iat == Seconds(nowMs) && t.exp == t.iat + TOKEN_LIFETIME
  {
    Token(id, Seconds(nowMs), Seconds(nowMs) + TOKEN_LIFETIME)
  }

  /** A token is rejected as expired once the clock reaches `exp`. */
  predicate Live(t: Token, nowMs: nat) {
    Seconds(nowMs) < t.exp
  }

  /** A freshly issued token is accepted for 30 days and rejected from then on. */
  lemma TokenValidFor30Days(id: Id, issuedMs: nat, nowMs: nat)
    requires issuedMs <= nowMs
    ensures Live(GenerateToken(id, issuedMs), nowMs)
            <==> Seconds(nowMs) - Seconds(issuedMs) < TOKEN_LIFETIME
  {
  }

  /** What a request carries: no bearer token, or one whose signature check has been done. */
  datatype Credential = NoToken | Bearer(token: Token, signatureValid: bool)

  /** The outcome of a middleware chain: pass on with the caller attached, or answer with a status. */
  datatype Gate = Allow(user: UserView) | Deny(status: int)

  /** Stage 1, `protect`. */
  function Protect(cred: Credential, nowMs: nat, users: map<Id, User>): (g: Gate)
    ensures g.Allow? <==> cred.Bearer? && cred.signatureValid && Live(cred.token, nowMs)
                          && cred.token.id in users
    ensures g.Allow? ==> g.user == ViewOf(cred.token.id, users[cred.token.id])
    ensures g.Deny? ==> g.status == 401
  {
    match cred
    case NoToken => Deny(401)
    case Bearer(t, ok) =>
      if !ok || !Live(t, nowMs) || t.id !in users then Deny(401)
      else Allow(ViewOf(t.id, users[t.id]))
  }

  /** Stage 2, `admin`, run on what `protect` passed on. */
  function Admin(g: Gate): (g': Gate)
    ensures g.Deny? ==> g' == g
    ensures g.Allow? ==> g' == if g.user.role == Administrator then g else Deny(403)
  {
    match g
    case Deny(_) => g
    case Allow(u) => if u.role == Administrator then g else Deny(403)
  }

  /** `protect, admin`: the chain in front of every create, update and delete route. */
  function AdminOnly(cred: Credential, nowMs: nat, users: map<Id, User>): Gate {
    Admin(Protect(cred, nowMs, users))
  }

  /** The three outcomes of the write-route chain. */
  lemma AdminOnlyOutcomes(cred: Credential, nowMs: nat, users: map<Id, User>)
    ensures Protect(cred, nowMs, users).Deny? ==> AdminOnly(cred, nowMs, users) == Deny(401)
    ensures Protect(cred, nowMs, users).Allow? && Protect(cred, nowMs, users).user.role != Administrator
            ==> AdminOnly(cred, nowMs, users) == Deny(403)
    ensures AdminOnly(cred, nowMs, users).Allow? <==>
              Protect(cred, nowMs, users).Allow? && Protect(cred, nowMs, users).user.role == Administrator
    ensures AdminOnly(cred, nowMs, users).Allow? ==> AdminOnly(cred, nowMs, users) == Protect(cred, nowMs, users)
  {
  }
}
