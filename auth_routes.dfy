/**
 * The `/api/auth` router: register, login and `/me`.
 *
 * The e-mail checker and normaliser, the password hash and the hash comparison are
 * library or model code outside this model; they are parameters. The user model's source
 * is not part of this model either: a created user is taken to get role `user` and to have
 * its password replaced by the hash before it is stored.
 */
module AuthRoutes {
  import opened Wrappers
  import opened Schema
  import opened Http
  import opened Guard
  import opened Collections

  const MIN_PASSWORD_LENGTH: nat := 6
  const USER_EXISTS: string := "User already exists"
  const INVALID_CREDENTIALS: string := "Invalid credentials"

  /** The body fields the routes read; an absent field reaches the validators as ''. */
  datatype RegisterInput = RegisterInput(name: Option<string>, email: Option<string>, password: Option<string>)
  datatype LoginInput = LoginInput(email: Option<string>, password: Option<string>)

  /** The answer to a successful register or login: the public projection and a token, never the password. */
  datatype Session = Session(id: Id, name: string, email: string, role: Role, token: Token)

  function SessionOf(id: Id, u: User, nowMs: nat): (s: Session)
    ensures s.id == id && s.name == u.name && s.email == u.email && s.role == u.role
    ensures s.token == GenerateToken(id, nowMs) && s.token.id == id
  {
    Session(id, u.name, u.email, u.role, GenerateToken(id, nowMs))
  }

  /** No two stored users share an e-mail address. */
  predicate UniqueEmails(docs: map<Id, User>) {
    forall a, b :: a in docs && b in docs && docs[a].email == docs[b].email ==> a == b
  }

  predicate EmailTaken(docs: map<Id, User>, email: string) {
    exists id :: id in docs && docs[id].email == email
  }

  /** `findOne({ email })` over documents in their natural order: the first one with that e-mail. */
  function FirstWithEmail(entries: seq<Doc<User>>, email: string): (r: Option<Doc<User>>)
    ensures r.Some? ==> r.value in entries && r.value.rec.email == email
    ensures r.None? <==> forall d :: d in entries ==> d.rec.email != email
  {
    if entries == [] then None
    else if entries[0].rec.email == email then Some(entries[0])
    else
      assert entries == [entries[0]] + entries[1..];
      FirstWithEmail(entries[1..], email)
  }

  /** The register validation chain: the failing fields, in declaration order. */
  function RegisterErrors(b: RegisterInput, isEmail: string -> bool): (r: seq<string>)
    ensures "name" in r <==> b.name.GetOr("") == ""
    ensures "email" in r <==> !isEmail(b.email.GetOr(""))
    ensures "password" in r <==> |b.password.GetOr("")| < MIN_PASSWORD_LENGTH
    ensures r == [] <==> && b.name.GetOr("") != "" && isEmail(b.email.GetOr(""))
                         && |b.password.GetOr("")| >= MIN_PASSWORD_LENGTH
  {
    (if b.name.GetOr("") == "" then ["name"] else [])
    + (if !isEmail(b.email.GetOr("")) then ["email"] else [])
    + (if |b.password.GetOr("")| < MIN_PASSWORD_LENGTH then ["password"] else [])
  }

  /** The login validation chain. */
  function LoginErrors(b: LoginInput, isEmail: string -> bool): (r: seq<string>)
    ensures "email" in r <==> !isEmail(b.email.GetOr(""))
    ensures "password" in r <==> b.password.GetOr("") == ""
    ensures r == [] <==> isEmail(b.email.GetOr("")) && b.password.GetOr("") != ""
  {
    (if !isEmail(b.email.GetOr("")) then ["email"] else [])
    + (if b.password.GetOr("") == "" then ["password"] else [])
  }

  /** What `User.create` stores: the sanitised name and e-mail, the hashed password, the default role. */
  function NewUser(b: RegisterInput, normalize: string -> string, hash: string -> string): (u: User)
    ensures u.name == Trim(b.name.GetOr("")) && u.email == normalize(b.email.GetOr(""))
    ensures u.password == hash(b.password.GetOr("")) && u.role == RegularUser
  {
    User(Trim(b.name.GetOr("")), normalize(b.email.GetOr("")), hash(b.password.GetOr("")), RegularUser)
  }

  /** `POST /register`. */
  method Register(users: Store<User>, body: RegisterInput, isEmail: string -> bool,
                  normalize: string -> string, hash: string -> string, nowMs: nat)
    returns (res: Response<Session>)
    requires users.Valid() && UniqueEmails(users.docs)
    modifies users
    ensures users.Valid() && UniqueEmails(users.docs)
    ensures RegisterErrors(body, isEmail) != [] ==>
              res == Response(400, Invalid(RegisterErrors(body, isEmail))) && unchanged(users)
    ensures RegisterErrors(body, isEmail) == [] && EmailTaken(old(users.docs), normalize(body.email.GetOr(""))) ==>
              res == Response(400, Message(USER_EXISTS)) && unchanged(users)
    ensures RegisterErrors(body, isEmail) == [] && !EmailTaken(old(users.docs), normalize(body.email.GetOr(""))) ==>
              var id := old(users.nextId);
              && res == Response(201, Item(SessionOf(id, NewUser(body, normalize, hash), nowMs)))
              && users.docs == old(users.docs)[id := NewUser(body, normalize, hash)]
              && users.nextId == old(users.nextId) + 1
  {
    var errs := RegisterErrors(body, isEmail);
    if errs != [] {
      return Response(400, Invalid(errs));
    }
    var email := normalize(body.email.GetOr(""));
    var existing := FirstWithEmail(users.Entries(), email);
    if existing.Some? {
      return Response(400, Message(USER_EXISTS));
    }
    assert !EmailTaken(users.docs, email) by {
      forall id | id in users.docs ensures users.docs[id].email != email {
        assert Doc(id, users.docs[id]) in users.Entries();
      }
    }
    var u := NewUser(body, normalize, hash);
    var id := users.Insert(u);
    res := Response(201, Item(SessionOf(id, u, nowMs)));
  }

  /** `POST /login`. Both credential failures give the very same answer. */
  function Login(users: Store<User>, body: LoginInput, isEmail: string -> bool,
                 normalize: string -> string, compare: (string, string) -> bool, nowMs: nat)
    : (r: Response<Session>)
    requires users.Valid()
    reads users
    ensures LoginErrors(body, isEmail) != [] ==> r == Response(400, Invalid(LoginErrors(body, isEmail)))
    ensures LoginErrors(body, isEmail) == [] ==>
              var email := normalize(body.email.GetOr(""));
              && (!EmailTaken(users.docs, email) ==> r == Response(401, Message(INVALID_CREDENTIALS)))
              && (r.status == 200 ==>
                    exists id :: id in users.docs && users.docs[id].email == email
                                 && compare(body.password.GetOr(""), users.docs[id].password)
                                 && r == Response(200, Item(SessionOf(id, users.docs[id], nowMs))))
              && (UniqueEmails(users.docs) &&
                  (exists id :: id in users.docs && users.docs[id].email == email
                                && compare(body.password.GetOr(""), users.docs[id].password))
                  ==> r.status == 200)
              && (r.status != 200 ==> r == Response(401, Message(INVALID_CREDENTIALS)))
  {
    var errs := LoginErrors(body, isEmail);
    if errs != [] then Response(400, Invalid(errs))
    else
      var email := normalize(body.email.GetOr(""));
      var found := FirstWithEmail(users.Entries(), email);
      if found.None? then
        assert !EmailTaken(users.docs, email) by {
          forall id | id in users.docs ensures users.docs[id].email != email {
            assert Doc(id, users.docs[id]) in users.Entries();
          }
        }
        Response(401, Message(INVALID_CREDENTIALS))
      else if !compare(body.password.GetOr(""), found.value.rec.password) then
        Response(401, Message(INVALID_CREDENTIALS))
      else
        Response(200, Item(SessionOf(found.value.id, found.value.rec, nowMs)))
  }

  /**
   * With unique e-mails, a user registered with an e-mail and password can log in with them,
   * as long as the comparison accepts the password against its own hash.
   */
  lemma LoginAfterRegister(users: Store<User>, id: Id, email: string, password: string,
                           isEmail: string -> bool, normalize: string -> string,
                           compare: (string, string) -> bool, nowMs: nat)
    requires users.Valid() && UniqueEmails(users.docs)
    requires id in users.docs && users.docs[id].email == normalize(email)
    requires isEmail(email) && password != "" && compare(password, users.docs[id].password)
    ensures Login(users, LoginInput(Some(email), Some(password)), isEmail, normalize, compare, nowMs)
            == Response(200, Item(SessionOf(id, users.docs[id], nowMs)))
  {
    var found := FirstWithEmail(users.Entries(), normalize(email));
    assert Doc(id, users.docs[id]) in users.Entries();
    assert found.Some?;
    assert found.value.id == id;
  }

  /** `GET /me`: `protect` only, so any signed-in user, administrator or not, gets their own record. */
  function Me(cred: Credential, nowMs: nat, users: map<Id, User>): (r: Response<UserView>)
    ensures r.status == 200 <==> Protect(cred, nowMs, users).Allow?
    ensures r.status == 200 ==> r.body == Item(ViewOf(cred.token.id, users[cred.token.id]))
    ensures r.status != 200 ==> r == Response(401, Denied)
  {
    match Protect(cred, nowMs, users)
    case Allow(u) => Response(200, Item(u))
    case Deny(status) => Response(status, Denied)
  }
}
