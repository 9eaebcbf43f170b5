/** The `/api/matches` router: public reads by date, the upcoming fixtures, administrator-only writes. */
module MatchRoutes {
  import opened Wrappers
  import opened Schema
  import opened Http
  import opened Listing
  import opened Guard
  import opened Collections
  import opened MatchModel
  import Crud

  const NOT_FOUND: string := "Match not found"
  const DELETED: string := "Match deleted successfully"
  const UPCOMING_LIMIT: nat := 5

  predicate AllValid(docs: map<Id, Match>) {
    forall id :: id in docs ==> Valid(docs[id])
  }

  function ByDate(d: Doc<Match>): int {
    d.rec.date
  }

  /** `POST /`. The body is stored as given: scorers keep their order and are not checked against the score. */
  method Create(store: Store<Match>, cred: Credential, users: map<Id, User>, body: MatchInput, now: nat)
    returns (res: Response<Doc<Match>>)
    requires store.Valid() && AllValid(store.docs)
    modifies store
    ensures store.Valid() && AllValid(store.docs)
    ensures AdminOnly(cred, now, users).Deny? ==>
              res == Response(AdminOnly(cred, now, users).status, Denied) && unchanged(store)
    ensures AdminOnly(cred, now, users).Allow? && New(body, now).Failure? ==>
              res == Failed(New(body, now).error) && unchanged(store)
    ensures AdminOnly(cred, now, users).Allow? && New(body, now).Success? ==>
              && res == Response(201, Item(Doc(old(store.nextId), New(body, now).value)))
              && store.docs == old(store.docs)[old(store.nextId) := New(body, now).value]
              && store.nextId == old(store.nextId) + 1
  {
    res := Crud.Create(store, AdminOnly(cred, now, users), New(body, now));
  }

  /** `GET /`: `find().sort({ date: 1 })`. */
  function List(store: Store<Match>): (r: Response<Doc<Match>>)
    requires store.Valid()
    reads store
    ensures r.status == 200 && r.body.Items?
    ensures SortedBy(r.body.items, ByDate)
    ensures multiset(r.body.items) == multiset(store.Entries())
    ensures forall d :: d in r.body.items <==> d.id in store.docs && store.docs[d.id] == d.rec
  {
    Crud.List(store, ByDate)
  }

  /** The `/upcoming` filter: not yet started by the clock, and still scheduled. */
  predicate Due(d: Doc<Match>, now: int) {
    d.rec.date >= now && d.rec.status == Scheduled
  }

  function DueAt(now: int): Doc<Match> -> bool {
    d => Due(d, now)
  }

  /** `GET /upcoming`: `find({ date: { $gte: now }, status: 'scheduled' }).sort({ date: 1 }).limit(5)`. */
  function Upcoming(store: Store<Match>, now: int): (r: Response<Doc<Match>>)
    requires store.Valid()
    reads store
    ensures r.status == 200 && r.body.Items?
    ensures |r.body.items| <= UPCOMING_LIMIT
    ensures SortedBy(r.body.items, ByDate)
    ensures forall d :: d in r.body.items ==> Due(d, now) && d.id in store.docs && store.docs[d.id] == d.rec
    ensures forall d: Doc<Match> :: d.id in store.docs && store.docs[d.id] == d.rec && Due(d, now) && d !in r.body.items ==>
              && |r.body.items| == UPCOMING_LIMIT
              && forall e :: e in r.body.items ==> e.rec.date <= d.rec.date
    ensures multiset(r.body.items) <= multiset(Filter(store.Entries(), DueAt(now)))
    ensures forall i, j :: 0 <= i < j < |r.body.items| ==> r.body.items[i].id != r.body.items[j].id
  {
    Response(200, Items(QueryStore(store, DueAt(now), ByDate, UPCOMING_LIMIT)))
  }

  /** What a `GET` with one path segment reaches; `NoRoute` falls through to the 404 handler. */
  datatype Read = UpcomingQuery | ById(segment: string) | NoRoute

  /** A route's path: a literal segment, or the `:id` parameter that fits any segment. */
  datatype Pattern = Literal(text: string) | Param
  datatype Action = RunUpcoming | LookUpId
  datatype Route = Route(pattern: Pattern, action: Action)

  predicate IsUpper(c: char) {
    'A' <= c <= 'Z'
  }

  function LowerChar(c: char): char {
    if IsUpper(c) then (c as int + 32) as char else c
  }

  /** ASCII lower case: upper-case letters become their lower-case forms, everything else is kept. */
  function Lower(s: string): (r: string)
    ensures |r| == |s|
    ensures forall i :: 0 <= i < |r| ==> !IsUpper(r[i])
    ensures forall i :: 0 <= i < |r| ==> !IsUpper(s[i]) ==> r[i] == s[i]
  {
    seq(|s|, i requires 0 <= i < |s| => LowerChar(s[i]))
  }

  /** A string without upper-case letters is its own lower case. */
  lemma LowerKeepsLower(s: string)
    requires forall i :: 0 <= i < |s| ==> !IsUpper(s[i])
    ensures Lower(s) == s
  {
  }

  /** Lower-casing twice is lower-casing once. */
  lemma LowerIdempotent(s: string)
    ensures Lower(Lower(s)) == Lower(s)
  {
    LowerKeepsLower(Lower(s));
  }

  /**
   * `express.Router()` is created without options, so it matches paths case-insensitively:
   * a literal fits every segment that agrees with it up to the case of letters.
   */
  predicate Fits(p: Pattern, segment: string) {
    p.Param? || Lower(p.text) == Lower(segment)
  }

  /** The one-segment `GET` routes in the order the router registers them. */
  const GET_ROUTES: seq<Route> := [Route(Literal("upcoming"), RunUpcoming), Route(Param, LookUpId)]

  /** Express's rule: the first registered route whose pattern fits the segment handles it. */
  function FirstFit(routes: seq<Route>, segment: string): (r: Option<nat>)
    ensures r.Some? ==> r.value < |routes| && Fits(routes[r.value].pattern, segment)
    ensures r.Some? ==> forall k :: 0 <= k < r.value ==> !Fits(routes[k].pattern, segment)
    ensures r.None? ==> forall k :: 0 <= k < |routes| ==> !Fits(routes[k].pattern, segment)
  {
    if routes == [] then None
    else if Fits(routes[0].pattern, segment) then Some(0)
    else
      var rest := FirstFit(routes[1..], segment);
      if rest.None? then None else Some(rest.value + 1)
  }

  /** The handler a segment reaches through `routes`; when none fits, it falls through. */
  function Reach(routes: seq<Route>, segment: string): Read {
    match FirstFit(routes, segment)
    case None => NoRoute
    case Some(k) => if routes[k].action == RunUpcoming then UpcomingQuery else ById(segment)
  }

  /**
   * With `/upcoming` registered before `/:id`, a segment that spells `upcoming` in any case
   * reaches the upcoming query and every other segment reaches the id lookup with that segment.
   */
  function Dispatch(segment: string): (r: Read)
    ensures r == UpcomingQuery <==> Lower(segment) == "upcoming"
    ensures r != UpcomingQuery ==> r == ById(segment)
  {
    LowerKeepsLower("upcoming");
    assert Fits(GET_ROUTES[1].pattern, segment);
    Reach(GET_ROUTES, segment)
  }

  /** Registered the other way round, `/:id` would catch `upcoming` as an id. */
  lemma RegistrationOrderMatters()
    ensures Reach([Route(Param, LookUpId), Route(Literal("upcoming"), RunUpcoming)], "upcoming")
            == ById("upcoming")
    ensures Dispatch("upcoming") == UpcomingQuery
  {
  }

  /** The case of the letters does not matter: `/Upcoming` and `/UPCOMING` run the query too. */
  lemma CaseIgnored()
    ensures Dispatch("Upcoming") == UpcomingQuery
    ensures Dispatch("UPCOMING") == UpcomingQuery
    ensures Dispatch("upcomings") == ById("upcomings")
  {
    assert Lower("Upcoming") == "upcoming";
    assert Lower("UPCOMING") == "upcoming";
    assert |Lower("upcomings")| != |"upcoming"|;
  }

  /** `GET /:id`. */
  function Get(store: Store<Match>, id: Id): (r: Response<Doc<Match>>)
    reads store
    ensures r.status == 200 <==> id in store.docs
    ensures r.status == 200 ==> r.body == Item(Doc(id, store.docs[id]))
    ensures r.status != 200 ==> r == Response(404, Message(NOT_FOUND))
  {
    Crud.Get(store, id, NOT_FOUND)
  }

  /** `PUT /:id`. */
  method Update(store: Store<Match>, cred: Credential, users: map<Id, User>, id: Id, body: MatchInput, now: nat)
    returns (res: Response<Doc<Match>>)
    requires store.Valid() && AllValid(store.docs)
    modifies store
    ensures store.Valid() && AllValid(store.docs)
    ensures AdminOnly(cred, now, users).Deny? ==>
              res == Response(AdminOnly(cred, now, users).status, Denied) && unchanged(store)
    ensures AdminOnly(cred, now, users).Allow? && !UpdateAccepted(body) ==>
              res == Failed(Errors(body, false)) && unchanged(store)
    ensures AdminOnly(cred, now, users).Allow? && UpdateAccepted(body) && id !in old(store.docs) ==>
              res == Response(404, Message(NOT_FOUND)) && unchanged(store)
    ensures AdminOnly(cred, now, users).Allow? && UpdateAccepted(body) && id in old(store.docs) ==>
              && res == Response(200, Item(Doc(id, Merge(old(store.docs)[id], body))))
              && store.docs == old(store.docs)[id := Merge(old(store.docs)[id], body)]
              && store.nextId == old(store.nextId)
  {
    res := Crud.Update(store, AdminOnly(cred, now, users), id, Errors(body, false),
                       m => Merge(m, body), NOT_FOUND);
    if UpdateAccepted(body) && id in old(store.docs) {
      MergeKeepsValid(old(store.docs)[id], body);
    }
  }

  /** `DELETE /:id`. A deleted match is gone: a following `GET /:id` answers 404. */
  method Delete(store: Store<Match>, cred: Credential, users: map<Id, User>, id: Id, now: nat)
    returns (res: Response<Doc<Match>>)
    requires store.Valid() && AllValid(store.docs)
    modifies store
    ensures store.Valid() && AllValid(store.docs)
    ensures AdminOnly(cred, now, users).Deny? ==>
              res == Response(AdminOnly(cred, now, users).status, Denied) && unchanged(store)
    ensures AdminOnly(cred, now, users).Allow? && id !in old(store.docs) ==>
              res == Response(404, Message(NOT_FOUND)) && unchanged(store)
    ensures AdminOnly(cred, now, users).Allow? && id in old(store.docs) ==>
              && res == Response(200, Message(DELETED))
              && store.docs == old(store.docs) - {id} && store.nextId == old(store.nextId)
    ensures AdminOnly(cred, now, users).Allow? ==> Get(store, id) == Response(404, Message(NOT_FOUND))
  {
    res := Crud.Delete(store, AdminOnly(cred, now, users), id, NOT_FOUND, DELETED);
  }
}
