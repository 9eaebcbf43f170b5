/** The `/api/players` router: public reads sorted by shirt number, administrator-only writes. */
module PlayerRoutes {
  import opened Wrappers
  import opened Schema
  import opened Http
  import opened Listing
  import opened Guard
  import opened Collections
  import opened PlayerModel
  import Crud

  const NOT_FOUND: string := "Player not found"
  const DELETED: string := "Player deleted successfully"

  /** Every stored player satisfies the schema. */
  predicate AllValid(docs: map<Id, Player>) {
    forall id :: id in docs ==> Valid(docs[id])
  }

  function ByNumber(d: Doc<Player>): int {
    d.rec.number
  }

  /** `POST /`. */
  method Create(store: Store<Player>, cred: Credential, users: map<Id, User>, body: PlayerInput, now: nat)
    returns (res: Response<Doc<Player>>)
    requires store.Valid() && AllValid(store.docs)
    modifies store
    ensures store.Valid() && AllValid(store.docs)
    ensures AdminOnly(cred, now, users).Deny? ==>
              res == Response(AdminOnly(cred, now, users).status, Denied) && unchanged(store)
    ensures AdminOnly(cred, now, users).Allow? && New(body, now).Failure? ==>
              res == Failed(New(body, now).error) && unchanged(store)
    ensures AdminOnly(cred, now, users).Allow? && New(body, now).Success? ==>
              && res == Response(201, Item(Doc(old(store.nextId), New(body, now).value)))
              && store.docs == old(store.docs)[old(store.nextId) := New(body, now).value]
              && store.nextId == old(store.nextId) + 1
  {
    res := Crud.Create(store, AdminOnly(cred, now, users), New(body, now));
  }

  /** `GET /`: `find().sort({ number: 1 })`. */
  function List(store: Store<Player>): (r: Response<Doc<Player>>)
    requires store.Valid()
    reads store
    ensures r.status == 200 && r.body.Items?
    ensures forall i, j :: 0 <= i < j < |r.body.items| ==>
              r.body.items[i].rec.number <= r.body.items[j].rec.number
    ensures multiset(r.body.items) == multiset(store.Entries())
  {
    var r := Crud.List(store, ByNumber);
    assert SortedBy(r.body.items, ByNumber);
    r
  }

  /** `GET /:id`. */
  function Get(store: Store<Player>, id: Id): (r: Response<Doc<Player>>)
    reads store
    ensures r.status == 200 <==> id in store.docs
    ensures r.status == 200 ==> r.body == Item(Doc(id, store.docs[id]))
    ensures r.status != 200 ==> r == Response(404, Message(NOT_FOUND))
  {
    Crud.Get(store, id, NOT_FOUND)
  }

  /** `PUT /:id`. */
  method Update(store: Store<Player>, cred: Credential, users: map<Id, User>, id: Id, body: PlayerInput, now: nat)
    returns (res: Response<Doc<Player>>)
    requires store.Valid() && AllValid(store.docs)
    modifies store
    ensures store.Valid() && AllValid(store.docs)
    ensures AdminOnly(cred, now, users).Deny? ==>
              res == Response(AdminOnly(cred, now, users).status, Denied) && unchanged(store)
    ensures AdminOnly(cred, now, users).Allow? && !UpdateAccepted(body) ==>
              res == Failed(Errors(body, false)) && unchanged(store)
    ensures AdminOnly(cred, now, users).Allow? && UpdateAccepted(body) && id !in old(store.docs) ==>
              res == Response(404, Message(NOT_FOUND)) && unchanged(store)
    ensures AdminOnly(cred, now, users).Allow? && UpdateAccepted(body) && id in old(store.docs) ==>
              && res == Response(200, Item(Doc(id, Merge(old(store.docs)[id], body))))
              && store.docs == old(store.docs)[id := Merge(old(store.docs)[id], body)]
              && store.nextId == old(store.nextId)
  {
    res := Crud.Update(store, AdminOnly(cred, now, users), id, Errors(body, false),
                       p => Merge(p, body), NOT_FOUND);
    if UpdateAccepted(body) && id in old(store.docs) {
      MergeKeepsValid(old(store.docs)[id], body);
    }
  }

  /** `DELETE /:id`. A deleted player is gone: a following `GET /:id` answers 404. */
  method Delete(store: Store<Player>, cred: Credential, users: map<Id, User>, id: Id, now: nat)
    returns (res: Response<Doc<Player>>)
    requires store.Valid() && AllValid(store.docs)
    modifies store
    ensures store.Valid() && AllValid(store.docs)
    ensures AdminOnly(cred, now, users).Deny? ==>
              res == Response(AdminOnly(cred, now, users).status, Denied) && unchanged(store)
    ensures AdminOnly(cred, now, users).Allow? && id !in old(store.docs) ==>
              res == Response(404, Message(NOT_FOUND)) && unchanged(store)
    ensures AdminOnly(cred, now, users).Allow? && id in old(store.docs) ==>
              && res == Response(200, Message(DELETED))
              && store.docs == old(store.docs) - {id} && store.nextId == old(store.nextId)
    ensures AdminOnly(cred, now, users).Allow? ==> Get(store, id) == Response(404, Message(NOT_FOUND))
  {
    res := Crud.Delete(store, AdminOnly(cred, now, users), id, NOT_FOUND, DELETED);
  }
}
