/** The `/api/gallery` router: an unfiltered newest-first list, administrator-only writes. */
module GalleryRoutes {
  import opened Wrappers
  import opened Schema
  import opened Http
  import opened Listing
  import opened Guard
  import opened Collections
  import opened GalleryModel
  import Crud

  const NOT_FOUND: string := "Gallery item not found"
  const DELETED: string := "Gallery item deleted successfully"

  predicate AllValid(docs: map<Id, GalleryItem>) {
    forall id :: id in docs ==> Valid(docs[id])
  }

  function NewestFirst(d: Doc<GalleryItem>): int {
    -d.rec.createdAt
  }

  /** `POST /`. */
  method Create(store: Store<GalleryItem>, cred: Credential, users: map<Id, User>, body: GalleryInput, now: nat)
    returns (res: Response<Doc<GalleryItem>>)
    requires store.Valid() && AllValid(store.docs)
    modifies store
    ensures store.Valid() && AllValid(store.docs)
    ensures AdminOnly(cred, now, users).Deny? ==>
              res == Response(AdminOnly(cred, now, users).status, Denied) && unchanged(store)
    ensures AdminOnly(cred, now, users).Allow? && New(body, now).Failure? ==>
              res == Failed(New(body, now).error) && unchanged(store)
    ensures AdminOnly(cred, now, users).Allow? && New(body, now).Success? ==>
              && res == Response(201, Item(Doc(old(store.nextId), New(body, now).value)))
              && store.docs == old(store.docs)[old(store.nextId) := New(body, now).value]
              && store.nextId == old(store.nextId) + 1
  {
    res := Crud.Create(store, AdminOnly(cred, now, users), New(body, now));
  }

  /** `GET /`: `find().sort({ createdAt: -1 })`, every item, newest first. */
  function List(store: Store<GalleryItem>): (r: Response<Doc<GalleryItem>>)
    requires store.Valid()
    reads store
    ensures r.status == 200 && r.body.Items?
    ensures forall i, j :: 0 <= i < j < |r.body.items| ==>
              r.body.items[i].rec.createdAt >= r.body.items[j].rec.createdAt
    ensures multiset(r.body.items) == multiset(store.Entries())
    ensures forall d :: d in r.body.items <==> d.id in store.docs && store.docs[d.id] == d.rec
  {
    var r := Crud.List(store, NewestFirst);
    assert forall i, j :: 0 <= i < j < |r.body.items| ==>
             NewestFirst(r.body.items[i]) <= NewestFirst(r.body.items[j]);
    r
  }

  /** `GET /:id`. */
  function Get(store: Store<GalleryItem>, id: Id): (r: Response<Doc<GalleryItem>>)
    reads store
    ensures r.status == 200 <==> id in store.docs
    ensures r.status == 200 ==> r.body == Item(Doc(id, store.docs[id]))
    ensures r.status != 200 ==> r == Response(404, Message(NOT_FOUND))
  {
    Crud.Get(store, id, NOT_FOUND)
  }

  /** `PUT /:id`. */
  method Update(store: Store<GalleryItem>, cred: Credential, users: map<Id, User>, id: Id, body: GalleryInput, now: nat)
    returns (res: Response<Doc<GalleryItem>>)
    requires store.Valid() && AllValid(store.docs)
    modifies store
    ensures store.Valid() && AllValid(store.docs)
    ensures AdminOnly(cred, now, users).Deny? ==>
              res == Response(AdminOnly(cred, now, users).status, Denied) && unchanged(store)
    ensures AdminOnly(cred, now, users).Allow? && !UpdateAccepted(body) ==>
              res == Failed(Errors(body, false)) && unchanged(store)
    ensures AdminOnly(cred, now, users).Allow? && UpdateAccepted(body) && id !in old(store.docs) ==>
              res == Response(404, Message(NOT_FOUND)) && unchanged(store)
    ensures AdminOnly(cred, now, users).Allow? && UpdateAccepted(body) && id in old(store.docs) ==>
              && res == Response(200, Item(Doc(id, Merge(old(store.docs)[id], body))))
              && store.docs == old(store.docs)[id := Merge(old(store.docs)[id], body)]
              && store.nextId == old(store.nextId)
  {
    res := Crud.Update(store, AdminOnly(cred, now, users), id, Errors(body, false),
                       g => Merge(g, body), NOT_FOUND);
    if UpdateAccepted(body) && id in old(store.docs) {
      MergeKeepsValid(old(store.docs)[id], body);
    }
  }

  /** `DELETE /:id`. A deleted item is gone: a following `GET /:id` answers 404. */
  method Delete(store: Store<GalleryItem>, cred: Credential, users: map<Id, User>, id: Id, now: nat)
    returns (res: Response<Doc<GalleryItem>>)
    requires store.Valid() && AllValid(store.docs)
    modifies store
    ensures store.Valid() && AllValid(store.docs)
    ensures AdminOnly(cred, now, users).Deny? ==>
              res == Response(AdminOnly(cred, now, users).status, Denied) && unchanged(store)
    ensures AdminOnly(cred, now, users).Allow? && id !in old(store.docs) ==>
              res == Response(404, Message(NOT_FOUND)) && unchanged(store)
    ensures AdminOnly(cred, now, users).Allow? && id in old(store.docs) ==>
              && res == Response(200, Message(DELETED))
              && store.docs == old(store.docs) - {id} && store.nextId == old(store.nextId)
    ensures AdminOnly(cred, now, users).Allow? ==> Get(store, id) == Response(404, Message(NOT_FOUND))
  {
    res := Crud.Delete(store, AdminOnly(cred, now, users), id, NOT_FOUND, DELETED);
  }
}
