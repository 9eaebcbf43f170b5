/**
 * The shape every content router shares. Writes first pass the `protect, admin` chain;
 * a rejected chain answers with its own status and touches nothing. Validation failures
 * and every other thrown error reach the handler's catch block and become a 500.
 */
module Crud {
  import opened Wrappers
  import opened Schema
  import opened Http
  import opened Listing
  import opened Guard
  import opened Collections

  /** `POST /`: `Model.create(req.body)`, answered with 201 and the stored document. */
  method Create<T(!new)>(store: Store<T>, gate: Gate, built: Result<T, seq<FieldError>>)
    returns (res: Response<Doc<T>>)
    requires store.Valid()
    modifies store
    ensures store.Valid()
    ensures gate.Deny? ==> res == Response(gate.status, Denied) && unchanged(store)
    ensures gate.Allow? && built.Failure? ==> res == Failed(built.error) && unchanged(store)
    ensures gate.Allow? && built.Success? ==>
              && res == Response(201, Item(Doc(old(store.nextId), built.value)))
              && store.docs == old(store.docs)[old(store.nextId) := built.value]
              && store.nextId == old(store.nextId) + 1
  {
    if gate.Deny? {
      return Response(gate.status, Denied);
    }
    if built.Failure? {
      return Failed(built.error);
    }
    var id := store.Insert(built.value);
    res := Response(201, Item(Doc(id, built.value)));
  }

  /** `GET /:id`: the document, or 404 with the resource's not-found message. */
  function Get<T(!new)>(store: Store<T>, id: Id, notFound: string): (r: Response<Doc<T>>)
    reads store
    ensures r.status == 200 || r.status == 404
    ensures r.status == 200 <==> id in store.docs
    ensures r.status == 200 ==> r.body == Item(Doc(id, store.docs[id]))
    ensures r.status == 404 ==> r.body == Message(notFound)
  {
    match store.Find(id)
    case Some(rec) => Response(200, Item(Doc(id, rec)))
    case None => Response(404, Message(notFound))
  }

  /** `GET /` with a sort: every document exactly once, ordered by `key`. */
  function List<T(!new)>(store: Store<T>, key: Doc<T> -> int): (r: Response<Doc<T>>)
    requires store.Valid()
    reads store
    ensures r.status == 200 && r.body.Items?
    ensures SortedBy(r.body.items, key)
    ensures multiset(r.body.items) == multiset(store.Entries())
    ensures forall d :: d in r.body.items <==> d.id in store.docs && store.docs[d.id] == d.rec
  {
    var sorted := SortBy(store.Entries(), key);
    assert forall d :: d in sorted <==> d in store.Entries() by {
      forall d ensures d in sorted <==> d in store.Entries() {
        assert d in sorted <==> d in multiset(sorted);
        assert d in store.Entries() <==> d in multiset(store.Entries());
      }
    }
    Response(200, Items(sorted))
  }

  /**
   * `PUT /:id`: `findByIdAndUpdate(id, req.body, { new: true, runValidators: true })`.
   * The update validators run before the lookup, so a rejected update is a 500 even
   * for an id that does not exist. `errs` are those validators' verdict on the body and
   * `merge` applies the accepted body to the stored document.
   */
  method Update<T(!new)>(store: Store<T>, gate: Gate, id: Id, errs: seq<FieldError>,
                         merge: T -> T, notFound: string)
    returns (res: Response<Doc<T>>)
    requires store.Valid()
    modifies store
    ensures store.Valid()
    ensures gate.Deny? ==> res == Response(gate.status, Denied) && unchanged(store)
    ensures gate.Allow? && errs != [] ==> res == Failed(errs) && unchanged(store)
    ensures gate.Allow? && errs == [] && id !in old(store.docs) ==>
              res == Response(404, Message(notFound)) && unchanged(store)
    ensures gate.Allow? && errs == [] && id in old(store.docs) ==>
              var rec := merge(old(store.docs)[id]);
              && res == Response(200, Item(Doc(id, rec)))
              && store.docs == old(store.docs)[id := rec]
              && store.nextId == old(store.nextId)
  {
    if gate.Deny? {
      return Response(gate.status, Denied);
    }
    if errs != [] {
      return Failed(errs);
    }
    match store.Find(id)
    case None =>
      res := Response(404, Message(notFound));
    case Some(old_rec) =>
      var rec := merge(old_rec);
      store.Replace(id, rec);
      res := Response(200, Item(Doc(id, rec)));
  }

  /** `DELETE /:id`: `findByIdAndDelete(id)`, then the resource's confirmation message. */
  method Delete<T(!new)>(store: Store<T>, gate: Gate, id: Id, notFound: string, deleted: string)
    returns (res: Response<Doc<T>>)
    requires store.Valid()
    modifies store
    ensures store.Valid()
    ensures gate.Deny? ==> res == Response(gate.status, Denied) && unchanged(store)
    ensures gate.Allow? && id !in old(store.docs) ==>
              res == Response(404, Message(notFound)) && unchanged(store)
    ensures gate.Allow? && id in old(store.docs) ==>
              && res == Response(200, Message(deleted))
              && store.docs == old(store.docs) - {id}
              && store.nextId == old(store.nextId)
  {
    if gate.Deny? {
      return Response(gate.status, Denied);
    }
    if id !in store.docs {
      return Response(404, Message(notFound));
    }
    store.Remove(id);
    res := Response(200, Message(deleted));
  }
}
