/**
 * One document collection: the documents by id, and the counter that issues fresh ids.
 * The four content collections and the user collection are each one Store.
 */
module Collections {
  import opened Wrappers
  import opened Http
  import opened Listing

  /** The documents with id below `n`, in increasing id order (the order of insertion). */
  function EntriesBelow<T(!new)>(docs: map<Id, T>, n: nat): (r: seq<Doc<T>>)
    ensures forall d :: d in r <==> d.id < n && d.id in docs && docs[d.id] == d.rec
    ensures forall i, j :: 0 <= i < j < |r| ==> r[i].id < r[j].id
  {
    if n == 0 then []
    else
      var prev := EntriesBelow(docs, n - 1);
      assert forall i :: 0 <= i < |prev| ==> prev[i] in prev;
      prev + (if n - 1 in docs then [Doc(n - 1, docs[n - 1])] else [])
  }

  class Store<T(!new)> {
    var docs: map<Id, T>
    var nextId: Id

    /** Every stored id was issued by the counter. */
    ghost predicate Valid()
      reads this
    {
      forall id :: id in docs ==> id < nextId
    }

    constructor ()
      ensures Valid() && docs == map[] && nextId == 0
    {
      docs := map[];
      nextId := 0;
    }

    /** `findById`: the document with that id, if any. */
    function Find(id: Id): (r: Option<T>)
      reads this
      ensures r.Some? <==> id in docs
      ensures r.Some? ==> r.value == docs[id]
    {
      if id in docs then Some(docs[id]) else None
    }

    /** `find()` with no filter and no sort: each document exactly once, in insertion order. */
    function Entries(): (r: seq<Doc<T>>)
      requires Valid()
      reads this
      ensures forall d :: d in r <==> d.id in docs && docs[d.id] == d.rec
      ensures forall i, j :: 0 <= i < j < |r| ==> r[i].id < r[j].id
    {
      EntriesBelow(docs, nextId)
    }

    /** `create`: stores `rec` under a fresh id. */
    method Insert(rec: T) returns (id: Id)
      requires Valid()
      modifies this
      ensures Valid()
      ensures id == old(nextId) && id !in old(docs)
      ensures docs == old(docs)[id := rec] && nextId == old(nextId) + 1
    {
      id := nextId;
      docs := docs[id := rec];
      nextId := nextId + 1;
    }

    /** The write half of `findByIdAndUpdate`. */
    method Replace(id: Id, rec: T)
      requires Valid() && id in docs
      modifies this
      ensures Valid()
      ensures docs == old(docs)[id := rec] && nextId == old(nextId)
    {
      docs := docs[id := rec];
    }

    /** The write half of `findByIdAndDelete`. */
    method Remove(id: Id)
      requires Valid() && id in docs
      modifies this
      ensures Valid()
      ensures docs == old(docs) - {id} && nextId == old(nextId)
    {
      docs := docs - {id};
    }
  }

  /** A selection drawn from the entries holds no document twice, and so no id twice. */
  lemma DistinctIds<T(!new)>(store: Store<T>, s: seq<Doc<T>>)
    requires store.Valid() && multiset(s) <= multiset(store.Entries())
    ensures forall i, j :: 0 <= i < j < |s| ==> s[i].id != s[j].id
  {
    var e := store.Entries();
    DistinctSub(s, e);
    forall i, j | 0 <= i < j < |s|
      ensures s[i].id != s[j].id
    {
      assert s[i] in multiset(s) && s[j] in multiset(s);
      assert s[i] in e && s[j] in e;
    }
  }

  /** `find(p).sort(key).limit(n)` on the documents of a collection: each stored document at most once. */
  function QueryStore<T(!new)>(store: Store<T>, p: Doc<T> -> bool, key: Doc<T> -> int, n: nat): (r: seq<Doc<T>>)
    requires store.Valid()
    reads store
    ensures |r| <= n && SortedBy(r, key)
    ensures forall d :: d in r ==> p(d) && d.id in store.docs && store.docs[d.id] == d.rec
    ensures forall d: Doc<T> :: d.id in store.docs && store.docs[d.id] == d.rec && p(d) && d !in r ==>
              |r| == n && forall e :: e in r ==> key(e) <= key(d)
    ensures multiset(r) <= multiset(Filter(store.Entries(), p))
    ensures forall i, j :: 0 <= i < j < |r| ==> r[i].id != r[j].id
  {
    var e := store.Entries();
    var r := Query(e, p, key, n);
    assert multiset(r) <= multiset(e) by {
      assert multiset(r) <= multiset(Filter(e, p)) && multiset(Filter(e, p)) <= multiset(e);
    }
    DistinctIds(store, r);
    r
  }
}
