/**
 * The `/api/news` router. Create stamps the caller as author; the public list shows only
 * published items, newest first; both reads expand the author to its name.
 */
module NewsRoutes {
  import opened Wrappers
  import opened Schema
  import opened Http
  import opened Listing
  import opened Guard
  import opened Collections
  import opened NewsModel
  import Crud

  const NOT_FOUND: string := "News not found"
  const DELETED: string := "News deleted successfully"

  predicate AllValid(docs: map<Id, News>) {
    forall id :: id in docs ==> Valid(docs[id])
  }

  /** `{ ...req.body, author: req.user._id }`: the caller's id wins over any author in the body. */
  function WithAuthor(b: NewsInput, author: Id): NewsInput {
    b.(author := Some(author))
  }

  /** `POST /`. */
  method Create(store: Store<News>, cred: Credential, users: map<Id, User>, body: NewsInput, now: nat)
    returns (res: Response<Doc<News>>)
    requires store.Valid() && AllValid(store.docs)
    modifies store
    ensures store.Valid() && AllValid(store.docs)
    ensures AdminOnly(cred, now, users).Deny? ==>
              res == Response(AdminOnly(cred, now, users).status, Denied) && unchanged(store)
    ensures AdminOnly(cred, now, users).Allow? ==>
              var built := New(WithAuthor(body, AdminOnly(cred, now, users).user.id), now);
              && (built.Failure? ==> res == Failed(built.error) && unchanged(store))
              && (built.Success? ==>
                    && res == Response(201, Item(Doc(old(store.nextId), built.value)))
                    && store.docs == old(store.docs)[old(store.nextId) := built.value]
                    && store.nextId == old(store.nextId) + 1
                    && built.value.author == AdminOnly(cred, now, users).user.id)
  {
    var gate := AdminOnly(cred, now, users);
    var author := if gate.Allow? then gate.user.id else 0;
    res := Crud.Create(store, gate, New(WithAuthor(body, author), now));
  }

  /** What `populate('author', 'name')` puts in place of the author id. */
  datatype AuthorRef = AuthorRef(id: Id, name: string)

  /** A news item as the reads send it: `author` expanded, or null when that user no longer exists. */
  datatype Shown = Shown(news: News, author: Option<AuthorRef>)

  function Show(n: News, users: map<Id, User>): (s: Shown)
    ensures s.news == n
    ensures s.author.Some? <==> n.author in users
    ensures s.author.Some? ==> s.author.value == AuthorRef(n.author, users[n.author].name)
  {
    Shown(n, if n.author in users then Some(AuthorRef(n.author, users[n.author].name)) else None)
  }

  function ShowAll(ds: seq<Doc<News>>, users: map<Id, User>): (r: seq<Doc<Shown>>)
    ensures |r| == |ds|
    ensures forall i :: 0 <= i < |ds| ==> r[i] == Doc(ds[i].id, Show(ds[i].rec, users))
  {
    seq(|ds|, i requires 0 <= i < |ds| => Doc(ds[i].id, Show(ds[i].rec, users)))
  }

  function NewestFirst(d: Doc<News>): int {
    -d.rec.createdAt
  }

  predicate IsPublished(d: Doc<News>) {
    d.rec.published
  }

  /** `GET /`: `find({ published: true }).populate('author', 'name').sort({ createdAt: -1 })`. */
  function List(store: Store<News>, users: map<Id, User>): (r: Response<Doc<Shown>>)
    requires store.Valid()
    reads store
    ensures r.status == 200 && r.body.Items?
    ensures forall i, j :: 0 <= i < j < |r.body.items| ==>
              r.body.items[i].rec.news.createdAt >= r.body.items[j].rec.news.createdAt
    ensures forall d :: d in r.body.items ==>
              && d.rec.news.published && d.id in store.docs && store.docs[d.id] == d.rec.news
              && d.rec == Show(d.rec.news, users)
    ensures forall id :: id in store.docs && store.docs[id].published ==>
              Doc(id, Show(store.docs[id], users)) in r.body.items
    ensures forall i, j :: 0 <= i < j < |r.body.items| ==> r.body.items[i].id != r.body.items[j].id
  {
    PublishedShown(store, users);
    Response(200, Items(ShowAll(PublishedNewest(store), users)))
  }

  /** The published items, shown: newest first, each once, and every published item among them. */
  lemma PublishedShown(store: Store<News>, users: map<Id, User>)
    requires store.Valid()
    ensures var r := ShowAll(PublishedNewest(store), users);
      && (forall i, j :: 0 <= i < j < |r| ==> r[i].rec.news.createdAt >= r[j].rec.news.createdAt)
      && (forall d :: d in r ==>
            && d.rec.news.published && d.id in store.docs && store.docs[d.id] == d.rec.news
            && d.rec == Show(d.rec.news, users))
      && (forall id :: id in store.docs && store.docs[id].published ==> Doc(id, Show(store.docs[id], users)) in r)
      && (forall i, j :: 0 <= i < j < |r| ==> r[i].id != r[j].id)
  {
    var sorted := PublishedNewest(store);
    var r := ShowAll(sorted, users);
    ShownMembers(sorted, users);
    ShownOrder(sorted, users);
    ShownIds(sorted, users);
    forall id | id in store.docs && store.docs[id].published
      ensures Doc(id, Show(store.docs[id], users)) in r
    {
      assert Doc(id, store.docs[id]) in sorted;
    }
  }

  /** `find({ published: true }).sort({ createdAt: -1 })`: each published item once, newest first. */
  function PublishedNewest(store: Store<News>): (r: seq<Doc<News>>)
    requires store.Valid()
    reads store
    ensures SortedBy(r, NewestFirst)
    ensures forall d :: d in r <==> d.id in store.docs && store.docs[d.id] == d.rec && d.rec.published
    ensures forall i, j :: 0 <= i < j < |r| ==> r[i].id != r[j].id
  {
    var sorted := Select(store.Entries(), IsPublished, NewestFirst);
    assert multiset(sorted) <= multiset(store.Entries()) by {
      assert multiset(sorted) == multiset(Filter(store.Entries(), IsPublished));
    }
    DistinctIds(store, sorted);
    sorted
  }

  /** The shown list holds exactly the shown forms of its input, and keeps its order. */
  lemma ShownMembers(ds: seq<Doc<News>>, users: map<Id, User>)
    ensures forall d :: d in ShowAll(ds, users) <==> Doc(d.id, d.rec.news) in ds && d.rec == Show(d.rec.news, users)
  {
    var r := ShowAll(ds, users);
    forall d ensures d in r <==> Doc(d.id, d.rec.news) in ds && d.rec == Show(d.rec.news, users) {
      if d in r {
        var i :| 0 <= i < |r| && r[i] == d;
        assert ds[i] == Doc(d.id, d.rec.news);
      }
      if Doc(d.id, d.rec.news) in ds && d.rec == Show(d.rec.news, users) {
        var i :| 0 <= i < |ds| && ds[i] == Doc(d.id, d.rec.news);
        assert r[i] == d;
      }
    }
  }

  /** Showing keeps the ids, so items with distinct ids stay distinct. */
  lemma ShownIds(ds: seq<Doc<News>>, users: map<Id, User>)
    requires forall i, j :: 0 <= i < j < |ds| ==> ds[i].id != ds[j].id
    ensures forall i, j :: 0 <= i < j < |ShowAll(ds, users)| ==> ShowAll(ds, users)[i].id != ShowAll(ds, users)[j].id
  {
    var r := ShowAll(ds, users);
    forall i, j | 0 <= i < j < |r|
      ensures r[i].id != r[j].id
    {
      assert r[i].id == ds[i].id && r[j].id == ds[j].id;
    }
  }

  /** Showing keeps the newest-first order of a sorted list. */
  lemma ShownOrder(ds: seq<Doc<News>>, users: map<Id, User>)
    requires SortedBy(ds, NewestFirst)
    ensures forall i, j :: 0 <= i < j < |ShowAll(ds, users)| ==>
              ShowAll(ds, users)[i].rec.news.createdAt >= ShowAll(ds, users)[j].rec.news.createdAt
  {
    var r := ShowAll(ds, users);
    forall i, j | 0 <= i < j < |r|
      ensures r[i].rec.news.createdAt >= r[j].rec.news.createdAt
    {
      assert NewestFirst(ds[i]) <= NewestFirst(ds[j]);
    }
  }

  /** `GET /:id`: populated, and not filtered on `published`. */
  function Get(store: Store<News>, users: map<Id, User>, id: Id): (r: Response<Doc<Shown>>)
    reads store
    ensures r.status == 200 <==> id in store.docs
    ensures r.status == 200 ==> r.body == Item(Doc(id, Show(store.docs[id], users)))
    ensures r.status != 200 ==> r == Response(404, Message(NOT_FOUND))
  {
    match store.Find(id)
    case Some(n) => Response(200, Item(Doc(id, Show(n, users))))
    case None => Response(404, Message(NOT_FOUND))
  }

  /** `PUT /:id`: the body applied as given; `author` is not re-stamped. The answer is not populated. */
  method Update(store: Store<News>, cred: Credential, users: map<Id, User>, id: Id, body: NewsInput, now: nat)
    returns (res: Response<Doc<News>>)
    requires store.Valid() && AllValid(store.docs)
    modifies store
    ensures store.Valid() && AllValid(store.docs)
    ensures AdminOnly(cred, now, users).Deny? ==>
              res == Response(AdminOnly(cred, now, users).status, Denied) && unchanged(store)
    ensures AdminOnly(cred, now, users).Allow? && !UpdateAccepted(body) ==>
              res == Failed(Errors(body, false)) && unchanged(store)
    ensures AdminOnly(cred, now, users).Allow? && UpdateAccepted(body) && id !in old(store.docs) ==>
              res == Response(404, Message(NOT_FOUND)) && unchanged(store)
    ensures AdminOnly(cred, now, users).Allow? && UpdateAccepted(body) && id in old(store.docs) ==>
              && res == Response(200, Item(Doc(id, Merge(old(store.docs)[id], body))))
              && store.docs == old(store.docs)[id := Merge(old(store.docs)[id], body)]
              && store.nextId == old(store.nextId)
  {
    res := Crud.Update(store, AdminOnly(cred, now, users), id, Errors(body, false),
                       n => Merge(n, body), NOT_FOUND);
    if UpdateAccepted(body) && id in old(store.docs) {
      MergeKeepsValid(old(store.docs)[id], body);
    }
  }

  /** `DELETE /:id`. */
  method Delete(store: Store<News>, cred: Credential, users: map<Id, User>, id: Id, now: nat)
    returns (res: Response<Doc<News>>)
    requires store.Valid() && AllValid(store.docs)
    modifies store
    ensures store.Valid() && AllValid(store.docs)
    ensures AdminOnly(cred, now, users).Deny? ==>
              res == Response(AdminOnly(cred, now, users).status, Denied) && unchanged(store)
    ensures AdminOnly(cred, now, users).Allow? && id !in old(store.docs) ==>
              res == Response(404, Message(NOT_FOUND)) && unchanged(store)
    ensures AdminOnly(cred, now, users).Allow? && id in old(store.docs) ==>
              && res == Response(200, Message(DELETED))
              && store.docs == old(store.docs) - {id} && store.nextId == old(store.nextId)
    ensures AdminOnly(cred, now, users).Allow? ==> Get(store, users, id) == Response(404, Message(NOT_FOUND))
  {
    res := Crud.Delete(store, AdminOnly(cred, now, users), id, NOT_FOUND, DELETED);
  }
}
