/** The home page: the next fixture, the three latest stories, and the team-photo slideshow. */
module HomePage {
  import opened Wrappers
  import opened Http
  import opened Listing
  import MatchModel
  import MatchesPage
  import NewsRoutes
  import GalleryModel

  const LATEST_NEWS: nat := 3

  /** `upcoming[0]` of the fetched list: the first listed match dated now or later. */
  function NextMatch(ms: seq<Doc<MatchModel.Match>>, now: int): (r: Option<Doc<MatchModel.Match>>)
    ensures r.None? <==> forall m :: m in ms ==> m.rec.date < now
    ensures r.Some? ==> exists k :: 0 <= k < |ms| && ms[k] == r.value && ms[k].rec.date >= now
                                    && forall j :: 0 <= j < k ==> ms[j].rec.date < now
  {
    var up := MatchesPage.Upcoming(ms, now);
    if up == [] then None
    else
      FilterHead(ms, MatchesPage.UpcomingAt(now));
      Some(up[0])
  }

  /** `slice(0, 3)` of the newest-first list. */
  function LatestNews(ns: seq<Doc<NewsRoutes.Shown>>): (r: seq<Doc<NewsRoutes.Shown>>)
    ensures |r| == if |ns| < LATEST_NEWS then |ns| else LATEST_NEWS
    ensures r == ns[..|r|]
  {
    Take(ns, LATEST_NEWS)
  }

  predicate IsTeamPhoto(g: Doc<GalleryModel.GalleryItem>) {
    g.rec.category == GalleryModel.Team
  }

  /** The slideshow's images: gallery items in the `team` category, in the order received. */
  function TeamImages(items: seq<Doc<GalleryModel.GalleryItem>>): (r: seq<Doc<GalleryModel.GalleryItem>>)
    ensures forall g :: g in r <==> g in items && g.rec.category == GalleryModel.Team
    ensures |r| <= |items| && multiset(r) <= multiset(items)
  {
    Filter(items, IsTeamPhoto)
  }

  /** Two team photos keep the order the server sent them in. */
  lemma TeamImagesKeepOrder(items: seq<Doc<GalleryModel.GalleryItem>>, i: nat, j: nat)
    requires i < j < |items| && IsTeamPhoto(items[i]) && IsTeamPhoto(items[j])
    ensures var r := TeamImages(items);
            var a := |Filter(items[..i], IsTeamPhoto)|;
            var b := |Filter(items[..j], IsTeamPhoto)|;
            a < b < |r| && r[a] == items[i] && r[b] == items[j]
  {
    FilterKeepsOrder(items, IsTeamPhoto, i, j);
  }

  /** `(prev + 1) % n`. */
  function NextIndex(i: nat, n: nat): (r: nat)
    requires n > 0
    ensures r < n
    ensures i < n ==> r == if i == n - 1 then 0 else i + 1
  {
    (i + 1) % n
  }

  /** `(prev - 1 + n) % n`. */
  function PrevIndex(i: nat, n: nat): (r: nat)
    requires n > 0
    ensures r < n
    ensures i < n ==> r == if i == 0 then n - 1 else i - 1
  {
    (i - 1 + n) % n
  }

  /** Previous undoes next, and next undoes previous. */
  lemma PrevUndoesNext(i: nat, n: nat)
    requires i < n
    ensures PrevIndex(NextIndex(i, n), n) == i
    ensures NextIndex(PrevIndex(i, n), n) == i
  {
  }

  /** `k` steps forward from slide `i`. */
  function Advance(i: nat, n: nat, k: nat): (r: nat)
    requires n > 0
    ensures r < n
  {
    if k == 0 then i % n else NextIndex(Advance(i, n, k - 1), n)
  }

  /** Stepping forward is addition modulo the number of slides, so `n` steps come back round. */
  lemma {:induction false} AdvanceIsModular(i: nat, n: nat, k: nat)
    requires n > 0
    ensures Advance(i, n, k) == (i + k) % n
  {
    if k > 0 {
      AdvanceIsModular(i, n, k - 1);
      ModSucc(i + k - 1, n);
    }
  }

  /** A multiple of `n` strictly between `-n` and `n` is zero. */
  lemma MultipleBelowIsZero(n: int, d: int)
    requires n > 0 && -n < d * n < n
    ensures d == 0
  {
  }

  /** Euclidean division has exactly one quotient and remainder. */
  lemma ModUnique(x: int, n: int, q: int, r: int)
    requires n > 0 && 0 <= r < n && x == q * n + r
    ensures x % n == r
  {
    var q0 := x / n;
    var r0 := x % n;
    assert x == q0 * n + r0;
    assert (q - q0) * n == r0 - r;
    MultipleBelowIsZero(n, q - q0);
  }

  lemma ModSucc(a: nat, n: nat)
    requires n > 0
    ensures (a % n + 1) % n == (a + 1) % n
  {
    var q := a / n;
    var r := a % n;
    assert a == q * n + r;
    if r + 1 < n {
      ModUnique(a + 1, n, q, r + 1);
      ModUnique(r + 1, n, 0, r + 1);
    } else {
      assert a + 1 == (q + 1) * n + 0;
      ModUnique(a + 1, n, q + 1, 0);
      ModUnique(r + 1, n, 1, 0);
    }
  }

  /** After as many steps as there are slides, the show is back where it started. */
  lemma FullTurn(i: nat, n: nat)
    requires i < n
    ensures Advance(i, n, n) == i
  {
    AdvanceIsModular(i, n, n);
    ModUnique(i + n, n, 1, i);
  }

  /** The prev/next controls, the dots and the five-second rotation exist only with more than one image. */
  predicate Rotates(images: nat) {
    images > 1
  }

  /** With a single image there would be nothing to rotate: both steps stay on slide 0. */
  lemma SingleImageStays(i: nat)
    ensures NextIndex(i, 1) == 0 && PrevIndex(i, 1) == 0
    ensures !Rotates(1) && Rotates(2)
  {
  }

  /** The `currentSlide` and `galleryImages` state cells. */
  class Slideshow {
    var images: seq<Doc<GalleryModel.GalleryItem>>
    var current: nat

    constructor ()
      ensures images == [] && current == 0
    {
      images := [];
      current := 0;
    }

    /** The gallery fetch resolved: keep the team photos. The slide index is not reset. */
    method Load(items: seq<Doc<GalleryModel.GalleryItem>>)
      modifies this
      ensures images == TeamImages(items) && current == old(current)
    {
      images := TeamImages(items);
    }

    /** `nextSlide`, and each tick of the rotation timer; both exist only while the show rotates. */
    method Next()
      requires Rotates(|images|)
      modifies this
      ensures images == old(images)
      ensures current == NextIndex(old(current), |images|) && current < |images|
    {
      current := (current + 1) % |images|;
    }

    /** `prevSlide`, whose button is rendered only while the show rotates. */
    method Prev()
      requires Rotates(|images|)
      modifies this
      ensures images == old(images)
      ensures current == PrevIndex(old(current), |images|) && current < |images|
    {
      current := (current - 1 + |images|) % |images|;
    }

    /** A dot: `setCurrentSlide(index)` for a rendered index; the dots share the controls' guard. */
    method GoTo(index: nat)
      requires Rotates(|images|) && index < |images|
      modifies this
      ensures current == index && images == old(images)
    {
      current := index;
    }
  }
}
