/** The fixtures page: the upcoming and past sections, and what each match card shows. */
module MatchesPage {
  import opened Wrappers
  import opened Http
  import opened Listing
  import opened MatchModel

  predicate IsUpcoming(m: Doc<Match>, now: int) {
    m.rec.date >= now
  }

  predicate IsPast(m: Doc<Match>, now: int) {
    m.rec.date < now && m.rec.status == Completed
  }

  function UpcomingAt(now: int): Doc<Match> -> bool {
    m => IsUpcoming(m, now)
  }

  function PastAt(now: int): Doc<Match> -> bool {
    m => IsPast(m, now)
  }

  /** Matches dated now or later, of any status, in list order. */
  function Upcoming(ms: seq<Doc<Match>>, now: int): (r: seq<Doc<Match>>)
    ensures forall m :: m in r <==> m in ms && m.rec.date >= now
    ensures multiset(r) <= multiset(ms)
  {
    Filter(ms, UpcomingAt(now))
  }

  /** Completed matches dated before now, in list order. */
  function Past(ms: seq<Doc<Match>>, now: int): (r: seq<Doc<Match>>)
    ensures forall m :: m in r <==> m in ms && m.rec.date < now && m.rec.status == Completed
    ensures multiset(r) <= multiset(ms)
  {
    Filter(ms, PastAt(now))
  }

  /** Two upcoming matches keep the order of the fetched list. */
  lemma UpcomingKeepsOrder(ms: seq<Doc<Match>>, now: int, i: nat, j: nat)
    requires i < j < |ms| && ms[i].rec.date >= now && ms[j].rec.date >= now
    ensures var r := Upcoming(ms, now);
            var a := |Filter(ms[..i], UpcomingAt(now))|;
            var b := |Filter(ms[..j], UpcomingAt(now))|;
            a < b < |r| && r[a] == ms[i] && r[b] == ms[j]
  {
    FilterKeepsOrder(ms, UpcomingAt(now), i, j);
  }

  /** Two past matches keep the order of the fetched list. */
  lemma PastKeepsOrder(ms: seq<Doc<Match>>, now: int, i: nat, j: nat)
    requires i < j < |ms| && IsPast(ms[i], now) && IsPast(ms[j], now)
    ensures var r := Past(ms, now);
            var a := |Filter(ms[..i], PastAt(now))|;
            var b := |Filter(ms[..j], PastAt(now))|;
            a < b < |r| && r[a] == ms[i] && r[b] == ms[j]
  {
    FilterKeepsOrder(ms, PastAt(now), i, j);
  }

  /** No match is in both sections; a past match that was not completed is in neither. */
  lemma SectionsDisjoint(ms: seq<Doc<Match>>, now: int)
    ensures forall m :: !(m in Upcoming(ms, now) && m in Past(ms, now))
    ensures forall m :: m in ms && m.rec.date < now && m.rec.status != Completed ==>
              m !in Upcoming(ms, now) && m !in Past(ms, now)
  {
  }

  /**
   * The page reads the clock again for `past`, after `upcoming`. With the earlier reading `t1`
   * and the later `t2`, a match is in both sections exactly when it is completed and dated in
   * between, so the sections are disjoint only when no completed match falls in `[t1, t2)`.
   */
  lemma SectionsOverlapBetweenReadings(ms: seq<Doc<Match>>, t1: int, t2: int)
    requires t1 <= t2
    ensures forall m :: m in Upcoming(ms, t1) && m in Past(ms, t2) <==>
              m in ms && t1 <= m.rec.date < t2 && m.rec.status == Completed
  {
  }

  /** The "No matches scheduled yet" message. */
  function ShowsEmptyState(ms: seq<Doc<Match>>, now: int): (r: bool)
    ensures r <==> forall m :: m in ms ==> m.rec.date < now && m.rec.status != Completed
  {
    var up := Upcoming(ms, now);
    var past := Past(ms, now);
    assert up != [] ==> up[0] in up;
    assert past != [] ==> past[0] in past;
    |up| == 0 && |past| == 0
  }

  /** A score is shown only when both sides have one. */
  function HasScore(m: Match): (r: bool)
    ensures r <==> m.homeScore.Some? && m.awayScore.Some?
  {
    m.homeScore != None && m.awayScore != None
  }

  /**
   * Through the schema, a created match shows a score exactly when the body gave both scores
   * as numbers: an absent or null score stays null, and one null side hides the other.
   */
  lemma CreatedScoreShown(b: MatchInput, now: int)
    requires New(b, now).Success?
    ensures HasScore(New(b, now).value) <==> b.homeScore.GetOr(None).Some? && b.awayScore.GetOr(None).Some?
    ensures b.homeScore.None? ==> !HasScore(New(b, now).value)
  {
  }

  function OnSide(side: Side): GoalScorer -> bool {
    (g: GoalScorer) => g.team == side
  }

  /** `match.goalScorers?.filter(g => g.team === side) || []`. */
  function ScorersFor(gs: Option<seq<GoalScorer>>, side: Side): (r: seq<GoalScorer>)
    ensures gs.None? ==> r == []
    ensures forall g :: g in r <==> gs.Some? && g in gs.value && g.team == side
  {
    if gs.None? then [] else Filter(gs.value, OnSide(side))
  }

  /** The home and away lists split the scorers between them, each element exactly once. */
  lemma ScorersPartition(gs: Option<seq<GoalScorer>>)
    ensures |ScorersFor(gs, Home)| + |ScorersFor(gs, Away)| == |gs.GetOr([])|
    ensures multiset(ScorersFor(gs, Home)) + multiset(ScorersFor(gs, Away)) == multiset(gs.GetOr([]))
  {
    if gs.Some? {
      FilterPartition(gs.value, OnSide(Home), OnSide(Away));
      FilterPartitionSizes(gs.value, OnSide(Home), OnSide(Away));
    }
  }

  /** Each side's list keeps the order the scorers were recorded in. */
  lemma ScorersKeepOrder(gs: seq<GoalScorer>, side: Side, i: nat, j: nat)
    requires i < j < |gs| && gs[i].team == side && gs[j].team == side
    ensures var r := ScorersFor(Some(gs), side);
            var a := |Filter(gs[..i], OnSide(side))|;
            var b := |Filter(gs[..j], OnSide(side))|;
            a < b < |r| && r[a] == gs[i] && r[b] == gs[j]
  {
    FilterKeepsOrder(gs, OnSide(side), i, j);
  }
}
