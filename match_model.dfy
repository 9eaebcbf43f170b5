/**
 * The match schema: five required fields, nullable scores, the status enum, a default
 * competition, and an ordered array of goal-scorer sub-documents.
 */
module MatchModel {
  import opened Wrappers
  import opened Schema
  import opened Http

  datatype Status = Scheduled | Live | Completed | Cancelled

  const STATUS_NAMES: seq<string> := ["scheduled", "live", "completed", "cancelled"]

  function StatusName(s: Status): (n: string)
    ensures n in STATUS_NAMES && ParseStatus(n) == Some(s)
  {
    match s
    case Scheduled => "scheduled"
    case Live => "live"
    case Completed => "completed"
    case Cancelled => "cancelled"
  }

  function ParseStatus(n: string): (r: Option<Status>)
    ensures r.Some? <==> n in STATUS_NAMES
  {
    if n == "scheduled" then Some(Scheduled)
    else if n == "live" then Some(Live)
    else if n == "completed" then Some(Completed)
    else if n == "cancelled" then Some(Cancelled)
    else None
  }

  datatype Side = Home | Away

  const SIDE_NAMES: seq<string> := ["home", "away"]

  function SideName(s: Side): (n: string)
    ensures n in SIDE_NAMES && ParseSide(n) == Some(s)
  {
    match s
    case Home => "home"
    case Away => "away"
  }

  function ParseSide(n: string): (r: Option<Side>)
    ensures r.Some? <==> n in SIDE_NAMES
  {
    if n == "home" then Some(Home) else if n == "away" then Some(Away) else None
  }

  /** Valid enum names parse back to the value they name. */
  lemma NamesParseBack(status: string, side: string)
    ensures status in STATUS_NAMES ==> StatusName(ParseStatus(status).value) == status
    ensures side in SIDE_NAMES ==> SideName(ParseSide(side).value) == side
  {
  }

  const DEFAULT_STATUS: Status := Scheduled
  const DEFAULT_COMPETITION: string := "League"
  const DEFAULT_SCORER_GOALS: int := 1
  const MIN_SCORER_GOALS: int := 1

  /** A goal-scorer sub-document; `player` is an optional reference to a player document. */
  datatype GoalScorer = GoalScorer(player: Option<Id>, playerName: string, goals: int, team: Side)

  /** A stored match. Dates are integer timestamps; an unplayed score is null (`None`). */
  datatype Match = Match(
    homeTeam: string, awayTeam: string, date: int, time: string, venue: string,
    homeScore: Option<int>, awayScore: Option<int>, status: Status, competition: string,
    goalScorers: seq<GoalScorer>, createdAt: int)

  datatype ScorerInput = ScorerInput(
    player: Option<Id>, playerName: Option<string>, goals: Option<int>, team: Option<string>)

  /** A request body: each path absent or given; a given score is a number or an explicit null. */
  datatype MatchInput = MatchInput(
    homeTeam: Option<string>, awayTeam: Option<string>, date: Option<int>, time: Option<string>,
    venue: Option<string>, homeScore: Option<Option<int>>, awayScore: Option<Option<int>>,
    status: Option<string>, competition: Option<string>, goalScorers: Option<seq<ScorerInput>>)

  predicate ValidScorer(g: GoalScorer) {
    g.playerName != "" && g.goals >= MIN_SCORER_GOALS
  }

  /** What every stored match satisfies. Nothing relates the scorers to the scores. */
  predicate Valid(m: Match) {
    && m.homeTeam != "" && m.awayTeam != "" && m.time != "" && m.venue != ""
    && forall i :: 0 <= i < |m.goalScorers| ==> ValidScorer(m.goalScorers[i])
  }

  /** The validators of one sub-document. A given array is cast as a whole, so every element is new. */
  function ScorerErrors(s: ScorerInput, i: nat): seq<FieldError> {
    CheckRequiredString(Element("goalScorers", i, "playerName"), s.playerName, true)
    + CheckNumber(Element("goalScorers", i, "goals"), s.goals, false, true, Some(MIN_SCORER_GOALS), None)
    + CheckEnum(Element("goalScorers", i, "team"), s.team, SIDE_NAMES, true, true)
  }

  predicate ScorerAcceptable(s: ScorerInput) {
    && s.playerName.Some? && s.playerName.value != ""
    && (s.goals.Some? ==> s.goals.value >= MIN_SCORER_GOALS)
    && s.team.Some? && s.team.value in SIDE_NAMES
  }

  lemma ScorerErrorsMatchRules(s: ScorerInput, i: nat)
    ensures ScorerErrors(s, i) == [] <==> ScorerAcceptable(s)
  {
  }

  /** The errors of the elements from index `i` on, in array order. */
  function ScorersErrorsFrom(ss: seq<ScorerInput>, i: nat): seq<FieldError>
    decreases |ss| - i
  {
    if i >= |ss| then [] else ScorerErrors(ss[i], i) + ScorersErrorsFrom(ss, i + 1)
  }

  lemma {:induction false} ScorersErrorsFromMatchRules(ss: seq<ScorerInput>, i: nat)
    ensures ScorersErrorsFrom(ss, i) == [] <==> forall k :: i <= k < |ss| ==> ScorerAcceptable(ss[k])
    decreases |ss| - i
  {
    if i < |ss| {
      ScorerErrorsMatchRules(ss[i], i);
      ScorersErrorsFromMatchRules(ss, i + 1);
    }
  }

  /** The validation errors of an insert (`creating`) or of an update's set paths. */
  function Errors(b: MatchInput, creating: bool): seq<FieldError> {
    CheckRequiredString(Field("homeTeam"), b.homeTeam, creating)
    + CheckRequiredString(Field("awayTeam"), b.awayTeam, creating)
    + CheckNumber(Field("date"), b.date, true, creating, None, None)
    + CheckRequiredString(Field("time"), b.time, creating)
    + CheckRequiredString(Field("venue"), b.venue, creating)
    + CheckEnum(Field("status"), b.status, STATUS_NAMES, false, creating)
    + (if b.goalScorers.Some? then ScorersErrorsFrom(b.goalScorers.value, 0) else [])
  }

  /** The rules the validators enforce, path by path. Scores and competition are unchecked. */
  predicate Acceptable(b: MatchInput, creating: bool) {
    && (if b.homeTeam.None? then !creating else b.homeTeam.value != "")
    && (if b.awayTeam.None? then !creating else b.awayTeam.value != "")
    && (b.date.None? ==> !creating)
    && (if b.time.None? then !creating else b.time.value != "")
    && (if b.venue.None? then !creating else b.venue.value != "")
    && (b.status.Some? ==> b.status.value in STATUS_NAMES)
    && (b.goalScorers.Some? ==>
          forall k :: 0 <= k < |b.goalScorers.value| ==> ScorerAcceptable(b.goalScorers.value[k]))
  }

  lemma ErrorsMatchRules(b: MatchInput, creating: bool)
    ensures Errors(b, creating) == [] <==> Acceptable(b, creating)
  {
    if b.goalScorers.Some? {
      ScorersErrorsFromMatchRules(b.goalScorers.value, 0);
    }
  }

  /** One cast sub-document: `goals` defaults to 1; the team of an accepted element always parses. */
  function BuildScorer(s: ScorerInput): (g: GoalScorer)
    ensures g.player == s.player && g.playerName == s.playerName.GetOr("")
    ensures g.goals == s.goals.GetOr(DEFAULT_SCORER_GOALS)
    ensures ScorerAcceptable(s) ==> ValidScorer(g) && SideName(g.team) == s.team.value
  {
    NamesParseBack("", s.team.GetOr(""));
    GoalScorer(s.player, s.playerName.GetOr(""), s.goals.GetOr(DEFAULT_SCORER_GOALS),
               ParseSide(s.team.GetOr("")).GetOr(Home))
  }

  /** The cast array keeps the given elements one for one, in the given order. */
  function BuildScorers(ss: seq<ScorerInput>): (r: seq<GoalScorer>)
    ensures |r| == |ss|
    ensures forall i :: 0 <= i < |ss| ==> r[i] == BuildScorer(ss[i])
  {
    seq(|ss|, i requires 0 <= i < |ss| => BuildScorer(ss[i]))
  }

  /** `Match.create(body)` with `now` as the insert time. */
  function New(b: MatchInput, now: int): (r: Result<Match, seq<FieldError>>)
    ensures r.Success? <==> Acceptable(b, true)
    ensures r.Failure? ==> r.error != []
    ensures r.Success? ==> Valid(r.value)
    ensures r.Success? ==>
              var m := r.value;
              && m.homeTeam == b.homeTeam.value && m.awayTeam == b.awayTeam.value
              && m.date == b.date.value && m.time == b.time.value && m.venue == b.venue.value
              && m.homeScore == b.homeScore.GetOr(None) && m.awayScore == b.awayScore.GetOr(None)
              && (b.status.None? ==> m.status == DEFAULT_STATUS)
              && (b.status.Some? ==> StatusName(m.status) == b.status.value)
              && m.competition == b.competition.GetOr(DEFAULT_COMPETITION)
              && m.goalScorers == BuildScorers(b.goalScorers.GetOr([]))
              && m.createdAt == now
  {
    var errs := Errors(b, true);
    ErrorsMatchRules(b, true);
    NamesParseBack(b.status.GetOr(""), "");
    if errs != [] then Failure(errs)
    else
      Success(Match(
        b.homeTeam.value, b.awayTeam.value, b.date.value, b.time.value, b.venue.value,
        b.homeScore.GetOr(None), b.awayScore.GetOr(None),
        if b.status.Some? then ParseStatus(b.status.value).GetOr(DEFAULT_STATUS) else DEFAULT_STATUS,
        b.competition.GetOr(DEFAULT_COMPETITION), BuildScorers(b.goalScorers.GetOr([])), now))
  }

  /** The scores take no part in validation: changing them never changes the verdict. */
  lemma ScoresUnchecked(b: MatchInput, home: Option<Option<int>>, away: Option<Option<int>>, now: int)
    ensures New(b, now).Success? <==> New(b.(homeScore := home, awayScore := away), now).Success?
  {
  }

  predicate UpdateAccepted(u: MatchInput) {
    Errors(u, false) == []
  }

  /** The `$set` of an update: given paths replaced (a given scorer array as a whole), the rest kept. */
  function Merge(m: Match, u: MatchInput): (r: Match)
    ensures r.createdAt == m.createdAt
    ensures r.homeTeam == u.homeTeam.GetOr(m.homeTeam) && r.awayTeam == u.awayTeam.GetOr(m.awayTeam)
    ensures r.date == u.date.GetOr(m.date) && r.time == u.time.GetOr(m.time)
    ensures r.venue == u.venue.GetOr(m.venue)
    ensures r.homeScore == u.homeScore.GetOr(m.homeScore) && r.awayScore == u.awayScore.GetOr(m.awayScore)
    ensures u.status.None? ==> r.status == m.status
    ensures u.status.Some? && u.status.value in STATUS_NAMES ==> StatusName(r.status) == u.status.value
    ensures r.competition == u.competition.GetOr(m.competition)
    ensures r.goalScorers == if u.goalScorers.Some? then BuildScorers(u.goalScorers.value) else m.goalScorers
  {
    NamesParseBack(u.status.GetOr(""), "");
    Match(
      u.homeTeam.GetOr(m.homeTeam), u.awayTeam.GetOr(m.awayTeam), u.date.GetOr(m.date),
      u.time.GetOr(m.time), u.venue.GetOr(m.venue),
      u.homeScore.GetOr(m.homeScore), u.awayScore.GetOr(m.awayScore),
      if u.status.Some? then ParseStatus(u.status.value).GetOr(m.status) else m.status,
      u.competition.GetOr(m.competition),
      if u.goalScorers.Some? then BuildScorers(u.goalScorers.value) else m.goalScorers,
      m.createdAt)
  }

  /** An accepted update keeps a stored match valid. */
  lemma MergeKeepsValid(m: Match, u: MatchInput)
    requires UpdateAccepted(u) && Valid(m)
    ensures Valid(Merge(m, u))
  {
    ErrorsMatchRules(u, false);
  }
}
