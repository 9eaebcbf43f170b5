/**
 * The admin dashboard's form logic: the player and match save guards, the payload
 * normalisation of scores, loading a match into the form, and editing the goal-scorer list.
 * The requests themselves are not sent here: a save returns the request it would make,
 * and the server's answer is a parameter.
 */
module AdminDashboard {
  import opened Wrappers
  import opened Http
  import opened Js
  import opened MatchModel

  const FILL_REQUIRED: string := "Please fill all required fields"
  const PLAYER_UPDATED: string := "Player updated successfully!"
  const PLAYER_ADDED: string := "Player added successfully!"
  const PLAYER_ERROR: string := "Error saving player"
  const MATCH_UPDATED: string := "Match updated successfully!"
  const MATCH_ADDED: string := "Match added successfully!"
  const MATCH_ERROR: string := "Error saving match"
  const ENTER_NAME: string := "Please enter player name"
  const FORM_COMPETITION: string := "Premier League"
  const FORM_STATUS: string := "scheduled"

  /** The player form. Number fields hold what the inputs hold: text, or a number loaded by edit. */
  datatype PlayerForm = PlayerForm(
    name: string, position: string, number: Value, age: Value, nationality: string,
    goals: Value, assists: Value, bio: string, image: string)

  const EMPTY_PLAYER_FORM: PlayerForm :=
    PlayerForm("", "Forward", Str(""), Str(""), "", Num(0), Num(0), "", "")

  /** One row of the form's goal-scorer list; rows added in the form carry no player reference. */
  datatype ScorerEntry = ScorerEntry(player: Option<Id>, playerName: string, goals: int, team: string)

  /** The match form. Scores hold the input's text, or a number loaded by edit. */
  datatype MatchForm = MatchForm(
    homeTeam: string, awayTeam: string, date: string, time: string, venue: string,
    competition: string, homeScore: Value, awayScore: Value, status: string,
    goalScorers: seq<ScorerEntry>)

  const EMPTY_MATCH_FORM: MatchForm :=
    MatchForm("", "", "", "", "", FORM_COMPETITION, Str(""), Str(""), FORM_STATUS, [])

  datatype ScorerForm = ScorerForm(playerName: string, goals: int, team: string)

  const EMPTY_SCORER_FORM: ScorerForm := ScorerForm("", 1, "home")

  /** The match as sent: each score a number or `null` (`None`), the rest as typed. */
  datatype MatchPayload = MatchPayload(
    homeTeam: string, awayTeam: string, date: string, time: string, venue: string,
    competition: string, homeScore: Option<int>, awayScore: Option<int>, status: string,
    goalScorers: seq<ScorerEntry>)

  /** The request a save makes: a PUT to the record being edited, or a POST. */
  datatype Request<P> = Post(payload: P) | Put(id: Id, payload: P)

  /** What the server answered a request: success, or an error whose body may carry a message. */
  datatype Outcome = Saved | Rejected(serverMessage: Option<string>)

  /** The player guard: name, number, age and nationality must all be truthy. */
  predicate PlayerFilled(f: PlayerForm) {
    f.name != "" && Truthy(f.number) && Truthy(f.age) && f.nationality != ""
  }

  /** The match guard: home team, away team, date, time and venue must all be non-empty. */
  predicate MatchFilled(f: MatchForm) {
    f.homeTeam != "" && f.awayTeam != "" && f.date != "" && f.time != "" && f.venue != ""
  }

  /** A freshly reset form is refused until the required fields are typed in. */
  lemma EmptyFormsRefused()
    ensures !PlayerFilled(EMPTY_PLAYER_FORM)
    ensures !MatchFilled(EMPTY_MATCH_FORM)
    ensures EMPTY_PLAYER_FORM.goals == Num(0) && EMPTY_PLAYER_FORM.assists == Num(0)
  {
  }

  /** `String(v)` for a cell that is truthy, so never `null`. */
  function Text(v: Value): string {
    match v
    case Null => "null"
    case Num(n) => ToString(n)
    case Str(s) => s
  }

  /** `v ? parseInt(v) : null`, with `NaN` sent as `null`. */
  function ScoreField(v: Value): (r: Option<int>)
    ensures !Truthy(v) ==> r == None
    ensures v.Str? && v.s != "" ==> r == ParseInt(v.s)
    ensures v.Num? && v.n != 0 ==> r == Some(v.n)
  {
    ParseIntOfToString(if v.Num? then v.n else 0);
    if Truthy(v) then ParseInt(Text(v)) else None
  }

  /** The payload a match save sends. */
  function Payload(f: MatchForm): (p: MatchPayload)
    ensures p.homeScore == ScoreField(f.homeScore) && p.awayScore == ScoreField(f.awayScore)
    ensures p.goalScorers == f.goalScorers
    ensures p.homeTeam == f.homeTeam && p.awayTeam == f.awayTeam && p.date == f.date
    ensures p.time == f.time && p.venue == f.venue && p.competition == f.competition
    ensures p.status == f.status
  {
    MatchPayload(f.homeTeam, f.awayTeam, f.date, f.time, f.venue, f.competition,
                 ScoreField(f.homeScore), ScoreField(f.awayScore), f.status, f.goalScorers)
  }

  /** A stored score as the edit form shows it: `null` becomes '', a number stays a number. */
  function LoadedScore(s: Option<int>): (v: Value)
    ensures s.None? ==> v == Str("")
    ensures s.Some? ==> v == Num(s.value)
  {
    if s.Some? then Num(s.value) else Str("")
  }

  function LoadedScorer(g: GoalScorer): (e: ScorerEntry)
    ensures e.player == g.player && e.playerName == g.playerName && e.goals == g.goals
    ensures e.team == SideName(g.team)
  {
    ScorerEntry(g.player, g.playerName, g.goals, SideName(g.team))
  }

  /** The form `handleEditMatch` fills from a stored match; `dateText` is its `YYYY-MM-DD` date. */
  function Loaded(m: Match, dateText: string): (f: MatchForm)
    ensures f.homeTeam == m.homeTeam && f.awayTeam == m.awayTeam && f.date == dateText
    ensures f.time == m.time && f.venue == m.venue
    ensures f.competition == if m.competition == "" then FORM_COMPETITION else m.competition
    ensures f.homeScore == LoadedScore(m.homeScore) && f.awayScore == LoadedScore(m.awayScore)
    ensures f.status == StatusName(m.status)
    ensures |f.goalScorers| == |m.goalScorers|
    ensures forall i :: 0 <= i < |m.goalScorers| ==> f.goalScorers[i] == LoadedScorer(m.goalScorers[i])
  {
    MatchForm(m.homeTeam, m.awayTeam, dateText, m.time, m.venue,
              if m.competition == "" then FORM_COMPETITION else m.competition,
              LoadedScore(m.homeScore), LoadedScore(m.awayScore), StatusName(m.status),
              seq(|m.goalScorers|, i requires 0 <= i < |m.goalScorers| => LoadedScorer(m.goalScorers[i])))
  }

  /**
   * Loading a stored score and saving it again: a score of 0 is sent back as `null`,
   * any other score, and `null`, as they were.
   */
  lemma ScoreRoundTrip(s: Option<int>)
    ensures s == Some(0) ==> ScoreField(LoadedScore(s)) == None
    ensures s != Some(0) ==> ScoreField(LoadedScore(s)) == s
  {
  }

  /** A stored valid match, loaded for editing, passes the save guard exactly when it has a date text. */
  lemma EditedMatchPassesGuard(m: Match, dateText: string)
    requires Valid(m)
    ensures MatchFilled(Loaded(m, dateText)) <==> dateText != ""
  {
  }

  /** The list without its element at `i`; an index past the end leaves it as it is (`splice(i, 1)`). */
  function RemoveAt<T>(s: seq<T>, i: nat): (r: seq<T>)
    ensures i < |s| ==> |r| == |s| - 1
    ensures i < |s| ==> forall k :: 0 <= k < i ==> r[k] == s[k]
    ensures i < |s| ==> forall k :: i <= k < |r| ==> r[k] == s[k + 1]
    ensures i < |s| ==> multiset(r) + multiset{s[i]} == multiset(s)
    ensures i >= |s| ==> r == s
  {
    if i < |s| then
      assert s == s[..i] + [s[i]] + s[i + 1..];
      s[..i] + s[i + 1..]
    else s
  }

  /** Removing the row just appended gives back the list before the append. */
  lemma RemoveUndoesAppend<T>(s: seq<T>, x: T)
    ensures RemoveAt(s + [x], |s|) == s
  {
    assert (s + [x])[..|s|] == s;
  }

  /** The goal-count input: `parseInt(text) || 1`, so `NaN` and 0 both become 1. */
  function GoalsInput(text: string): (g: int)
    ensures g != 0
    ensures ParseInt(text).Some? && ParseInt(text).value != 0 ==> g == ParseInt(text).value
    ensures ParseInt(text).None? || ParseInt(text) == Some(0) ==> g == 1
  {
    var parsed := ParseInt(text);
    if parsed.Some? && parsed.value != 0 then parsed.value else 1
  }

  /** Typing the digits of a non-zero count gives that count back. */
  lemma GoalsInputOfToString(n: int)
    ensures n != 0 ==> GoalsInput(ToString(n)) == n
    ensures GoalsInput(ToString(0)) == 1
  {
    ParseIntOfToString(n);
    ParseIntOfToString(0);
  }

  /** The message a failed player save shows: the server's message, or a generic one. */
  function PlayerErrorText(serverMessage: Option<string>): (t: string)
    ensures t != ""
    ensures serverMessage.Some? && serverMessage.value != "" ==> t == serverMessage.value
    ensures serverMessage.None? || serverMessage.value == "" ==> t == PLAYER_ERROR
  {
    if serverMessage.Some? && serverMessage.value != "" then serverMessage.value else PLAYER_ERROR
  }

  /** The dashboard's form state. */
  class Dashboard {
    var playerForm: PlayerForm
    var matchForm: MatchForm
    var scorerForm: ScorerForm
    var editingPlayerId: Option<Id>
    var editingMatchId: Option<Id>
    var message: string

    constructor ()
      ensures playerForm == EMPTY_PLAYER_FORM && matchForm == EMPTY_MATCH_FORM
      ensures scorerForm == EMPTY_SCORER_FORM
      ensures editingPlayerId == None && editingMatchId == None && message == ""
    {
      playerForm := EMPTY_PLAYER_FORM;
      matchForm := EMPTY_MATCH_FORM;
      scorerForm := EMPTY_SCORER_FORM;
      editingPlayerId := None;
      editingMatchId := None;
      message := "";
    }

    /**
     * `handleAddPlayer`: refused without a request unless the required fields are filled;
     * otherwise a PUT to the edited player or a POST, then the form is reset on success.
     */
    method SavePlayer(outcome: Outcome) returns (request: Option<Request<PlayerForm>>)
      modifies this
      ensures matchForm == old(matchForm) && scorerForm == old(scorerForm)
      ensures editingMatchId == old(editingMatchId)
      ensures !PlayerFilled(old(playerForm)) ==>
                && request == None && message == FILL_REQUIRED
                && playerForm == old(playerForm) && editingPlayerId == old(editingPlayerId)
      ensures PlayerFilled(old(playerForm)) ==>
                request == Some(if old(editingPlayerId).Some?
                                then Put(old(editingPlayerId).value, old(playerForm))
                                else Post(old(playerForm)))
      ensures PlayerFilled(old(playerForm)) && outcome.Saved? ==>
                && message == (if old(editingPlayerId).Some? then PLAYER_UPDATED else PLAYER_ADDED)
                && playerForm == EMPTY_PLAYER_FORM && editingPlayerId == None
      ensures PlayerFilled(old(playerForm)) && outcome.Rejected? ==>
                && message == PlayerErrorText(outcome.serverMessage)
                && playerForm == old(playerForm) && editingPlayerId == old(editingPlayerId)
    {
      if !PlayerFilled(playerForm) {
        message := FILL_REQUIRED;
        return None;
      }
      if editingPlayerId.Some? {
        request := Some(Put(editingPlayerId.value, playerForm));
      } else {
        request := Some(Post(playerForm));
      }
      match outcome {
        case Saved =>
          message := if editingPlayerId.Some? then PLAYER_UPDATED else PLAYER_ADDED;
          editingPlayerId := None;
          playerForm := EMPTY_PLAYER_FORM;
        case Rejected(serverMessage) =>
          message := PlayerErrorText(serverMessage);
      }
    }

    /**
     * `handleAddMatch`: refused without a request unless the required fields are filled;
     * otherwise the normalised payload goes to the edited match or to a new one.
     */
    method SaveMatch(outcome: Outcome) returns (request: Option<Request<MatchPayload>>)
      modifies this
      ensures playerForm == old(playerForm) && editingPlayerId == old(editingPlayerId)
      ensures !MatchFilled(old(matchForm)) ==>
                && request == None && message == FILL_REQUIRED && matchForm == old(matchForm)
                && scorerForm == old(scorerForm) && editingMatchId == old(editingMatchId)
      ensures MatchFilled(old(matchForm)) ==>
                request == Some(if old(editingMatchId).Some?
                                then Put(old(editingMatchId).value, Payload(old(matchForm)))
                                else Post(Payload(old(matchForm))))
      ensures MatchFilled(old(matchForm)) && outcome.Saved? ==>
                && message == (if old(editingMatchId).Some? then MATCH_UPDATED else MATCH_ADDED)
                && matchForm == EMPTY_MATCH_FORM && scorerForm == EMPTY_SCORER_FORM
                && editingMatchId == None
      ensures MatchFilled(old(matchForm)) && outcome.Rejected? ==>
                && message == MATCH_ERROR && matchForm == old(matchForm)
                && scorerForm == old(scorerForm) && editingMatchId == old(editingMatchId)
    {
      if !MatchFilled(matchForm) {
        message := FILL_REQUIRED;
        return None;
      }
      var payload := Payload(matchForm);
      if editingMatchId.Some? {
        request := Some(Put(editingMatchId.value, payload));
      } else {
        request := Some(Post(payload));
      }
      if outcome.Saved? {
        message := if editingMatchId.Some? then MATCH_UPDATED else MATCH_ADDED;
        editingMatchId := None;
        matchForm := EMPTY_MATCH_FORM;
        scorerForm := EMPTY_SCORER_FORM;
      } else {
        message := MATCH_ERROR;
      }
    }

    /** `handleEditMatch`: the stored match fills the form and becomes the one being edited. */
    method EditMatch(m: Doc<Match>, dateText: string)
      modifies this
      ensures matchForm == Loaded(m.rec, dateText) && editingMatchId == Some(m.id)
      ensures playerForm == old(playerForm) && scorerForm == old(scorerForm)
      ensures editingPlayerId == old(editingPlayerId) && message == old(message)
    {
      matchForm := Loaded(m.rec, dateText);
      editingMatchId := Some(m.id);
    }

    /** `addGoalScorer`: refused without a name; otherwise the row goes at the end and the row form resets. */
    method AddGoalScorer()
      modifies this
      ensures playerForm == old(playerForm) && editingPlayerId == old(editingPlayerId)
      ensures editingMatchId == old(editingMatchId)
      ensures old(scorerForm).playerName == "" ==>
                message == ENTER_NAME && matchForm == old(matchForm) && scorerForm == old(scorerForm)
      ensures old(scorerForm).playerName != "" ==>
                && matchForm == old(matchForm).(goalScorers := old(matchForm).goalScorers
                     + [ScorerEntry(None, old(scorerForm).playerName, old(scorerForm).goals, old(scorerForm).team)])
                && scorerForm == EMPTY_SCORER_FORM && message == old(message)
    {
      if scorerForm.playerName == "" {
        message := ENTER_NAME;
        return;
      }
      var row := ScorerEntry(None, scorerForm.playerName, scorerForm.goals, scorerForm.team);
      matchForm := matchForm.(goalScorers := matchForm.goalScorers + [row]);
      scorerForm := EMPTY_SCORER_FORM;
    }

    /** `removeGoalScorer(index)`: exactly that row goes, the others keep their order. */
    method RemoveGoalScorer(index: nat)
      modifies this
      ensures matchForm == old(matchForm).(goalScorers := RemoveAt(old(matchForm).goalScorers, index))
      ensures playerForm == old(playerForm) && scorerForm == old(scorerForm)
      ensures editingPlayerId == old(editingPlayerId) && editingMatchId == old(editingMatchId)
      ensures message == old(message)
    {
      matchForm := matchForm.(goalScorers := RemoveAt(matchForm.goalScorers, index));
    }

    /** The goal-count input's `onChange`. */
    method SetScorerGoals(text: string)
      modifies this
      ensures scorerForm == old(scorerForm).(goals := GoalsInput(text))
      ensures playerForm == old(playerForm) && matchForm == old(matchForm)
      ensures editingPlayerId == old(editingPlayerId) && editingMatchId == old(editingMatchId)
      ensures message == old(message)
    {
      scorerForm := scorerForm.(goals := GoalsInput(text));
    }
  }
}
