/** The player schema: required fields, the position enum, the 1..99 shirt number, defaults and trimming. */
module PlayerModel {
  import opened Wrappers
  import opened Schema

  datatype Position = Goalkeeper | Defender | Midfielder | Forward

  const POSITION_NAMES: seq<string> := ["Goalkeeper", "Defender", "Midfielder", "Forward"]

  function PositionName(p: Position): (s: string)
    ensures s in POSITION_NAMES
    ensures ParsePosition(s) == Some(p)
  {
    match p
    case Goalkeeper => "Goalkeeper"
    case Defender => "Defender"
    case Midfielder => "Midfielder"
    case Forward => "Forward"
  }

  function ParsePosition(s: string): (r: Option<Position>)
    ensures r.Some? <==> s in POSITION_NAMES
  {
    if s == "Goalkeeper" then Some(Goalkeeper)
    else if s == "Defender" then Some(Defender)
    else if s == "Midfielder" then Some(Midfielder)
    else if s == "Forward" then Some(Forward)
    else None
  }

  /** A valid position name parses back to the position it names. */
  lemma ParseNamesPosition(s: string)
    ensures s in POSITION_NAMES ==> PositionName(ParsePosition(s).value) == s
  {
  }

  const MIN_NUMBER: int := 1
  const MAX_NUMBER: int := 99

  datatype Player = Player(
    name: string, position: Position, number: int, age: int, nationality: string,
    goals: int, assists: int, image: string, bio: string, createdAt: int)

  /** A request body as the schema sees it: each path absent or given (numbers after casting). */
  datatype PlayerInput = PlayerInput(
    name: Option<string>, position: Option<string>, number: Option<int>, age: Option<int>,
    nationality: Option<string>, goals: Option<int>, assists: Option<int>,
    image: Option<string>, bio: Option<string>)

  /** What every stored player satisfies. Only the shirt number is bounded. */
  predicate Valid(p: Player) {
    && p.name != "" && Trim(p.name) == p.name
    && MIN_NUMBER <= p.number <= MAX_NUMBER
    && p.nationality != ""
  }

  /** The validation errors of an insert (`creating`) or of an update's set paths, in schema order. */
  function Errors(b: PlayerInput, creating: bool): seq<FieldError> {
    CheckRequiredString(Field("name"), TrimOpt(b.name), creating)
    + CheckEnum(Field("position"), b.position, POSITION_NAMES, true, creating)
    + CheckNumber(Field("number"), b.number, true, creating, Some(MIN_NUMBER), Some(MAX_NUMBER))
    + CheckNumber(Field("age"), b.age, true, creating, None, None)
    + CheckRequiredString(Field("nationality"), b.nationality, creating)
  }

  /** The rules the validators enforce, path by path; an update is only held to the paths it sets. */
  predicate Acceptable(b: PlayerInput, creating: bool) {
    && (if b.name.None? then !creating else Trim(b.name.value) != "")
    && (if b.position.None? then !creating else b.position.value in POSITION_NAMES)
    && (if b.number.None? then !creating else MIN_NUMBER <= b.number.value <= MAX_NUMBER)
    && (b.age.None? ==> !creating)
    && (if b.nationality.None? then !creating else b.nationality.value != "")
  }

  lemma ErrorsMatchRules(b: PlayerInput, creating: bool)
    ensures Errors(b, creating) == [] <==> Acceptable(b, creating)
    ensures b.number.Some? && b.number.value > MAX_NUMBER ==>
              FieldError(Field("number"), AboveMax) in Errors(b, creating)
    ensures b.number.Some? && b.number.value < MIN_NUMBER ==>
              FieldError(Field("number"), BelowMin) in Errors(b, creating)
  {
    var e1 := CheckRequiredString(Field("name"), TrimOpt(b.name), creating);
    var e2 := CheckEnum(Field("position"), b.position, POSITION_NAMES, true, creating);
    var e3 := CheckNumber(Field("number"), b.number, true, creating, Some(MIN_NUMBER), Some(MAX_NUMBER));
    var e4 := CheckNumber(Field("age"), b.age, true, creating, None, None);
    var e5 := CheckRequiredString(Field("nationality"), b.nationality, creating);
    assert Errors(b, creating) == e1 + e2 + e3 + e4 + e5;
    assert e3 == [] ==> Errors(b, creating) == e1 + e2 + e4 + e5;
    assert e3 != [] ==> e3[0] in Errors(b, creating);
  }

  /** The document `create` builds from a body, or the validation errors that make it throw. */
  function New(b: PlayerInput, now: int): (r: Result<Player, seq<FieldError>>)
    ensures r.Success? <==>
              && b.name.Some? && Trim(b.name.value) != ""
              && b.position.Some? && b.position.value in POSITION_NAMES
              && b.number.Some? && MIN_NUMBER <= b.number.value <= MAX_NUMBER
              && b.age.Some?
              && b.nationality.Some? && b.nationality.value != ""
    ensures r.Failure? ==> r.error != []
    ensures r.Failure? && b.number.Some? && b.number.value > MAX_NUMBER ==>
              FieldError(Field("number"), AboveMax) in r.error
    ensures r.Failure? && b.number.Some? && b.number.value < MIN_NUMBER ==>
              FieldError(Field("number"), BelowMin) in r.error
    ensures r.Success? ==> Valid(r.value)
    ensures r.Success? ==>
              var p := r.value;
              && p.name == Trim(b.name.value) && PositionName(p.position) == b.position.value
              && p.number == b.number.value && p.age == b.age.value
              && p.nationality == b.nationality.value
              && p.goals == b.goals.GetOr(0) && p.assists == b.assists.GetOr(0)
              && p.image == b.image.GetOr("") && p.bio == b.bio.GetOr("")
              && p.createdAt == now
  {
    var errs := Errors(b, true);
    ErrorsMatchRules(b, true);
    if errs != [] then Failure(errs)
    else
      TrimIdempotent(b.name.value);
      Success(Player(Trim(b.name.value), ParsePosition(b.position.value).value, b.number.value,
                     b.age.value, b.nationality.value, b.goals.GetOr(0), b.assists.GetOr(0),
                     b.image.GetOr(""), b.bio.GetOr(""), now))
  }

  /** When an update's set paths all pass their validators. */
  predicate UpdateAccepted(u: PlayerInput) {
    Errors(u, false) == []
  }

  /**
   * The `$set` of an update: given paths replaced (the name trimmed), the rest kept.
   * Only accepted updates are ever applied, and in those a given position is a valid name.
   */
  function Merge(p: Player, u: PlayerInput): (r: Player)
    ensures r.createdAt == p.createdAt
    ensures r.name == if u.name.Some? then Trim(u.name.value) else p.name
    ensures u.position.None? ==> r.position == p.position
    ensures u.position.Some? && u.position.value in POSITION_NAMES ==>
              PositionName(r.position) == u.position.value
    ensures r.number == u.number.GetOr(p.number) && r.age == u.age.GetOr(p.age)
    ensures r.nationality == u.nationality.GetOr(p.nationality)
    ensures r.goals == u.goals.GetOr(p.goals) && r.assists == u.assists.GetOr(p.assists)
    ensures r.image == u.image.GetOr(p.image) && r.bio == u.bio.GetOr(p.bio)
  {
    ParseNamesPosition(u.position.GetOr(""));
    Player(
      if u.name.Some? then Trim(u.name.value) else p.name,
      if u.position.Some? then ParsePosition(u.position.value).GetOr(p.position) else p.position,
      u.number.GetOr(p.number), u.age.GetOr(p.age), u.nationality.GetOr(p.nationality),
      u.goals.GetOr(p.goals), u.assists.GetOr(p.assists), u.image.GetOr(p.image), u.bio.GetOr(p.bio),
      p.createdAt)
  }

  /** An accepted update keeps a stored player valid. */
  lemma MergeKeepsValid(p: Player, u: PlayerInput)
    requires UpdateAccepted(u) && Valid(p)
    ensures Valid(Merge(p, u))
  {
    ErrorsMatchRules(u, false);
    if u.name.Some? { TrimIdempotent(u.name.value); }
  }

  const NO_CHANGE: PlayerInput := PlayerInput(None, None, None, None, None, None, None, None, None)

  /** An empty body changes nothing, and applying the same update twice is applying it once. */
  lemma MergeLaws(p: Player, u: PlayerInput)
    ensures Merge(p, NO_CHANGE) == p
    ensures Merge(Merge(p, u), u) == Merge(p, u)
  {
    if u.name.Some? { TrimIdempotent(u.name.value); }
  }
}
