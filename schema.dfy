/**
 * The part of the document-store's schema machinery that the four models use:
 * the `trim` setter, and the `required`, `enum`, `min` and `max` validators.
 *
 * A validation failure is reported per path, at most one error per path, with
 * `required` checked before the other validators of that path.
 */
module Schema {
  import opened Wrappers

  datatype Path =
    | Field(name: string)
    | Element(array: string, index: nat, name: string)   // a field of one sub-document, e.g. goalScorers.2.team

  datatype ErrorKind = Required | NotInEnum | BelowMin | AboveMax

  datatype FieldError = FieldError(path: Path, kind: ErrorKind)

  /** The characters that String.prototype.trim removes (white space and line terminators). */
  predicate IsSpace(c: char) {
    || c == ' ' || c == '\t' || c == '\n' || c == '\r' || c == '\U{000B}' || c == '\U{000C}'
    || c == '\U{00A0}' || c == '\U{1680}' || ('\U{2000}' <= c <= '\U{200A}')
    || c == '\U{2028}' || c == '\U{2029}' || c == '\U{202F}' || c == '\U{205F}'
    || c == '\U{3000}' || c == '\U{FEFF}'
  }

  /** `s` with its leading white space removed. */
  function TrimStart(s: string): (r: string)
    ensures |r| <= |s| && r == s[|s| - |r|..]
    ensures forall k :: 0 <= k < |s| - |r| ==> IsSpace(s[k])
    ensures r != [] ==> !IsSpace(r[0])
  {
    if s != [] && IsSpace(s[0]) then TrimStart(s[1..]) else s
  }

  /** `s` with its trailing white space removed. */
  function TrimEnd(s: string): (r: string)
    ensures |r| <= |s| && r == s[..|r|]
    ensures forall k :: |r| <= k < |s| ==> IsSpace(s[k])
    ensures r != [] ==> !IsSpace(r[|r| - 1])
  {
    if s != [] && IsSpace(s[|s| - 1]) then TrimEnd(s[..|s| - 1]) else s
  }

  /** The `trim: true` schema option: leading and trailing white space removed. */
  function Trim(s: string): string {
    TrimEnd(TrimStart(s))
  }

  /** What trim leaves neither starts nor ends with white space. */
  lemma TrimEnds(s: string)
    ensures Trim(s) != [] ==> !IsSpace(Trim(s)[0]) && !IsSpace(Trim(s)[|Trim(s)| - 1])
  {
    var t := TrimStart(s);
    var r := TrimEnd(t);
    if r != [] {
      assert r[0] == t[0];
    }
  }

  /** Trimming twice is trimming once. */
  lemma TrimIdempotent(s: string)
    ensures Trim(Trim(s)) == Trim(s)
  {
    var r := Trim(s);
    TrimEnds(s);
    if r != [] {
      assert TrimStart(r) == r;
      assert TrimEnd(r) == r;
    }
  }

  function TrimOpt(v: Option<string>): Option<string> {
    match v
    case Some(s) => Some(Trim(s))
    case None => None
  }

  /**
   * Whether the `required` validator rejects a value. On insert an absent field fails;
   * an update only validates the paths it sets, so there only an explicitly empty value fails.
   * The validator treats the empty string as missing.
   */
  predicate MissingString(v: Option<string>, creating: bool) {
    if v.None? then creating else v.value == ""
  }

  predicate MissingValue<V>(v: Option<V>, creating: bool) {
    v.None? && creating
  }

  function Report(path: Path, fails: bool, kind: ErrorKind): seq<FieldError> {
    if fails then [FieldError(path, kind)] else []
  }

  /** A required string path. */
  function CheckRequiredString(path: Path, v: Option<string>, creating: bool): seq<FieldError> {
    Report(path, MissingString(v, creating), Required)
  }

  /** A string path restricted to `values`; a required one is checked for presence first. */
  function CheckEnum(path: Path, v: Option<string>, values: seq<string>, required: bool, creating: bool): seq<FieldError> {
    if required && MissingString(v, creating) then [FieldError(path, Required)]
    else Report(path, v.Some? && v.value !in values, NotInEnum)
  }

  /** A number path with optional inclusive bounds. */
  function CheckNumber(path: Path, v: Option<int>, required: bool, creating: bool,
                       min: Option<int>, max: Option<int>): seq<FieldError> {
    if required && MissingValue(v, creating) then [FieldError(path, Required)]
    else if v.Some? && min.Some? && v.value < min.value then [FieldError(path, BelowMin)]
    else Report(path, v.Some? && max.Some? && v.value > max.value, AboveMax)
  }
}
