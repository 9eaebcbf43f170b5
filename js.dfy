/**
 * The few JavaScript value rules the pages rely on: truthiness, `String(n)` for integers,
 * and `parseInt(s)` with its default radix.
 */
module Js {
  import opened Wrappers
  import opened Schema

  /** A form cell or JSON field as the pages see it. `NaN` and `undefined` are not needed here. */
  datatype Value = Null | Num(n: int) | Str(s: string)

  /** `!!v`: the empty string, zero and null are falsy. */
  predicate Truthy(v: Value) {
    match v
    case Null => false
    case Num(n) => n != 0
    case Str(s) => s != ""
  }

  function DigitChar(d: nat): char
    requires d < 10
  {
    "0123456789"[d]
  }

  /** The decimal digits of `n`, most significant first, with no leading zero. */
  function Decimal(n: nat): (r: string)
    ensures r != [] && IsDigit(r[0])
    ensures forall k :: 0 <= k < |r| ==> IsDigit(r[k])
    ensures |r| > 1 ==> r[0] != '0'
  {
    if n < 10 then [DigitChar(n)] else Decimal(n / 10) + [DigitChar(n % 10)]
  }

  /** `String(n)` for an integer. */
  function ToString(n: int): string {
    if n < 0 then "-" + Decimal(-n) else Decimal(n)
  }

  predicate IsDigit(c: char) {
    '0' <= c <= '9'
  }

  /** The value of `c` read as a digit, when it is one in base 16 or below. */
  function DigitValue(c: char): Option<nat> {
    if '0' <= c <= '9' then Some(c as int - '0' as int)
    else if 'a' <= c <= 'f' then Some(c as int - 'a' as int + 10)
    else if 'A' <= c <= 'F' then Some(c as int - 'A' as int + 10)
    else None
  }

  predicate IsDigitIn(c: char, radix: nat) {
    DigitValue(c).Some? && DigitValue(c).value < radix
  }

  /** The longest prefix of `s` made of digits of `radix`. */
  function LeadingDigits(s: string, radix: nat): (r: string)
    ensures |r| <= |s| && r == s[..|r|]
    ensures forall k :: 0 <= k < |r| ==> IsDigitIn(r[k], radix)
    ensures |r| < |s| ==> !IsDigitIn(s[|r|], radix)
  {
    if s != [] && IsDigitIn(s[0], radix) then [s[0]] + LeadingDigits(s[1..], radix) else []
  }

  /** The number a run of digits denotes in `radix`. */
  function ValueOf(ds: string, radix: nat): int
    requires forall k :: 0 <= k < |ds| ==> IsDigitIn(ds[k], radix)
  {
    if ds == [] then 0
    else
      assert IsDigitIn(ds[|ds| - 1], radix);
      ValueOf(ds[..|ds| - 1], radix) * radix + DigitValue(ds[|ds| - 1]).value
  }

  /** Splits off an optional sign: the multiplier and the rest. */
  function Sign(s: string): (int, string) {
    if s != [] && s[0] == '-' then (-1, s[1..])
    else if s != [] && s[0] == '+' then (1, s[1..])
    else (1, s)
  }

  /** Splits off a `0x` or `0X` prefix: the radix and the rest. */
  function Radix(s: string): (nat, string) {
    if |s| >= 2 && s[0] == '0' && (s[1] == 'x' || s[1] == 'X') then (16, s[2..]) else (10, s)
  }

  /**
   * `parseInt(s)`: leading white space skipped, an optional sign, a `0x` prefix selecting
   * base 16, then the longest run of digits; `None` is `NaN`, when there is no digit at all.
   */
  function ParseInt(s: string): (r: Option<int>)
    ensures r.None? <==> LeadingDigits(Radix(Sign(TrimStart(s)).1).1, Radix(Sign(TrimStart(s)).1).0) == []
  {
    var (sign, unsigned) := Sign(TrimStart(s));
    var (radix, body) := Radix(unsigned);
    var digits := LeadingDigits(body, radix);
    if digits == [] then None else Some(sign * ValueOf(digits, radix))
  }

  lemma {:induction false} DecimalValue(n: nat)
    ensures ValueOf(Decimal(n), 10) == n
  {
    if n >= 10 {
      var d := Decimal(n);
      assert d[..|d| - 1] == Decimal(n / 10);
      DecimalValue(n / 10);
    }
  }

  lemma {:induction false} DigitsAreLeading(ds: string, rest: string)
    requires forall k :: 0 <= k < |ds| ==> IsDigitIn(ds[k], 10)
    requires rest == [] || !IsDigitIn(rest[0], 10)
    ensures LeadingDigits(ds + rest, 10) == ds
  {
    if ds != [] {
      assert (ds + rest)[1..] == ds[1..] + rest;
      DigitsAreLeading(ds[1..], rest);
    } else {
      assert ds + rest == rest;
    }
  }

  /** Reading back what `String(n)` writes gives `n` again. */
  lemma ParseIntOfToString(n: int)
    ensures ParseInt(ToString(n)) == Some(n)
  {
    var m: nat := if n < 0 then -n else n;
    var d := Decimal(m);
    var s := ToString(n);
    assert s != [] && !IsSpace(s[0]);
    assert TrimStart(s) == s;
    assert Sign(s).1 == d;
    assert Radix(d).1 == d;
    assert forall k :: 0 <= k < |d| ==> IsDigitIn(d[k], 10);
    DigitsAreLeading(d, []);
    assert d + [] == d;
    DecimalValue(m);
  }
}
