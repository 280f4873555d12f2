/**
 The parts of JavaScript's string and number behaviour that the formatter
 store relies on: prefix tests, `indexOf`/`replace` of the first occurrence,
 `lastIndexOf`, `substring(0, n)`, ASCII case mapping, `Array.join`,
 `Number(string)` on decimal strings, `String(n)` on naturals, and the
 arithmetic of a JavaScript number (without rounding).
 */
module JsValues {

  datatype Option<+T> = None | Some(value: T)

  // ------------------------------------------------------------------
  // Strings
  // ------------------------------------------------------------------

  predicate StartsWith(s: string, prefix: string) {
    |prefix| <= |s| && s[..|prefix|] == prefix
  }

  /** `pat` occurs in `s` starting at position `i`. */
  predicate OccursAt(s: string, pat: string, i: nat) {
    i + |pat| <= |s| && s[i..i + |pat|] == pat
  }

  predicate NoDuplicates<T(==)>(s: seq<T>) {
    forall i, j :: 0 <= i < j < |s| ==> s[i] != s[j]
  }

  /** The first position at or after `from` where `pat` occurs. */
  function IndexFrom(s: string, pat: string, from: nat): (r: Option<nat>)
    ensures r.Some? ==> from <= r.value && OccursAt(s, pat, r.value)
    ensures r.Some? ==> forall j :: from <= j < r.value ==> !OccursAt(s, pat, j)
    ensures r.None? ==> forall j: nat :: from <= j ==> !OccursAt(s, pat, j)
    decreases |s| - from
  {
    if |s| < from + |pat| then None
    else if OccursAt(s, pat, from) then Some(from)
    else IndexFrom(s, pat, from + 1)
  }

  /** `s.indexOf(pat)`, with -1 written as None. */
  function IndexOf(s: string, pat: string): Option<nat> {
    IndexFrom(s, pat, 0)
  }

  /** `s.replace(pat, rep)` with a string pattern: only the first occurrence is replaced. */
  function ReplaceFirst(s: string, pat: string, rep: string): string {
    match IndexOf(s, pat)
    case None => s
    case Some(i) => s[..i] + rep + s[i + |pat|..]
  }

  /** `replace` leaves a string alone when the pattern's first character does not occur in it. */
  lemma ReplaceFirstWithoutMatch(s: string, pat: string, rep: string)
    requires pat != "" && pat[0] !in s
    ensures ReplaceFirst(s, pat, rep) == s
  {
    forall j: nat ensures !OccursAt(s, pat, j) {
      if j + |pat| <= |s| {
        assert s[j..j + |pat|][0] == s[j];
      }
    }
  }

  /** Removing a prefix with `replace` is the same as dropping it. */
  lemma ReplaceLeadingPrefix(s: string, prefix: string)
    requires StartsWith(s, prefix)
    ensures ReplaceFirst(s, prefix, "") == s[|prefix|..]
  {
    assert OccursAt(s, prefix, 0);
  }

  /** `s.lastIndexOf(c)`: -1 when `c` does not occur. */
  function LastIndexOf(s: string, c: char): (r: int)
    ensures -1 <= r < |s|
    ensures r >= 0 ==> s[r] == c
    ensures forall j :: r < j < |s| ==> s[j] != c
    decreases |s|
  {
    if s == [] then -1
    else if s[|s| - 1] == c then |s| - 1
    else LastIndexOf(s[..|s| - 1], c)
  }

  /** `s.substring(0, n)`. */
  function Take(s: string, n: nat): (r: string)
    ensures |r| == (if |s| <= n then |s| else n) && r <= s
  {
    if |s| <= n then s else s[..n]
  }

  function UpperChar(c: char): char {
    if 'a' <= c <= 'z' then (c as int - 'a' as int + 'A' as int) as char else c
  }

  function LowerChar(c: char): char {
    if 'A' <= c <= 'Z' then (c as int - 'A' as int + 'a' as int) as char else c
  }

  /** `s.toUpperCase()` on ASCII letters. */
  function Upper(s: string): (r: string)
    ensures |r| == |s|
  {
    seq(|s|, i requires 0 <= i < |s| => UpperChar(s[i]))
  }

  /** `s.toLowerCase()` on ASCII letters. */
  function Lower(s: string): (r: string)
    ensures |r| == |s|
  {
    seq(|s|, i requires 0 <= i < |s| => LowerChar(s[i]))
  }

  /** `parts.join(sep)`. */
  function Join(parts: seq<string>, sep: string): string
    decreases |parts|
  {
    if |parts| == 0 then ""
    else if |parts| == 1 then parts[0]
    else Join(parts[..|parts| - 1], sep) + sep + parts[|parts| - 1]
  }

  /** A join of pieces that are each non-empty is empty exactly when there are no pieces. */
  lemma {:induction false} JoinEmpty(parts: seq<string>, sep: string)
    requires forall i :: 0 <= i < |parts| ==> parts[i] != ""
    ensures Join(parts, sep) == "" <==> parts == []
  {
    if |parts| > 1 {
      var last := parts[|parts| - 1];
      assert |last| > 0;
      assert |Join(parts, sep)| >= |last|;
    }
  }

  // ------------------------------------------------------------------
  // Decimal digits
  // ------------------------------------------------------------------

  predicate IsDigit(c: char) { '0' <= c <= '9' }

  predicate AllDigits(s: string) {
    forall i :: 0 <= i < |s| ==> IsDigit(s[i])
  }

  function DigitValue(c: char): nat
    requires IsDigit(c)
  {
    c as int - '0' as int
  }

  function DigitChar(d: nat): (c: char)
    requires d < 10
    ensures IsDigit(c) && DigitValue(c) == d
  {
    ('0' as int + d) as char
  }

  /** The value of a string of decimal digits ("" is 0). */
  function DigitsValue(s: string): nat
    requires AllDigits(s)
    decreases |s|
  {
    if s == [] then 0 else 10 * DigitsValue(s[..|s| - 1]) + DigitValue(s[|s| - 1])
  }

  /** `String(n)` for a natural number. */
  function NatToString(n: nat): (r: string)
    ensures r != "" && AllDigits(r)
    ensures r[0] == '0' <==> n == 0
    ensures n == 0 ==> r == "0"
    decreases n
  {
    if n < 10 then [DigitChar(n)] else NatToString(n / 10) + [DigitChar(n % 10)]
  }

  lemma {:induction false} NatToStringValue(n: nat)
    ensures DigitsValue(NatToString(n)) == n
    decreases n
  {
    var s := NatToString(n);
    if n >= 10 {
      NatToStringValue(n / 10);
      assert s[..|s| - 1] == NatToString(n / 10);
    }
  }

  // ------------------------------------------------------------------
  // Numbers
  // ------------------------------------------------------------------

  /** A JavaScript number: its value is kept exact (no floating-point rounding, no signed zero). */
  datatype Num = Finite(v: real) | PosInf | NegInf | NaN

  function Pow10(e: nat): (r: real)
    ensures r >= 1.0
  {
    if e == 0 then 1.0 else 10.0 * Pow10(e - 1)
  }

  /** `x < t` for a finite threshold `t` (false for NaN). */
  predicate LessThan(x: Num, t: real) {
    (x.Finite? && x.v < t) || x.NegInf?
  }

  /** `x > t` for a finite threshold `t` (false for NaN). */
  predicate GreaterThan(x: Num, t: real) {
    (x.Finite? && x.v > t) || x.PosInf?
  }

  /** `x / d` for a finite divisor `d`, a zero divisor taken as +0. */
  function DivBy(x: Num, d: real): Num {
    match x
    case Finite(a) =>
      if d != 0.0 then Finite(a / d)
      else if a == 0.0 then NaN
      else if a > 0.0 then PosInf
      else NegInf
    case PosInf => if d < 0.0 then NegInf else PosInf
    case NegInf => if d < 0.0 then PosInf else NegInf
    case NaN => NaN
  }

  /** `x / y` for two JavaScript numbers. */
  function Quotient(x: Num, y: Num): Num {
    match y
    case Finite(d) => DivBy(x, d)
    case NaN => NaN
    case _ => if x.Finite? then Finite(0.0) else NaN
  }

  /** Dividing by a positive scale and multiplying back recovers a finite number. */
  lemma DivByRoundTrip(x: Num, d: real)
    requires d > 0.0
    ensures x.Finite? ==> DivBy(x, d).Finite? && DivBy(x, d).v * d == x.v
    ensures x.NaN? <==> DivBy(x, d).NaN?
    ensures x.Finite? && x.v >= 0.0 ==> DivBy(x, d).v >= 0.0
  {
    if x.Finite? {
      calc {
        (x.v / d) * d;
        x.v * (d / d);
        x.v;
      }
    }
  }

  /** `x * m` for a finite factor `m`. */
  function Times(x: Num, m: real): Num {
    match x
    case Finite(a) => Finite(a * m)
    case PosInf => if m > 0.0 then PosInf else if m < 0.0 then NegInf else NaN
    case NegInf => if m > 0.0 then NegInf else if m < 0.0 then PosInf else NaN
    case NaN => NaN
  }

  /**
   `Number(s)` for the amount strings of coins: "" is 0, a run of digits with
   at most one '.' (and at least one digit) is its exact decimal value, and
   anything else is NaN.
   */
  function ParseNumber(s: string): (r: Num)
    ensures r.Finite? || r.NaN?
    ensures r.Finite? ==> r.v >= 0.0
    ensures AllDigits(s) ==> r == Finite(DigitsValue(s) as real)
  {
    if s == "" then Finite(0.0)
    else match IndexOf(s, ".")
      case None => if AllDigits(s) then Finite(DigitsValue(s) as real) else NaN
      case Some(i) =>
        assert s[i..i + 1][0] == s[i];
        var whole, frac := s[..i], s[i + 1..];
        if AllDigits(whole) && AllDigits(frac) && |whole| + |frac| > 0
        then Finite(DigitsValue(whole) as real + DigitsValue(frac) as real / Pow10(|frac|))
        else NaN
  }

  /** A string `Number` reads as a finite amount: empty, digits, or digits around one '.' with at least one digit. */
  predicate DecimalAmount(s: string) {
    s == "" || AllDigits(s)
    || (exists i :: 0 <= i < |s| && s[i] == '.' && AllDigits(s[..i]) && AllDigits(s[i + 1..]) && |s| > 1)
  }

  /** A '.' preceded only by digits is the first '.' of the string. */
  lemma FirstDot(s: string, i: nat)
    requires i < |s| && s[i] == '.' && AllDigits(s[..i])
    ensures IndexOf(s, ".") == Some(i)
  {
    assert s[i..i + 1] == [s[i]];
    assert OccursAt(s, ".", i);
    forall j | 0 <= j < i ensures !OccursAt(s, ".", j) {
      assert s[..i][j] == s[j];
      assert j + 1 <= |s| ==> s[j..j + 1][0] == s[j];
    }
  }

  /** A string whose first '.' has digit runs on both sides reads as whole part plus fraction. */
  lemma ParseAtFirstDot(s: string, i: nat)
    requires i < |s| && IndexOf(s, ".") == Some(i) && |s| > 1
    requires AllDigits(s[..i]) && AllDigits(s[i + 1..])
    ensures ParseNumber(s) == Finite(DigitsValue(s[..i]) as real + DigitsValue(s[i + 1..]) as real / Pow10(|s[i + 1..]|))
  {
    assert s != "";
  }

  /** A string that splits at a '.' into two digit runs, not both empty, reads as their decimal value. */
  lemma ParseSplit(s: string, w: string, f: string)
    requires |s| == |w| + 1 + |f| && s[..|w|] == w && s[|w|] == '.' && s[|w| + 1..] == f
    requires AllDigits(w) && AllDigits(f) && |w| + |f| > 0
    ensures ParseNumber(s) == Finite(DigitsValue(w) as real + DigitsValue(f) as real / Pow10(|f|))
  {
    FirstDot(s, |w|);
    ParseAtFirstDot(s, |w|);
  }

  /** `Number(w + "." + f)` is the decimal value of the two digit runs. */
  lemma ParseDecimal(w: string, f: string)
    requires AllDigits(w) && AllDigits(f) && |w| + |f| > 0
    ensures ParseNumber(w + "." + f) == Finite(DigitsValue(w) as real + DigitsValue(f) as real / Pow10(|f|))
  {
    var s := w + "." + f;
    assert s[..|w|] == w;
    assert s[|w| + 1..] == f;
    assert s[|w|] == '.';
    ParseSplit(s, w, f);
  }

  /** `Number` gives a finite value exactly for a decimal amount string, NaN for every other string. */
  lemma ParseNumberFiniteIff(s: string)
    ensures ParseNumber(s).Finite? <==> DecimalAmount(s)
    ensures !DecimalAmount(s) ==> ParseNumber(s).NaN?
  {
    if s != "" && !AllDigits(s) {
      match IndexOf(s, ".")
      case None =>
        if DecimalAmount(s) {
          var i :| 0 <= i < |s| && s[i] == '.' && AllDigits(s[..i]) && AllDigits(s[i + 1..]) && |s| > 1;
          FirstDot(s, i);
        }
      case Some(i) =>
        assert s[i..i + 1][0] == s[i];
        if DecimalAmount(s) {
          var k :| 0 <= k < |s| && s[k] == '.' && AllDigits(s[..k]) && AllDigits(s[k + 1..]) && |s| > 1;
          FirstDot(s, k);
        }
    }
  }

  /** `Number(String(n)) == n`: rendering a count and parsing it back gives the count. */
  lemma NatToStringRoundTrip(n: nat)
    ensures ParseNumber(NatToString(n)) == Finite(n as real)
  {
    NatToStringValue(n);
  }
}
