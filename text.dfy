/**
 * The string operations of the JavaScript host that the ordering core relies on:
 * `String.prototype.trim` (form fields), the decimal rendering of a non-negative
 * integer (`'ORD' + Date.now()`, `'C' + Date.now()`) and zero padding (ISO dates).
 */
module Text {

  /** ECMAScript WhiteSpace and LineTerminator code points: the characters `trim` removes. */
  predicate IsSpace(c: char)
  {
    || c == '\t' || c == '\n' || c == '\U{000B}' || c == '\U{000C}' || c == '\r'
    || c == ' ' || c == '\U{00A0}' || c == '\U{1680}'
    || ('\U{2000}' <= c <= '\U{200A}')
    || c == '\U{2028}' || c == '\U{2029}' || c == '\U{202F}' || c == '\U{205F}'
    || c == '\U{3000}' || c == '\U{FEFF}'
  }

  /** Every character of `s` from index `lo` up to (not including) `hi` is white space. */
  predicate BlankBetween(s: string, lo: int, hi: int)
    requires 0 <= lo <= hi <= |s|
  {
    forall i :: lo <= i < hi ==> IsSpace(s[i])
  }

  /** True when every character of `s` is white space (the empty string included). */
  predicate IsBlank(s: string)
  {
    BlankBetween(s, 0, |s|)
  }

  /** The first index at or after `i` that does not hold white space. */
  function SkipSpace(s: string, i: nat): (j: nat)
    requires i <= |s|
    ensures i <= j <= |s| && BlankBetween(s, i, j)
    ensures j == |s| || !IsSpace(s[j])
    decreases |s| - i
  {
    if i < |s| && IsSpace(s[i]) then SkipSpace(s, i + 1) else i
  }

  /** The smallest index, not below `lo`, from which on up to `j` there is only white space. */
  function SkipSpaceBack(s: string, lo: nat, j: nat): (i: nat)
    requires lo <= j <= |s|
    ensures lo <= i <= j && BlankBetween(s, i, j)
    ensures i == lo || !IsSpace(s[i - 1])
  {
    if lo < j && IsSpace(s[j - 1]) then SkipSpaceBack(s, lo, j - 1) else j
  }

  /** How many white-space characters `s` starts with. */
  function LeadingSpace(s: string): (n: nat)
    ensures n <= |s|
  {
    SkipSpace(s, 0)
  }

  /**
   * `String.prototype.trim`: `s` with white space removed from both ends. The
   * result is the slice of `s` after its leading white space, everything after
   * the slice is white space, the slice neither starts nor ends with white
   * space, and it is empty exactly when `s` is blank.
   */
  function Trim(s: string): (r: string)
    ensures r == [] || (!IsSpace(r[0]) && !IsSpace(r[|r| - 1]))
    ensures var a := LeadingSpace(s);
      && a + |r| <= |s| && r == s[a..a + |r|]
      && BlankBetween(s, 0, a) && BlankBetween(s, a + |r|, |s|)
    ensures r == [] <==> IsBlank(s)
  {
    var a := SkipSpace(s, 0);
    var b := SkipSpaceBack(s, a, |s|);
    assert a == b ==> IsBlank(s);
    s[a..b]
  }

  /** Trimming twice is trimming once. */
  lemma TrimIdempotent(s: string)
    ensures Trim(Trim(s)) == Trim(s)
  {
    var r := Trim(s);
    if r != [] {
      assert SkipSpace(r, 0) == 0;
      assert SkipSpaceBack(r, 0, |r|) == |r|;
    }
  }

  /** The decimal digit character for `d`. */
  function Digit(d: nat): (c: char)
    requires d < 10
    ensures '0' <= c <= '9'
  {
    ('0' as int + d) as char
  }

  predicate IsDigits(s: string)
  {
    forall i :: 0 <= i < |s| ==> '0' <= s[i] <= '9'
  }

  /**
   * JavaScript's `String(n)` for a non-negative integer below 10^21 (where
   * `Date.now()` values lie): decimal digits without leading zeros.
   */
  function Decimal(n: nat): (s: string)
    ensures |s| >= 1 && IsDigits(s)
    ensures s[0] == '0' <==> n == 0
  {
    if n < 10 then [Digit(n)] else Decimal(n / 10) + [Digit(n % 10)]
  }

  /** The number a string of decimal digits denotes: the reference reading of `Decimal`. */
  function DigitsValue(s: string): nat
    requires IsDigits(s)
  {
    if s == [] then 0 else DigitsValue(s[..|s| - 1]) * 10 + (s[|s| - 1] as int - '0' as int)
  }

  /** Reading back the decimal rendering of `n` gives `n`. */
  lemma {:induction false} DecimalRoundTrip(n: nat)
    ensures DigitsValue(Decimal(n)) == n
  {
    if n >= 10 {
      DecimalRoundTrip(n / 10);
      var s := Decimal(n);
      assert s[..|s| - 1] == Decimal(n / 10);
    }
  }

  /** Distinct numbers render as distinct strings, and so do any prefix followed by them. */
  lemma DecimalInjective(prefix: string, a: nat, b: nat)
    requires prefix + Decimal(a) == prefix + Decimal(b)
    ensures a == b
  {
    assert Decimal(a) == (prefix + Decimal(a))[|prefix|..];
    assert Decimal(b) == (prefix + Decimal(b))[|prefix|..];
    DecimalRoundTrip(a);
    DecimalRoundTrip(b);
  }

  /** `s.padStart(width, '0')`: `s` preceded by as many zeros as it takes to reach `width`. */
  function PadZero(s: string, width: nat): (r: string)
    ensures |r| == if |s| < width then width else |s|
    decreases width - |s|
  {
    if |s| < width then PadZero("0" + s, width) else s
  }

  /** The padded string ends with `s` and everything before it is a zero. */
  lemma {:induction false} PadZeroSpec(s: string, width: nat)
    ensures var r := PadZero(s, width);
      r[|r| - |s|..] == s && forall i :: 0 <= i < |r| - |s| ==> r[i] == '0'
    decreases width - |s|
  {
    if |s| < width {
      PadZeroSpec("0" + s, width);
      var r, t := PadZero("0" + s, width), "0" + s;
      assert r[|r| - |t|..] == t;
      assert r[|r| - |s|..] == t[1..] == s;
      assert r[|r| - |t|] == t[0] == '0';
    }
  }

  /** Ten to the power `w`. */
  function Pow10(w: nat): (p: nat)
    ensures p >= 1
  {
    if w == 0 then 1 else 10 * Pow10(w - 1)
  }

  /** A number below 10^w has at most `w` digits (and at least one). */
  lemma {:induction false} DecimalBelow(n: nat, w: nat)
    requires n < Pow10(w)
    ensures |Decimal(n)| <= if w == 0 then 1 else w
  {
    if n >= 10 {
      DecimalBelow(n / 10, w - 1);
    }
  }
}
