/** The string operations both report scripts rely on: Python's `str.lower()`, the `in`
    substring test on names, and the text Python writes for an `int` and for a float that
    was rounded to two decimals. */
module Text {
  import opened Wrappers

  // ---------------------------------------------------------------------------
  // Lower case
  // ---------------------------------------------------------------------------

  function LowerChar(c: char): char {
    if 'A' <= c <= 'Z' then (c as int - 'A' as int + 'a' as int) as char else c
  }

  /** `s.lower()`, for the ASCII letters (other characters are kept as they are). */
  function Lower(s: string): (r: string)
    ensures |r| == |s|
    ensures forall i :: 0 <= i < |s| ==> r[i] == LowerChar(s[i])
  {
    seq(|s|, i requires 0 <= i < |s| => LowerChar(s[i]))
  }

  predicate IsLowerCase(s: string) {
    forall c :: c in s ==> !('A' <= c <= 'Z')
  }

  /** Lowering is the identity on a string without upper-case letters, and the result of
      lowering never has one. */
  lemma LowerOfLowerCase(s: string)
    ensures IsLowerCase(Lower(s))
    ensures IsLowerCase(s) ==> Lower(s) == s
  {
    forall c | c in Lower(s) ensures !('A' <= c <= 'Z') {
      var i :| 0 <= i < |s| && Lower(s)[i] == c;
    }
    if IsLowerCase(s) {
      forall i | 0 <= i < |s| ensures Lower(s)[i] == s[i] {
        assert s[i] in s;
      }
    }
  }

  // ---------------------------------------------------------------------------
  // Substrings
  // ---------------------------------------------------------------------------

  /** `p` occurs in `s` starting at index `i`. */
  predicate MatchesAt(s: string, p: string, i: int) {
    0 <= i && i + |p| <= |s| && s[i..i + |p|] == p
  }

  /** Python's `p in s` on two strings. */
  predicate Contains(s: string, p: string) {
    exists i | 0 <= i <= |s| :: MatchesAt(s, p, i)
  }

  /** An occurrence of `p` at `i` fixes the characters of `s` from `i` on. */
  lemma CharAt(s: string, p: string, i: int, j: int)
    requires MatchesAt(s, p, i) && 0 <= j < |p|
    ensures s[i + j] == p[j]
  {
    assert s[i..i + |p|][j] == s[i + j];
  }

  /** Containment is equivalent to the occurrence of `p` as a contiguous block of `s`. */
  lemma {:induction false} ContainsIffSplit(s: string, p: string)
    ensures Contains(s, p) <==> exists u, v :: s == u + p + v
  {
    if Contains(s, p) {
      var i :| 0 <= i <= |s| && MatchesAt(s, p, i);
      assert s == s[..i] + p + s[i + |p|..];
    }
    if u, v :| s == u + p + v {
      assert s[|u|..|u| + |p|] == p;
      assert MatchesAt(s, p, |u|);
    }
  }

  // ---------------------------------------------------------------------------
  // Decimal text of integers
  // ---------------------------------------------------------------------------

  predicate IsDigit(c: char) {
    '0' <= c <= '9'
  }

  predicate IsDigits(s: string) {
    |s| > 0 && forall c :: c in s ==> IsDigit(c)
  }

  function DigitChar(d: nat): char
    requires d < 10
  {
    ('0' as int + d) as char
  }

  function DigitValue(c: char): nat
    requires IsDigit(c)
  {
    c as int - '0' as int
  }

  /** The decimal digits of `n`, most significant first, with no leading zero. */
  function Digits(n: nat): (r: string)
    ensures IsDigits(r)
    ensures r[0] == '0' ==> n == 0
  {
    if n < 10 then [DigitChar(n)] else Digits(n / 10) + [DigitChar(n % 10)]
  }

  /** The number a string of decimal digits denotes. */
  function DigitsValue(s: string): nat
    requires forall c :: c in s ==> IsDigit(c)
  {
    if s == [] then 0 else DigitsValue(s[..|s| - 1]) * 10 + DigitValue(s[|s| - 1])
  }

  /** Reading back the digits of `n` gives `n`. */
  lemma {:induction false} DigitsRoundTrip(n: nat)
    ensures DigitsValue(Digits(n)) == n
  {
    if n >= 10 {
      DigitsRoundTrip(n / 10);
      var s := Digits(n);
      assert s[..|s| - 1] == Digits(n / 10);
    }
  }

  /** `str(n)` for a Python `int`. */
  function IntText(n: int): string {
    if n < 0 then "-" + Digits(-n) else Digits(n)
  }

  /** `int(s)` restricted to the forms `IntText` produces. */
  function ParseInt(s: string): Option<int> {
    if |s| > 0 && s[0] == '-' then
      if IsDigits(s[1..]) then var v: int := DigitsValue(s[1..]); Some(-v) else None
    else if IsDigits(s) then Some(DigitsValue(s))
    else None
  }

  /** `IntText` loses nothing: parsing its text gives the number back. */
  lemma IntTextRoundTrip(n: int)
    ensures ParseInt(IntText(n)) == Some(n)
  {
    var s := IntText(n);
    if n < 0 {
      var m := -n;
      DigitsRoundTrip(m);
      assert s == "-" + Digits(m);
      assert s[1..] == Digits(m);
    } else {
      DigitsRoundTrip(n);
      assert s == Digits(n);
      assert s[0] in Digits(n);
    }
  }

  // ---------------------------------------------------------------------------
  // Decimal text of a value rounded to hundredths
  // ---------------------------------------------------------------------------

  /** The digits after the point for `f` hundredths: one digit when the second is zero. */
  function FractionText(f: nat): string
    requires f < 100
  {
    if f % 10 == 0 then [DigitChar(f / 10)] else [DigitChar(f / 10), DigitChar(f % 10)]
  }

  /** `str(x)` for the float `x` nearest to `h / 100`: the shortest decimal that denotes it,
      with at least one digit after the point ("50.0", "12.5", "33.33", "-0.25"). */
  function HundredthsText(h: int): string {
    if h < 0 then "-" + UnsignedHundredthsText(-h) else UnsignedHundredthsText(h)
  }

  /** The text of `m` hundredths without a sign; it starts with a digit. */
  function UnsignedHundredthsText(m: nat): (r: string)
    ensures |r| > 0 && IsDigit(r[0])
  {
    var w := Digits(m / 100);
    assert w[0] in w;
    w + "." + FractionText(m % 100)
  }

  /** Reads an unsigned decimal with one or two digits after the point, in hundredths. */
  function ParseUnsignedHundredths(s: string): Option<nat> {
    if |s| >= 3 && s[|s| - 2] == '.' && IsDigits(s[..|s| - 2]) && IsDigit(s[|s| - 1]) then
      Some(DigitsValue(s[..|s| - 2]) * 100 + DigitValue(s[|s| - 1]) * 10)
    else if |s| >= 4 && s[|s| - 3] == '.' && IsDigits(s[..|s| - 3])
            && IsDigit(s[|s| - 2]) && IsDigit(s[|s| - 1]) then
      Some(DigitsValue(s[..|s| - 3]) * 100 + DigitValue(s[|s| - 2]) * 10 + DigitValue(s[|s| - 1]))
    else None
  }

  /** Reads a decimal with an optional minus sign, in hundredths. */
  function ParseHundredths(s: string): Option<int> {
    if |s| > 0 && s[0] == '-' then
      match ParseUnsignedHundredths(s[1..])
      case Some(m) => var v: int := m; Some(-v)
      case None => None
    else
      match ParseUnsignedHundredths(s)
      case Some(m) => Some(m)
      case None => None
  }

  lemma UnsignedHundredthsRoundTrip(m: nat)
    ensures ParseUnsignedHundredths(UnsignedHundredthsText(m)) == Some(m)
  {
    DigitsRoundTrip(m / 100);
    FractionRoundTrip(Digits(m / 100), m % 100);
  }

  /** The digits after the point are read back as the hundredths they were written from. */
  lemma FractionRoundTrip(w: string, f: nat)
    requires IsDigits(w) && f < 100
    ensures ParseUnsignedHundredths(w + "." + FractionText(f)) == Some(DigitsValue(w) * 100 + f)
  {
    var s := w + "." + FractionText(f);
    if f % 10 == 0 {
      assert s[..|s| - 2] == w && s[|s| - 2] == '.' && s[|s| - 1] == DigitChar(f / 10);
    } else {
      assert s[..|s| - 3] == w && s[|s| - 3] == '.';
      assert s[|s| - 2] == DigitChar(f / 10) && s[|s| - 1] == DigitChar(f % 10);
    }
  }

  /** The percentage text is read back as the hundredths it was written from. */
  lemma HundredthsTextRoundTrip(h: int)
    ensures ParseHundredths(HundredthsText(h)) == Some(h)
  {
    var m: nat := if h < 0 then -h else h;
    var body := UnsignedHundredthsText(m);
    UnsignedHundredthsRoundTrip(m);
    if h < 0 {
      assert ("-" + body)[1..] == body;
    } else {
      assert body[0] != '-';
    }
  }
}
