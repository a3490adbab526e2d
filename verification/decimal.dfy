/** Decimal rendering of natural numbers: zero-padded fields as `strftime` writes them
    (`%Y`, `%m`, `%d`) and plain `str(n)` as an f-string writes it, each paired with the
    parser that reads the digits back. */
module Decimal {

  predicate IsDigit(c: char) {
    '0' <= c <= '9'
  }

  predicate AllDigits(s: string) {
    forall k | 0 <= k < |s| :: IsDigit(s[k])
  }

  function DigitChar(d: nat): (c: char)
    requires d < 10
    ensures IsDigit(c)
  {
    ('0' as int + d) as char
  }

  function DigitValue(c: char): (d: nat)
    requires IsDigit(c)
    ensures d < 10
  {
    c as int - '0' as int
  }

  function Pow10(w: nat): (p: nat)
    ensures p >= 1
  {
    if w == 0 then 1 else 10 * Pow10(w - 1)
  }

  /** `n` written with exactly `width` digits, most significant first, padded with '0'. */
  function PadDigits(n: nat, width: nat): (r: string)
    requires n < Pow10(width)
    ensures |r| == width && AllDigits(r)
  {
    if width == 0 then [] else PadDigits(n / 10, width - 1) + [DigitChar(n % 10)]
  }

  /** The value of a string of decimal digits (`int(s)` for digit strings, 0 when empty). */
  function ParseDigits(s: string): nat
    requires AllDigits(s)
  {
    if s == [] then 0 else 10 * ParseDigits(s[..|s| - 1]) + DigitValue(s[|s| - 1])
  }

  /** Reading a padded field back yields the number that was written. */
  lemma {:induction false} ParsePadDigits(n: nat, width: nat)
    requires n < Pow10(width)
    ensures ParseDigits(PadDigits(n, width)) == n
  {
    if width > 0 {
      var r := PadDigits(n, width);
      assert r[..|r| - 1] == PadDigits(n / 10, width - 1);
      ParsePadDigits(n / 10, width - 1);
    }
  }

  /** Number of digits `str(n)` prints. */
  function DigitCount(n: nat): (w: nat)
    ensures 1 <= w && n < Pow10(w)
    ensures w > 1 ==> Pow10(w - 1) <= n
  {
    if n < 10 then 1 else 1 + DigitCount(n / 10)
  }

  /** `str(n)`: no leading zero except for `0` itself. */
  function NatToString(n: nat): (r: string)
    ensures |r| >= 1 && AllDigits(r)
    ensures |r| > 1 ==> r[0] != '0'
  {
    var w := DigitCount(n);
    if w > 1 then
      LeadingDigit(n, w);
      PadDigits(n, w)
    else
      PadDigits(n, w)
  }

  /** The first padded digit is nonzero when the number needs all `width` digits. */
  lemma {:induction false} LeadingDigit(n: nat, width: nat)
    requires n < Pow10(width)
    requires width > 1 && Pow10(width - 1) <= n
    ensures PadDigits(n, width)[0] != '0'
  {
    if width > 2 {
      LeadingDigit(n / 10, width - 1);
    } else {
      assert PadDigits(n, width)[0] == PadDigits(n / 10, 1)[0];
      assert PadDigits(n / 10, 1) == [] + [DigitChar(n / 10)];
    }
  }

  lemma ParseNatToString(n: nat)
    ensures ParseDigits(NatToString(n)) == n
  {
    ParsePadDigits(n, DigitCount(n));
  }

  /** A digit character is the character of its value. */
  lemma DigitRoundTrip(c: char)
    requires IsDigit(c)
    ensures DigitChar(DigitValue(c)) == c
  {
  }

  /** One digit, or two without a leading zero, is exactly how `str` writes the value
      they spell. */
  lemma ShortDigitsAreStr(x: string)
    requires 1 <= |x| <= 2 && AllDigits(x)
    requires |x| == 2 ==> x[0] != '0'
    ensures NatToString(ParseDigits(x)) == x
  {
    if |x| == 1 {
      OneDigitIsStr(x);
    } else {
      TwoDigitsAreStr(x);
    }
  }

  lemma OneDigitIsStr(x: string)
    requires |x| == 1 && IsDigit(x[0])
    ensures NatToString(ParseDigits(x)) == x
  {
    var v := DigitValue(x[0]);
    assert ParseDigits(x) == v by {
      assert x[..0] == [];
    }
    assert DigitCount(v) == 1;
    assert v / 10 == 0 && v % 10 == v;
    assert PadDigits(v, 1) == PadDigits(0, 0) + [DigitChar(v)];
    DigitRoundTrip(x[0]);
    assert [DigitChar(v)] == x;
  }

  lemma TwoDigitsAreStr(x: string)
    requires |x| == 2 && IsDigit(x[0]) && IsDigit(x[1]) && x[0] != '0'
    ensures NatToString(ParseDigits(x)) == x
  {
    DigitRoundTrip(x[0]);
    DigitRoundTrip(x[1]);
    var hi := x[..1];
    assert ParseDigits(hi) == DigitValue(x[0]) by {
      assert hi[..0] == [] && hi[0] == x[0];
    }
    assert x[..|x| - 1] == hi;
    var v := ParseDigits(x);
    assert v == 10 * DigitValue(x[0]) + DigitValue(x[1]);
    assert v / 10 == DigitValue(x[0]) && v % 10 == DigitValue(x[1]);
    assert DigitCount(v / 10) == 1;
    assert PadDigits(v / 10, 1) == PadDigits(0, 0) + [x[0]];
    assert PadDigits(v, 2) == [x[0]] + [x[1]];
  }
}
