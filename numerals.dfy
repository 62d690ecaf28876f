/**
 * Rendering numbers as text the way Python does (`str(n)`, `%02d`, `%04d`,
 * `%032x`) and reading such text back.
 */
module Numerals {
  import opened Wrappers

  /** A digit value below 16 as a lower-case hexadecimal character. */
  function DigitChar(d: nat): (c: char)
    requires d < 16
  {
    "0123456789abcdef"[d]
  }

  /** The value of a lower-case hexadecimal digit character; 16 for any other character. */
  function DigitOf(c: char): (d: nat)
    ensures d <= 16
    ensures d < 10 <==> '0' <= c <= '9'
  {
    if '0' <= c <= '9' then c as int - '0' as int
    else if 'a' <= c <= 'f' then c as int - 'a' as int + 10
    else 16
  }

  lemma DigitRoundTrip(d: nat)
    requires d < 16
    ensures DigitOf(DigitChar(d)) == d
  {
  }

  function Pow(base: nat, n: nat): (p: nat)
    ensures base >= 1 ==> p >= 1
  {
    if n == 0 then 1 else base * Pow(base, n - 1)
  }

  /** The value of a digit string in the given base, most significant digit first. */
  function ValueOf(s: string, base: nat): (v: nat) {
    if s == [] then 0
    else ValueOf(s[..|s| - 1], base) * base + (if DigitOf(s[|s| - 1]) < base then DigitOf(s[|s| - 1]) else 0)
  }

  predicate AllDigitsIn(s: string, base: nat) {
    forall i :: 0 <= i < |s| ==> DigitOf(s[i]) < base
  }

  /** Reads back a digit string; fails on the empty string and on a character outside the base. */
  function ParseDigits(s: string, base: nat): (r: Option<nat>)
    ensures r.Some? <==> s != [] && AllDigitsIn(s, base)
  {
    if s != [] && AllDigitsIn(s, base) then Some(ValueOf(s, base)) else None
  }

  /**
   * The `width` least significant digits of `n`, zero-padded on the left:
   * `%0<width>d` for base 10 and `%0<width>x` for base 16 when `n` fits.
   */
  function FixedWidth(n: nat, base: nat, width: nat): (s: string)
    requires 2 <= base <= 16
    ensures |s| == width
    ensures AllDigitsIn(s, base)
    decreases width
  {
    if width == 0 then ""
    else FixedWidth(n / base, base, width - 1) + [DigitChar(n % base)]
  }

  lemma DivBelowPow(n: nat, base: nat, width: nat)
    requires 2 <= base && 1 <= width && n < Pow(base, width)
    ensures n / base < Pow(base, width - 1)
  {
    var q, bound := n / base, Pow(base, width - 1);
    assert Pow(base, width) == base * bound;
    if q >= bound {
      DivMod(n, base);
      MulMono(bound, q, base);
      assert false;
    }
  }

  /** A fixed-width rendering reads back as the number it renders, when the number fits. */
  lemma {:induction false} FixedWidthValue(n: nat, base: nat, width: nat)
    requires 2 <= base <= 16
    requires n < Pow(base, width)
    ensures ValueOf(FixedWidth(n, base, width), base) == n
    decreases width
  {
    if width > 0 {
      DivMod(n, base);
      var q, r := n / base, n % base;
      DivBelowPow(n, base, width);
      FixedWidthValue(q, base, width - 1);
      FixedWidthStep(n, base, width);
      assert ValueOf(FixedWidth(n, base, width), base) == q * base + r;
    }
  }

  /** One more digit of a fixed-width rendering multiplies what the others read by the base and adds itself. */
  lemma FixedWidthStep(n: nat, base: nat, width: nat)
    requires 2 <= base <= 16 && width > 0
    ensures ValueOf(FixedWidth(n, base, width), base) == ValueOf(FixedWidth(n / base, base, width - 1), base) * base + n % base
  {
    DigitRoundTrip(n % base);
    ValueOfSnoc(FixedWidth(n / base, base, width - 1), DigitChar(n % base), base);
  }

  lemma ValueOfSnoc(p: string, c: char, base: nat)
    requires DigitOf(c) < base
    ensures ValueOf(p + [c], base) == ValueOf(p, base) * base + DigitOf(c)
  {
    assert (p + [c])[..|p|] == p;
  }

  lemma DivMod(n: nat, base: nat)
    requires base > 0
    ensures 0 <= n / base && 0 <= n % base < base
    ensures (n / base) * base + n % base == n
  {
  }

  lemma FixedWidthRoundTrip(n: nat, base: nat, width: nat)
    requires 2 <= base <= 16 && 1 <= width
    requires n < Pow(base, width)
    ensures ParseDigits(FixedWidth(n, base, width), base) == Some(n)
  {
    FixedWidthValue(n, base, width);
  }

  lemma CharRoundTrip(c: char)
    requires DigitOf(c) < 16
    ensures DigitChar(DigitOf(c)) == c
  {
  }

  lemma MulMono(a: nat, b: nat, c: nat)
    requires a <= b
    ensures a * c <= b * c
  {
  }

  lemma DivModUnique(q: nat, base: nat, r: nat)
    requires r < base
    ensures (q * base + r) / base == q && (q * base + r) % base == r
  {
    var x := q * base + r;
    var q', r' := x / base, x % base;
    assert q' * base + r' == x;
    if q' > q {
      MulMono(q + 1, q', base);
      assert false;
    } else if q' < q {
      MulMono(q' + 1, q, base);
      assert false;
    }
  }

  /** A digit string in the base is the fixed-width rendering of its own value: reading never loses leading zeros' width. */
  lemma {:induction false} FixedWidthOfValue(s: string, base: nat)
    requires 2 <= base <= 16 && AllDigitsIn(s, base)
    ensures FixedWidth(ValueOf(s, base), base, |s|) == s
    decreases |s|
  {
    if s != [] {
      var p, c := s[..|s| - 1], s[|s| - 1];
      assert AllDigitsIn(p, base);
      FixedWidthOfValue(p, base);
      var v := ValueOf(s, base);
      assert v == ValueOf(p, base) * base + DigitOf(c);
      DivModUnique(ValueOf(p, base), base, DigitOf(c));
      CharRoundTrip(c);
      assert s == p + [c];
    }
  }

  /** Whatever `ParseDigits` accepts is exactly the rendering of the value it reads. */
  lemma ParsedDigitsRender(s: string, base: nat, n: nat)
    requires 2 <= base <= 16 && ParseDigits(s, base) == Some(n)
    ensures FixedWidth(n, base, |s|) == s
  {
    FixedWidthOfValue(s, base);
  }

  lemma DigitStepBound(v: nat, d: nat, p: nat, base: nat)
    requires v < p && d < base
    ensures v * base + d < base * p
  {
    MulMono(v + 1, p, base);
  }

  /** A string of digits in the base reads as less than the base to the power of its length. */
  lemma {:induction false} ValueOfBound(s: string, base: nat)
    requires 2 <= base && AllDigitsIn(s, base)
    ensures ValueOf(s, base) < Pow(base, |s|)
    decreases |s|
  {
    if s != [] {
      var p := s[..|s| - 1];
      assert AllDigitsIn(p, base);
      ValueOfBound(p, base);
      DigitStepBound(ValueOf(p, base), DigitOf(s[|s| - 1]), Pow(base, |p|), base);
    }
  }

  /** `str(n)` for a natural number: decimal digits without leading zeros. */
  function NatToDecimal(n: nat): (s: string)
    ensures s != [] && AllDigitsIn(s, 10)
    ensures |s| > 1 ==> s[0] != '0'
    ensures ValueOf(s, 10) == n
  {
    if n < 10 then [DigitChar(n)]
    else
      var prefix := NatToDecimal(n / 10);
      var s := prefix + [DigitChar(n % 10)];
      assert s[..|s| - 1] == prefix;
      DigitRoundTrip(n % 10);
      s
  }

  /** `str(i)` for any integer: a `-` before the digits of a negative number. */
  function IntToDecimal(i: int): (s: string)
    ensures s != []
  {
    if i < 0 then "-" + NatToDecimal(-i) else NatToDecimal(i)
  }

  /** `int(s)` restricted to the canonical form `str` produces (optional `-`, then digits). */
  function ParseInt(s: string): (r: Option<int>) {
    if s != [] && s[0] == '-' then
      match ParseDigits(s[1..], 10)
      case Some(n) => Some(0 - n)
      case None => None
    else
      match ParseDigits(s, 10)
      case Some(n) => Some(n)
      case None => None
  }

  lemma DecimalRoundTrip(i: int)
    ensures ParseInt(IntToDecimal(i)) == Some(i)
  {
    if i < 0 {
      assert IntToDecimal(i)[1..] == NatToDecimal(-i);
    }
  }
}
