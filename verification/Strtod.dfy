/**
  The scanner of strtod-no-locale.c over exact reals.  Each phase is a method;
  `StrtodNoLocale` strings them together and is proved against `Read` and `Computed`.
 */
module Strtod {
  import opened Prelude
  import opened DecimalText
  import opened DecimalValue

  // ---------- the power table ----------

  /** Entry k is 10^(2^k). */
  const POWERS_OF_10: seq<real> := [10.0, 100.0, 1.0e4, 1.0e8, 1.0e16, 1.0e32, 1.0e64, 1.0e128, 1.0e256]

  function Pow2(k: nat): nat {
    if k == 0 then 1 else 2 * Pow2(k - 1)
  }

  /** exp x 2^d: what is left to scale by once d bits are used. */
  function Left(exp: nat, d: nat): nat
    decreases d
  {
    if d == 0 then exp else Left(2 * exp, d - 1)
  }

  lemma TableIsSquares(k: nat)
    requires 0 < k < |POWERS_OF_10|
    ensures POWERS_OF_10[k] == POWERS_OF_10[k - 1] * POWERS_OF_10[k - 1]
  {
  }

  lemma {:induction false} PowersOf10Table(k: nat)
    requires k < |POWERS_OF_10|
    ensures POWERS_OF_10[k] == TenTo(Pow2(k))
  {
    if k == 0 {
      TenToZero();
      TenToStep(0);
    } else {
      hide TenTo;
      PowersOf10Table(k - 1);
      TableIsSquares(k);
      TenToSum(Pow2(k - 1), Pow2(k - 1));
    }
  }

  lemma {:induction false} LeftOfSum(a: nat, b: nat, d: nat)
    ensures Left(a + b, d) == Left(a, d) + Left(b, d)
    ensures Left(1, d) == Pow2(d)
    decreases d
  {
    if d > 0 {
      LeftOfSum(2 * a, 2 * b, d - 1);
      LeftOfSum(1, 1, d - 1);
    }
  }

  /** Using up the lowest bit of `exp` takes 2^d off what is left, if the bit is set. */
  lemma LowestBit(exp: nat, d: nat)
    requires 0 < exp && Left(exp, d) <= MAX_EXPONENT
    ensures d < |POWERS_OF_10|
    ensures Left(exp, d) == Left(exp / 2, d + 1) + if exp % 2 == 1 then Pow2(d) else 0
  {
    hide Left, Pow2;
    var half, bit := exp / 2, exp % 2;
    assert exp == 2 * half + bit;
    LeftHalf(half, d);
    LeftOfSum(2 * half, bit, d);
    LeftOfSum(0, 0, d);
    LeftOfSum(1, exp - 1, d);
    Pow2Exceeds(d);
  }

  lemma LeftHalf(half: nat, d: nat)
    ensures Left(half, d + 1) == Left(2 * half, d)
  {
  }

  lemma {:induction false} Pow2Exceeds(d: nat)
    ensures d >= 9 ==> Pow2(d) > MAX_EXPONENT
  {
    if d > 9 {
      Pow2Exceeds(d - 1);
    } else {
      assert Pow2(3) == 8 && Pow2(6) == 64 && Pow2(9) == 512;
    }
  }

  /** Scales by table lookups, one bit of the exponent at a time. */
  method PowerOfTen(exponent: int32) returns (dblExp: real)
    requires 0 <= exponent <= MAX_EXPONENT
    ensures dblExp == TenTo(exponent)
  {
    hide TenTo;
    var exp: nat := exponent;
    var d := 0;
    dblExp := 1.0;
    ghost var rest: nat := exponent;
    TenToZero();
    while exp != 0
      invariant rest == Left(exp, d) <= exponent
      invariant dblExp == TenTo(exponent - rest)
      decreases exp
    {
      LowestBit(exp, d);
      if exp % 2 == 1 {
        PowersOf10Table(d);
        TenToSum(exponent - rest, Pow2(d));
        dblExp := dblExp * POWERS_OF_10[d];
        rest := rest - Pow2(d);
        assert dblExp == TenTo(exponent - rest);
      }
      exp := exp / 2;
      d := d + 1;
    }
    LeftOfSum(0, 0, d);
  }

  // ---------- reading by position ----------

  lemma SliceTwice(s: string, a: nat, b: nat)
    requires a + b <= |s|
    ensures s[a..][b..] == s[a + b..] && At(s[a..], b) == At(s, a + b)
  {
  }

  function DigitCount(s: string, p: nat): nat
    requires p <= |s|
  {
    |DigitPrefix(s[p..])|
  }

  function SpaceCount(s: string, p: nat): nat
    requires p <= |s|
  {
    |SpacePrefix(s[p..])|
  }

  lemma DigitCountStep(s: string, p: nat)
    requires p <= |s|
    ensures DigitCount(s, p) == if IsDigit(At(s, p)) then 1 + DigitCount(s, p + 1) else 0
  {
    if p < |s| {
      SliceTwice(s, p, 1);
    }
  }

  lemma SpaceCountStep(s: string, p: nat)
    requires p <= |s|
    ensures SpaceCount(s, p) == if IsSpace(At(s, p)) then 1 + SpaceCount(s, p + 1) else 0
  {
    if p < |s| {
      SliceTwice(s, p, 1);
    }
  }

  lemma MantissaAt(s: string, start: nat)
    requires start <= |s|
    ensures var m := ReadMantissa(s[start..]);
      && |m.whole| == DigitCount(s, start) <= |s| - start
      && (m.point <==> At(s, start + |m.whole|) == '.')
      && (m.point ==> start + |m.whole| < |s| && |m.frac| == DigitCount(s, start + |m.whole| + 1))
  {
    var m := ReadMantissa(s[start..]);
    SliceTwice(s, start, |m.whole|);
    if m.point {
      SliceTwice(s, start + |m.whole|, 1);
    }
  }

  /** Where a sign at `p` ends. */
  function AfterSign(s: string, p: nat): nat {
    if At(s, p) == '-' || At(s, p) == '+' then p + 1 else p
  }

  lemma SignAt(s: string, p: nat)
    requires p <= |s|
    ensures ReadSign(s[p..]).Minus? <==> At(s, p) == '-'
    ensures p + |SignText(ReadSign(s[p..]))| == AfterSign(s, p) <= |s|
  {
    assert At(s[p..], 0) == At(s, p);
  }

  lemma ExponentAt(s: string, start: nat)
    requires start <= |s|
    ensures var e := ReadExponent(s[start..]);
      var q := AfterSign(s, start + 1);
      && (e.Exponent? <==> At(s, start) == 'e' || At(s, start) == 'E')
      && (e.NoExponent? ==> |ExponentText(e)| == 0)
      && (e.Exponent? ==> q + |e.digits| <= |s|
                          && |ExponentText(e)| == q + |e.digits| - start
                          && (e.sign.Minus? <==> At(s, start + 1) == '-')
                          && |e.digits| == DigitCount(s, q)
                          && e.digits <= s[q..])
  {
    var e := ReadExponent(s[start..]);
    assert At(s[start..], 0) == At(s, start);
    if e.Exponent? {
      SliceTwice(s, start, 1);
      SignAt(s, start + 1);
      SliceTwice(s, start + 1, |SignText(e.sign)|);
    }
  }

  /** The parts of a numeral, each read from where the one before it ends. */
  lemma Pieces(s: string)
    ensures var n := Read(s);
      && n.blanks == SpacePrefix(s) && |n.blanks| <= |s|
      && var s1 := s[|n.blanks|..];
      && n.sign == ReadSign(s1) && |SignText(n.sign)| <= |s1|
      && var s2 := s1[|SignText(n.sign)|..];
      && n.mantissa == ReadMantissa(s2) && |MantissaText(n.mantissa)| <= |s2|
      && var s3 := s2[|MantissaText(n.mantissa)|..];
      && n.exponent == ReadExponent(s3)
  {
    hide SpacePrefix, ReadSign, ReadMantissa, ReadExponent, SignText, MantissaText, ExponentText;
  }

  lemma SpacesAtStart(s: string)
    ensures SpaceCount(s, 0) == |SpacePrefix(s)|
  {
    hide SpacePrefix;
    assert s[0..] == s;
  }

  lemma NumeralAt(s: string)
    ensures var n := Read(s);
      var b := |n.blanks|;
      var start := b + |SignText(n.sign)|;
      var pExp := start + |MantissaText(n.mantissa)|;
      && pExp <= |s|
      && b == SpaceCount(s, 0)
      && n.sign == ReadSign(s[b..])
      && n.mantissa == ReadMantissa(s[start..])
      && n.exponent == ReadExponent(s[pExp..])
  {
    hide Read, SpacePrefix, ReadSign, ReadMantissa, ReadExponent, SignText, MantissaText, ExponentText;
    hide SpaceCount, Shaped, At;
    Pieces(s);
    SpacesAtStart(s);
    var n := Read(s);
    var b, g, m := |n.blanks|, |SignText(n.sign)|, |MantissaText(n.mantissa)|;
    assert s[b..][g..] == s[b + g..] by { SliceTwice(s, b, g); }
    assert s[b + g..][m..] == s[b + g + m..] by { SliceTwice(s, b + g, m); }
  }

  // ---------- the phases ----------

  method ScanSign(s: string) returns (p: nat, sign: bool)
    ensures var n := Read(s);
      && p == |n.blanks| + |SignText(n.sign)|
      && sign == n.sign.Minus?
  {
    hide SpaceCount, Read, ReadSign, SignText;
    NumeralAt(s);
    p := 0;
    SpaceCountStep(s, p);
    while IsSpace(At(s, p))
      invariant p <= |s| && p + SpaceCount(s, p) == SpaceCount(s, 0)
      decreases |s| - p
    {
      SpaceCountStep(s, p);
      p := p + 1;
    }
    SpaceCountStep(s, p);
    SignAt(s, p);
    sign := false;
    if At(s, p) == '-' {
      sign := true;
      p := p + 1;
    } else if At(s, p) == '+' {
      p := p + 1;
    }
  }

  /** Counts mantissa characters, the point included, and locates the point. */
  method ScanMantissa(s: string, start: nat) returns (mantSize: nat, decPt: int)
    requires start <= |s|
    ensures var m := ReadMantissa(s[start..]);
      && mantSize == |MantissaText(m)|
      && decPt == if m.point then |m.whole| else -1
  {
    hide DigitCount, ReadMantissa;
    MantissaAt(s, start);
    ghost var m := ReadMantissa(s[start..]);
    var p := start;
    decPt, mantSize := -1, 0;
    while true
      invariant p == start + mantSize <= |s|
      invariant decPt < 0 ==> decPt == -1 && |m.whole| == mantSize + DigitCount(s, p)
      invariant decPt >= 0 ==> m.point && decPt == |m.whole| < mantSize
      invariant decPt >= 0 ==> |m.frac| == mantSize - decPt - 1 + DigitCount(s, p)
      decreases |s| - p
    {
      DigitCountStep(s, p);
      var c := At(s, p);
      if !IsDigit(c) {
        if c != '.' || decPt >= 0 {
          break;
        }
        decPt := mantSize;
      }
      p := p + 1;
      mantSize := mantSize + 1;
    }
  }

  /** Where the k-th mantissa digit sits once the point is skipped. */
  lemma MantissaDigitAt(s: string, start: nat, m: Mantissa, k: nat)
    requires start <= |s| && MantissaText(m) <= s[start..]
    requires !m.point ==> m.frac == []
    requires k < |m.whole + m.frac|
    ensures k < |m.whole| ==> At(s, start + k) == (m.whole + m.frac)[k]
    ensures k >= |m.whole| ==> m.point && At(s, start + k + 1) == (m.whole + m.frac)[k]
    ensures k == |m.whole| ==> At(s, start + k) == '.'
  {
    var t := MantissaText(m);
    assert forall i :: 0 <= i < |t| ==> s[start..][i] == s[start + i] == t[i];
  }

  lemma BillionIsTenTo9()
    ensures TenTo(9) == 1.0e9
  {
    PowersOf10Table(3);
    assert Pow2(3) == 8;
    TenToStep(8);
  }

  lemma NineDigitsFit(ds: Digits)
    requires |ds| <= 9
    ensures Value(ds) < 1_000_000_000
  {
    ValueBelow(ds);
    BillionIsTenTo9();
    if |ds| < 9 {
      TenToGrows(|ds|, 9);
    }
  }

  function SpanValue(ds: Digits, a: nat, b: nat): nat
    requires a <= b <= |ds|
  {
    Value(ds[a..b])
  }

  lemma SpanStep(ds: Digits, a: nat, k: nat)
    requires a <= k < |ds|
    ensures IsDigit(ds[k])
    ensures SpanValue(ds, a, k + 1) == 10 * SpanValue(ds, a, k) + (ds[k] - '0') as int
    ensures k < a + 9 ==> SpanValue(ds, a, k + 1) < 1_000_000_000
  {
    assert ds[a..k + 1][..k - a] == ds[a..k];
    if k < a + 9 {
      NineDigitsFit(ds[a..k + 1]);
    }
  }

  lemma SpanEmpty(ds: Digits, a: nat)
    requires a <= |ds|
    ensures SpanValue(ds, a, a) == 0
  {
  }

  lemma SpanWithin(ds: Digits, k: nat)
    requires k <= |ds|
    ensures SpanValue(ds, 0, k) <= SpanValue(ds, 0, |ds|) == Value(ds)
  {
    ValueOfPrefix(ds, k);
    assert ds[0..|ds|] == ds && ds[0..k] == ds[..k];
  }

  /** The text position at which the k-th mantissa digit is looked for. */
  function DigitPosition(start: nat, m: Mantissa, k: nat): nat {
    start + k + if k > |m.whole| then 1 else 0
  }

  /** The k-th digit is there, or just after a point. */
  lemma DigitOrPointAt(s: string, start: nat, m: Mantissa, ds: Digits, k: nat)
    requires start <= |s| && MantissaText(m) <= s[start..]
    requires !m.point ==> m.frac == []
    requires ds == m.whole + m.frac && k < |ds|
    ensures var q := DigitPosition(start, m, k);
      if At(s, q) == '.' then At(s, q + 1) == ds[k] && DigitPosition(start, m, k + 1) == q + 2
      else At(s, q) == ds[k] && DigitPosition(start, m, k + 1) == q + 1
  {
    MantissaDigitAt(s, start, m, k);
    assert IsDigit(ds[k]);
  }

  /** Up to nine digits into one int: the loop both accumulators share. */
  method AccumulateDigits(s: string, start: nat, ghost m: Mantissa, ghost ds: Digits, ghost from: nat, p0: nat,
      count: nat)
    returns (frac: int32, p: nat)
    requires start <= |s| && MantissaText(m) <= s[start..] && (!m.point ==> m.frac == [])
    requires ds == m.whole + m.frac && count <= 9 && from + count <= |ds|
    requires p0 == DigitPosition(start, m, from)
    ensures frac == SpanValue(ds, from, from + count)
    ensures p == DigitPosition(start, m, from + count)
  {
    hide SpanValue, DigitPosition, MantissaText;
    frac, p := 0, p0;
    var mantSize: nat := count;
    SpanEmpty(ds, from);
    while mantSize > 0
      invariant mantSize <= count
      invariant frac == SpanValue(ds, from, from + count - mantSize)
      invariant p == DigitPosition(start, m, from + count - mantSize)
    {
      ghost var k := from + count - mantSize;
      DigitOrPointAt(s, start, m, ds, k);
      SpanStep(ds, from, k);
      var c := At(s, p);
      p := p + 1;
      if c == '.' {
        c := At(s, p);
        p := p + 1;
      }
      frac := 10 * frac + (c - '0') as int;
      mantSize := mantSize - 1;
    }
  }

  lemma AmountOfNothing()
    ensures Value([]) == 0
  {
  }

  function WrittenDigits(e: Exponent): Digits {
    if e.Exponent? then e.digits else []
  }

  /** The digits of the exponent field, which may be missing after the mark. */
  method ScanExponent(s: string, start: nat) returns (p: nat, negative: bool, exp: int32)
    requires start <= |s|
    requires Value(WrittenDigits(ReadExponent(s[start..]))) < 0x8000_0000
    ensures var e := ReadExponent(s[start..]);
      && p == start + |ExponentText(e)|
      && exp == Value(WrittenDigits(e))
      && WrittenExponent(e) == if negative then 0 - exp else exp
  {
    hide DigitCount, ReadExponent, ExponentText, Value, SpanValue;
    ExponentAt(s, start);
    ghost var e := ReadExponent(s[start..]);
    p, negative, exp := start, false, 0;
    if At(s, p) == 'E' || At(s, p) == 'e' {
      p := p + 1;
      if At(s, p) == '-' {
        negative := true;
        p := p + 1;
      } else if At(s, p) == '+' {
        p := p + 1;
      }
      exp, p := ScanDigits(s, p, e.digits);
    } else {
      AmountOfNothing();
    }
  }

  method ScanDigits(s: string, start: nat, ghost ds: Digits) returns (exp: int32, p: nat)
    requires start <= |s| && ds <= s[start..] && |ds| == DigitCount(s, start)
    requires Value(ds) < 0x8000_0000
    ensures exp == Value(ds) && p == start + |ds|
  {
    hide DigitCount, Value, SpanValue;
    p, exp := start, 0;
    SpanEmpty(ds, 0);
    while IsDigit(At(s, p))
      invariant start <= p <= |s|
      invariant p - start + DigitCount(s, p) == |ds|
      invariant exp == SpanValue(ds, 0, p - start)
      decreases |s| - p
    {
      DigitCountStep(s, p);
      assert ds[p - start] == s[start..][p - start] == s[p];
      SpanStep(ds, 0, p - start);
      SpanWithin(ds, p - start + 1);
      exp := exp * 10 + (At(s, p) - '0') as int;
      p := p + 1;
    }
    DigitCountStep(s, p);
    SpanWithin(ds, p - start);
  }

  lemma TwoHalves(ds: Digits, k: nat)
    requires k <= |ds| && (k > 0 ==> |ds| == k + 9)
    ensures 1.0e9 * Amount(ds[..k]) + Amount(ds[k..]) == Amount(ds)
  {
    assert ds[..k] + ds[k..] == ds;
    if k > 0 {
      ValueConcat(ds[..k], ds[k..]);
      BillionIsTenTo9();
    } else {
      assert ds[k..] == ds && ds[..k] == [];
      AmountOfNothing();
    }
  }

  /** At most eighteen digits packed into two ints, then into one real. */
  method PackDigits(s: string, start: nat, ghost m: Mantissa, mantSize: nat) returns (fraction: real)
    requires start <= |s| && MantissaText(m) <= s[start..] && (!m.point ==> m.frac == [])
    requires mantSize <= 18 && mantSize <= |m.whole + m.frac|
    ensures fraction == Amount((m.whole + m.frac)[..mantSize])
  {
    hide Value, MantissaText, DigitPosition;
    ghost var ds: Digits := m.whole + m.frac;
    assert start == DigitPosition(start, m, 0) by { FirstPosition(start, m); }
    var high := if mantSize > 9 then mantSize - 9 else 0;
    var frac1, p := AccumulateDigits(s, start, m, ds, 0, start, high);
    var frac2, end := AccumulateDigits(s, start, m, ds, high, p, mantSize - high);
    fraction := 1.0e9 * frac1 as real + frac2 as real;
    ghost var kept: Digits := ds[..mantSize];
    assert kept[..high] == ds[0..high] && kept[high..] == ds[high..mantSize];
    TwoHalves(kept, high);
  }

  lemma FirstPosition(start: nat, m: Mantissa)
    ensures DigitPosition(start, m, 0) == start
  {
  }

  lemma Reciprocal(m: real, x: real, y: real)
    requires x * y == 1.0 && y > 0.0
    ensures m / y == m * x
  {
    var q := m / y;
    assert q * y == m;
    assert (q * y) * x == q * (x * y);
  }

  /** Clamps the exponent and scales, dividing for a negative one. */
  method ApplyExponent(fraction: real, exponent: int32) returns (scaled: real, erange: bool)
    requires exponent > -0x8000_0000
    ensures scaled == fraction * TenTo(Clamped(exponent))
    ensures erange <==> exponent < -MAX_EXPONENT || MAX_EXPONENT < exponent
  {
    hide TenTo;
    var expSign := exponent < 0;
    var exp: int32 := if expSign then 0 - exponent else exponent;
    erange := false;
    if exp > MAX_EXPONENT {
      exp := MAX_EXPONENT;
      erange := true;
    }
    var dblExp := PowerOfTen(exp);
    if expSign {
      TenToSum(Clamped(exponent), exp);
      TenToZero();
      Reciprocal(fraction, TenTo(Clamped(exponent)), dblExp);
      scaled := fraction / dblExp;
    } else {
      scaled := fraction * dblExp;
    }
  }

  lemma DigitsInOrder(n: Numeral)
    ensures AllDigits(n) == n.mantissa.whole + n.mantissa.frac
  {
  }

  /** Lines up the scaled digits with what the numeral is to yield. */
  lemma IsComputed(n: Numeral, kept: real, fracExp: int, exponent: int, scaled: real, value: real)
    requires AllDigits(n) != []
    requires kept == Amount(AllDigits(n)[..KeptCount(n)])
    requires fracExp == |n.mantissa.whole| - KeptCount(n) && exponent == fracExp + WrittenExponent(n.exponent)
    requires scaled == kept * TenTo(Clamped(exponent))
    requires value == if n.sign.Minus? then 0.0 - scaled else scaled
    ensures value == Computed(n) && exponent == CombinedExponent(n)
  {
    hide Amount, TenTo, Clamped, WrittenExponent, AllDigits;
    assert scaled == ComputedMagnitude(n);
  }

  /** From counted characters and the point to the digits that are kept and the exponent they stand for. */
  method KeepDigits(ghost n: Numeral, counted: nat, point: int) returns (mantSize: nat, fracExp: int32)
    requires counted <= 0x7FFF_FFFF && counted == |AllDigits(n)| + if n.mantissa.point then 1 else 0
    requires point == if n.mantissa.point then |n.mantissa.whole| else -1
    requires !n.mantissa.point ==> n.mantissa.frac == []
    ensures mantSize == KeptCount(n) && fracExp == |n.mantissa.whole| - mantSize
    ensures mantSize <= 18 && mantSize <= |AllDigits(n)| <= counted
    ensures mantSize == 0 <==> AllDigits(n) == []
  {
    mantSize := counted;
    var decPt := point;
    if decPt < 0 {
      decPt := mantSize;
    } else {
      mantSize := mantSize - 1;
    }
    if mantSize > 18 {
      fracExp := decPt - 18;
      mantSize := 18;
    } else {
      fracExp := decPt - mantSize;
    }
  }

  lemma NumeralSizes(s: string)
    ensures var n := Read(s);
      var m := n.mantissa;
      var start := |n.blanks| + |SignText(n.sign)|;
      && MantissaText(m) <= s[start..]
      && (!m.point ==> m.frac == [])
      && |AllDigits(n)| == |MantissaText(m)| - (if m.point then 1 else 0)
      && |Text(n)| == start + |MantissaText(m)| + |ExponentText(n.exponent)|
  {
    var n := Read(s);
    hide Read, ReadMantissa;
    NumeralAt(s);
    var start := |n.blanks| + |SignText(n.sign)|;
    ReadMantissaEnsures(s[start..]);
  }

  lemma ReadMantissaEnsures(t: string)
    ensures MantissaText(ReadMantissa(t)) <= t
    ensures !ReadMantissa(t).point ==> ReadMantissa(t).frac == []
  {
  }

  /**
    The value, how many characters it took, and whether ERANGE was raised.
    The caller's duty is that exponent arithmetic stays inside an int.
   */
  method StrtodNoLocale(s: string) returns (value: real, end: nat, erange: bool)
    requires |s| + Value(WrittenDigits(Read(s).exponent)) < 0x8000_0000
    ensures var n := Read(s);
      if AllDigits(n) == [] then value == 0.0 && end == 0 && !erange
      else && value == Computed(n)
           && end == |Text(n)|
           && (erange <==> CombinedExponent(n) < -MAX_EXPONENT || MAX_EXPONENT < CombinedExponent(n))
  {
    hide Read, ReadMantissa, ReadExponent, Value, TenTo, Amount, ComputedMagnitude, Computed;
    hide Text, MantissaText, SignText, ExponentText, WrittenExponent, WrittenDigits, AllDigits, KeptCount,
        CombinedExponent;
    ghost var n := Read(s);
    NumeralAt(s);
    NumeralSizes(s);
    var start, sign := ScanSign(s);
    var mantSize, decPt := ScanMantissa(s, start);
    var pExp := start + mantSize;
    var fracExp;
    mantSize, fracExp := KeepDigits(n, mantSize, decPt);
    if mantSize == 0 {
      return 0.0, 0, false;
    }
    assert AllDigits(n) == n.mantissa.whole + n.mantissa.frac by { DigitsInOrder(n); }
    var fraction := PackDigits(s, start, n.mantissa, mantSize);
    ghost var kept := fraction;
    var expSign, exp;
    end, expSign, exp := ScanExponent(s, pExp);
    exp := if expSign then fracExp - exp else fracExp + exp;
    fraction, erange := ApplyExponent(fraction, exp);
    value := if sign then 0.0 - fraction else fraction;
    IsComputed(n, kept, fracExp, exp, fraction, value);
  }
}
