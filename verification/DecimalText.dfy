/**
  Decimal numerals as text: a reader that is a left inverse of writing and reads
  as far as it can.  The scanner of strtod-no-locale.c is judged against it.
 */
module DecimalText {

  predicate IsDigit(c: char) { '0' <= c <= '9' }

  predicate IsSpace(c: char) { c == ' ' || '\t' <= c <= '\r' }

  type Digits = ds: string | forall i :: 0 <= i < |ds| ==> IsDigit(ds[i])

  type Blanks = bs: string | forall i :: 0 <= i < |bs| ==> IsSpace(bs[i])

  datatype Sign = Unsigned | Plus | Minus

  datatype Mantissa = Mantissa(whole: Digits, point: bool, frac: Digits)

  datatype Exponent = NoExponent | Exponent(mark: char, sign: Sign, digits: Digits)

  /** `blanks sign whole . frac mark sign digits`, every part optional. */
  datatype Numeral = Numeral(blanks: Blanks, sign: Sign, mantissa: Mantissa, exponent: Exponent)

  // ---------- writing ----------

  function SignText(g: Sign): string {
    match g case Unsigned => "" case Plus => "+" case Minus => "-"
  }

  function FractionText(m: Mantissa): string {
    if m.point then ['.'] + m.frac else []
  }

  function MantissaText(m: Mantissa): string {
    m.whole + FractionText(m)
  }

  function ExponentText(e: Exponent): string {
    match e
    case NoExponent => []
    case Exponent(mark, sign, digits) => [mark] + (SignText(sign) + digits)
  }

  function Text(n: Numeral): string {
    n.blanks + (SignText(n.sign) + (MantissaText(n.mantissa) + ExponentText(n.exponent)))
  }

  predicate Shaped(n: Numeral) {
    && (!n.mantissa.point ==> n.mantissa.frac == [])
    && (n.exponent.Exponent? ==> n.exponent.mark == 'e' || n.exponent.mark == 'E')
  }

  /** The character a C string holds at `p`: its terminator from the end on. */
  function At(s: string, p: nat): char {
    if p < |s| then s[p] else '\0'
  }

  predicate EndsSign(g: Sign, c: char) {
    g.Unsigned? ==> c != '+' && c != '-'
  }

  predicate EndsMantissa(m: Mantissa, c: char) {
    !IsDigit(c) && (m.point || c != '.')
  }

  predicate EndsExponent(e: Exponent, c: char) {
    if e.NoExponent? then c != 'e' && c != 'E'
    else !IsDigit(c) && (e.digits == [] ==> EndsSign(e.sign, c))
  }

  /** A character `c` that follows `n` cannot be read as a part of it. */
  predicate Delimits(n: Numeral, c: char) {
    && EndsExponent(n.exponent, c)
    && (n.exponent.NoExponent? ==> EndsMantissa(n.mantissa, c))
    && (n.exponent.NoExponent? && MantissaText(n.mantissa) == [] ==>
          EndsSign(n.sign, c) && (n.sign.Unsigned? ==> !IsSpace(c)))
  }

  // ---------- reading ----------

  function SpacePrefix(s: string): (b: Blanks)
    ensures b <= s && !IsSpace(At(s, |b|))
  {
    if s != [] && IsSpace(s[0]) then [s[0]] + SpacePrefix(s[1..]) else []
  }

  function DigitPrefix(s: string): (d: Digits)
    ensures d <= s && !IsDigit(At(s, |d|))
  {
    if s != [] && IsDigit(s[0]) then [s[0]] + DigitPrefix(s[1..]) else []
  }

  lemma PrefixJoin(a: string, b: string, s: string)
    requires a <= s && b <= s[|a|..]
    ensures a + b <= s && At(s, |a + b|) == At(s[|a|..], |b|)
  {
  }

  function ReadSign(s: string): (g: Sign)
    ensures SignText(g) <= s
  {
    if At(s, 0) == '-' then Minus else if At(s, 0) == '+' then Plus else Unsigned
  }

  function ReadMantissa(s: string): (m: Mantissa)
    ensures MantissaText(m) <= s && EndsMantissa(m, At(s, |MantissaText(m)|))
    ensures !m.point ==> m.frac == []
  {
    var whole := DigitPrefix(s);
    var t := s[|whole|..];
    if At(t, 0) == '.' then
      var frac := DigitPrefix(t[1..]);
      PrefixJoin(['.'], frac, t);
      PrefixJoin(whole, ['.'] + frac, s);
      Mantissa(whole, true, frac)
    else
      Mantissa(whole, false, [])
  }

  function ReadExponent(s: string): (e: Exponent)
    ensures ExponentText(e) <= s && EndsExponent(e, At(s, |ExponentText(e)|))
    ensures e.Exponent? ==> e.mark == 'e' || e.mark == 'E'
  {
    if At(s, 0) == 'E' || At(s, 0) == 'e' then
      var sign := ReadSign(s[1..]);
      var t := s[1..][|SignText(sign)|..];
      var digits := DigitPrefix(t);
      PrefixJoin(SignText(sign), digits, s[1..]);
      PrefixJoin([s[0]], SignText(sign) + digits, s);
      Exponent(s[0], sign, digits)
    else NoExponent
  }

  /** The longest numeral at the front of `s`. */
  function Read(s: string): (n: Numeral)
    ensures Shaped(n)
  {
    var blanks := SpacePrefix(s);
    var s1 := s[|blanks|..];
    var sign := ReadSign(s1);
    var s2 := s1[|SignText(sign)|..];
    var mantissa := ReadMantissa(s2);
    var s3 := s2[|MantissaText(mantissa)|..];
    Numeral(blanks, sign, mantissa, ReadExponent(s3))
  }

  lemma Split(a: string, b: string)
    ensures (a + b)[|a|..] == b && a <= a + b && At(a + b, |a|) == At(b, 0)
  {
  }

  lemma Rejoin(a: string, s: string)
    requires a <= s
    ensures s == a + s[|a|..] && At(s[|a|..], 0) == At(s, |a|)
  {
  }

  lemma PrefixesAgree(a: string, b: string, s: string)
    requires a <= s && b <= s
    requires |a| < |b|
    ensures a < b && b[|a|] == At(s, |a|)
  {
  }

  lemma DigitPrefixUndoes(d: Digits, rest: string)
    requires !IsDigit(At(rest, 0))
    ensures DigitPrefix(d + rest) == d
  {
    Split(d, rest);
    var r := DigitPrefix(d + rest);
    if |r| < |d| {
      PrefixesAgree(r, d, d + rest);
    } else if |d| < |r| {
      PrefixesAgree(d, r, d + rest);
    }
  }

  lemma SpacePrefixUndoes(b: Blanks, rest: string)
    requires !IsSpace(At(rest, 0))
    ensures SpacePrefix(b + rest) == b
  {
    Split(b, rest);
    var r := SpacePrefix(b + rest);
    if |r| < |b| {
      PrefixesAgree(r, b, b + rest);
    } else if |b| < |r| {
      PrefixesAgree(b, r, b + rest);
    }
  }

  lemma ReadMantissaUndoes(m: Mantissa, rest: string)
    requires !m.point ==> m.frac == []
    requires EndsMantissa(m, At(rest, 0))
    ensures ReadMantissa(MantissaText(m) + rest) == m
  {
    var t := FractionText(m) + rest;
    assert MantissaText(m) + rest == m.whole + t;
    DigitPrefixUndoes(m.whole, t);
    Split(m.whole, t);
    if m.point {
      assert t[1..] == m.frac + rest;
      DigitPrefixUndoes(m.frac, rest);
    } else {
      assert t == rest;
    }
  }

  lemma ReadSignUndoes(g: Sign, rest: string)
    requires EndsSign(g, At(rest, 0))
    ensures ReadSign(SignText(g) + rest) == g
  {
    match g
    case Unsigned => assert SignText(g) + rest == rest;
    case Plus =>
    case Minus =>
  }

  lemma ReadExponentUndoes(e: Exponent, rest: string)
    requires e.Exponent? ==> e.mark == 'e' || e.mark == 'E'
    requires EndsExponent(e, At(rest, 0))
    ensures ReadExponent(ExponentText(e) + rest) == e
  {
    if e.Exponent? {
      var t := e.digits + rest;
      var u := SignText(e.sign) + t;
      Split([e.mark], u);
      assert ExponentText(e) + rest == [e.mark] + u;
      assert EndsSign(e.sign, At(t, 0));
      ReadSignUndoes(e.sign, t);
      Split(SignText(e.sign), t);
      DigitPrefixUndoes(e.digits, rest);
    } else {
      assert ExponentText(e) + rest == rest;
    }
  }

  lemma Four(a: string, b: string, c: string, d: string, rest: string)
    ensures a + (b + (c + (d + rest))) == (a + (b + (c + d))) + rest
  {
  }

  lemma NoBlankAfterBlanks(n: Numeral, rest: string)
    requires Shaped(n) && Delimits(n, At(rest, 0))
    ensures !IsSpace(At(SignText(n.sign) + (MantissaText(n.mantissa) + (ExponentText(n.exponent) + rest)), 0))
  {
    var s3 := ExponentText(n.exponent) + rest;
    var s2 := MantissaText(n.mantissa) + s3;
    assert At(s3, 0) == if n.exponent.Exponent? then n.exponent.mark else At(rest, 0);
    assert MantissaText(n.mantissa) == [] ==> At(s2, 0) == At(s3, 0);
    assert n.mantissa.whole != [] ==> IsDigit(At(s2, 0));
    assert n.sign.Unsigned? ==> At(SignText(n.sign) + s2, 0) == At(s2, 0);
  }

  /** Reading undoes writing, whatever delimited text follows. */
  lemma ReadUndoesText(n: Numeral, rest: string)
    requires Shaped(n) && Delimits(n, At(rest, 0))
    ensures Read(Text(n) + rest) == n
  {
    hide SpacePrefix, ReadMantissa, ReadExponent, ReadSign, ExponentText, MantissaText, SignText;
    var s3 := ExponentText(n.exponent) + rest;
    var s2 := MantissaText(n.mantissa) + s3;
    var s1 := SignText(n.sign) + s2;
    Four(n.blanks, SignText(n.sign), MantissaText(n.mantissa), ExponentText(n.exponent), rest);
    NoBlankAfterBlanks(n, rest);
    SpacePrefixUndoes(n.blanks, s1);
    Split(n.blanks, s1);
    TextPiecesEnd(n, rest);
    Split(SignText(n.sign), s2);
    ReadSignUndoes(n.sign, s2);
    Split(MantissaText(n.mantissa), s3);
    ReadMantissaUndoes(n.mantissa, s3);
    ReadExponentUndoes(n.exponent, rest);
  }

  lemma TextPiecesEnd(n: Numeral, rest: string)
    requires Shaped(n) && Delimits(n, At(rest, 0))
    ensures EndsMantissa(n.mantissa, At(ExponentText(n.exponent) + rest, 0))
    ensures EndsSign(n.sign, At(MantissaText(n.mantissa) + (ExponentText(n.exponent) + rest), 0))
  {
    var s3 := ExponentText(n.exponent) + rest;
    assert At(s3, 0) == if n.exponent.Exponent? then n.exponent.mark else At(rest, 0);
    var s2 := MantissaText(n.mantissa) + s3;
    assert MantissaText(n.mantissa) == [] ==> At(s2, 0) == At(s3, 0);
    assert n.mantissa.whole != [] ==> IsDigit(At(s2, 0));
    assert n.mantissa.whole == [] && n.mantissa.point ==> At(s2, 0) == '.';
  }

  /** What was read is exactly the text consumed, and the next character cannot extend it. */
  lemma ReadIsMaximal(s: string)
    ensures Text(Read(s)) <= s
    ensures Delimits(Read(s), At(s, |Text(Read(s))|))
  {
    var n := Read(s);
    var s1 := s[|n.blanks|..];
    var s2 := s1[|SignText(n.sign)|..];
    var s3 := s2[|MantissaText(n.mantissa)|..];
    var s4 := s3[|ExponentText(n.exponent)|..];
    Rejoin(n.blanks, s);
    Rejoin(SignText(n.sign), s1);
    Rejoin(MantissaText(n.mantissa), s2);
    Rejoin(ExponentText(n.exponent), s3);
    Four(n.blanks, SignText(n.sign), MantissaText(n.mantissa), ExponentText(n.exponent), s4);
    Split(Text(n), s4);
    DelimitsAfter(n, s, s1, s2, s3, At(s4, 0));
  }

  lemma DelimitsAfter(n: Numeral, s: string, s1: string, s2: string, s3: string, c: char)
    requires n == Read(s)
    requires s1 == s[|n.blanks|..] && s2 == s1[|SignText(n.sign)|..] && s3 == s2[|MantissaText(n.mantissa)|..]
    requires c == At(s3, |ExponentText(n.exponent)|)
    ensures Delimits(n, c)
  {
    assert EndsExponent(n.exponent, c);
    if n.exponent.NoExponent? {
      assert c == At(s3, 0) == At(s2, |MantissaText(n.mantissa)|);
      if MantissaText(n.mantissa) == [] {
        assert c == At(s2, 0) == At(s1, |SignText(n.sign)|);
        if n.sign.Unsigned? {
          assert c == At(s1, 0) == At(s, |n.blanks|);
        }
      }
    }
  }

  // ---------- characters ----------

  /** The blanks and digits of the C locale. */
  lemma Characters(c: char)
    ensures IsSpace(c) <==> c in {' ', '\t', '\n', 11 as char, 12 as char, '\r'}
    ensures IsDigit(c) <==> c in "0123456789"
  {
    var ds := "0123456789";
    if IsDigit(c) { assert c == ds[(c - '0') as int]; }
  }

  /** One character opens an exponent, and another its sign. */
  lemma MarksAndSigns(c: char)
    ensures ReadExponent([c]).Exponent? <==> c == 'e' || c == 'E'
    ensures ReadSign([c]) == if c == '-' then Minus else if c == '+' then Plus else Unsigned
  {
  }

  function PlusSample(): Numeral { Numeral(" ", Plus, Mantissa("7", true, ""), Exponent('e', Plus, "3")) }

  lemma PlusReads()
    ensures Text(PlusSample()) == " +7.e+3" && Read(" +7.e+3x") == PlusSample()
  {
    var n := PlusSample();
    assert MantissaText(n.mantissa) == "7." && ExponentText(n.exponent) == "e+3" && SignText(n.sign) == "+";
    assert Text(n) == " +7.e+3";
    assert " +7.e+3" + "x" == " +7.e+3x";
    ReadUndoesText(n, "x");
  }
}
