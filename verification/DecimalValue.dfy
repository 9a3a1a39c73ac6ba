/**
  The real number a numeral denotes, the number strtod-no-locale.c computes for it,
  and the exact distance between the two.
 */
module DecimalValue {
  import opened DecimalText

  const MAX_DIGITS := 18
  const MAX_EXPONENT := 511

  function Value(ds: Digits): nat {
    if ds == [] then 0 else 10 * Value(ds[..|ds| - 1]) + (ds[|ds| - 1] - '0') as int
  }

  function Amount(ds: Digits): real { Value(ds) as real }

  function Units(c: char): real
    requires IsDigit(c)
  {
    (c - '0') as int as real
  }

  function Power(e: int): (r: real)
    ensures r > 0.0
    decreases if e < 0 then -e else e
  {
    if e == 0 then 1.0 else if e > 0 then 10.0 * Power(e - 1) else Power(e + 1) / 10.0
  }

  /** 10^e; a name of its own keeps the recursion out of products. */
  function TenTo(e: int): (r: real)
    ensures r > 0.0
  {
    Power(e)
  }

  function WrittenExponent(e: Exponent): int {
    match e
    case NoExponent => 0
    case Exponent(_, sign, digits) => if sign.Minus? then 0 - Value(digits) else Value(digits) as int
  }

  function Signed(g: Sign, x: real): real {
    if g.Minus? then 0.0 - x else x
  }

  /** |I.F| x 10^X, read off the parts as written. */
  function Magnitude(n: Numeral): real {
    (Amount(n.mantissa.whole) + Amount(n.mantissa.frac) / TenTo(|n.mantissa.frac|))
    * TenTo(WrittenExponent(n.exponent))
  }

  /** The number the numeral denotes. */
  function Exact(n: Numeral): real {
    Signed(n.sign, Magnitude(n))
  }

  function AllDigits(n: Numeral): Digits {
    n.mantissa.whole + n.mantissa.frac
  }

  function KeptCount(n: Numeral): nat {
    if |AllDigits(n)| > MAX_DIGITS then MAX_DIGITS else |AllDigits(n)|
  }

  /** The digits that take part in the computation, leading zeros included. */
  function Kept(n: Numeral): Digits { AllDigits(n)[..KeptCount(n)] }

  function Dropped(n: Numeral): Digits { AllDigits(n)[KeptCount(n)..] }

  /** The power of ten that scales the kept digits. */
  function CombinedExponent(n: Numeral): int {
    |n.mantissa.whole| - KeptCount(n) + WrittenExponent(n.exponent)
  }

  function Clamped(e: int): int {
    if e > MAX_EXPONENT then MAX_EXPONENT else if e < -MAX_EXPONENT then -MAX_EXPONENT else e
  }

  function ComputedMagnitude(n: Numeral): real {
    Amount(Kept(n)) * TenTo(Clamped(CombinedExponent(n)))
  }

  /** What the code computes for a numeral with at least one digit. */
  function Computed(n: Numeral): real {
    Signed(n.sign, ComputedMagnitude(n))
  }

  // ---------- digits and powers ----------

  lemma TenToZero()
    ensures TenTo(0) == 1.0
  {
  }

  lemma TenToStep(e: int)
    ensures TenTo(e + 1) == 10.0 * TenTo(e)
  {
  }

  lemma Times10(x: real, y: real, y1: real, z: real, z1: real)
    requires y1 == 10.0 * y && z1 == 10.0 * z
    ensures z == x * y <==> z1 == x * y1
  {
    assert x * (10.0 * y) == 10.0 * (x * y);
  }

  lemma {:induction false} TenToSum(a: int, b: int)
    ensures TenTo(a + b) == TenTo(a) * TenTo(b)
    decreases if b < 0 then -b else b
  {
    hide TenTo;
    TenToZero();
    if b > 0 {
      TenToSum(a, b - 1);
      TenToStep(a + b - 1);
      TenToStep(b - 1);
      Times10(TenTo(a), TenTo(b - 1), TenTo(b), TenTo(a + b - 1), TenTo(a + b));
    } else if b < 0 {
      TenToSum(a, b + 1);
      TenToStep(a + b);
      TenToStep(b);
      Times10(TenTo(a), TenTo(b), TenTo(b + 1), TenTo(a + b), TenTo(a + b + 1));
    }
  }

  lemma {:induction false} TenToGrows(a: int, b: int)
    requires a < b
    ensures 10.0 * TenTo(a) <= TenTo(b)
    decreases b - a
  {
    TenToStep(b - 1);
    if a < b - 1 {
      TenToGrows(a, b - 1);
    }
  }

  lemma AmountIsZero(a: Digits)
    ensures Amount(a) == 0.0 <==> Value(a) == 0
    ensures Amount(a) == 0.0 || Amount(a) >= 1.0
  {
  }

  lemma ValueStep(a: Digits)
    requires a != []
    ensures Amount(a) == 10.0 * Amount(a[..|a| - 1]) + Units(a[|a| - 1])
    ensures 0.0 <= Units(a[|a| - 1]) <= 9.0
  {
  }

  lemma ConcatStep(v: real, y: real, y1: real, vc: real, vac: real, x: real, vb: real, vab: real)
    requires y1 == 10.0 * y && vac == v * y + vc
    requires vb == 10.0 * vc + x && vab == 10.0 * vac + x
    ensures vab == v * y1 + vb
  {
    assert v * (10.0 * y) == 10.0 * (v * y);
  }

  lemma {:induction false} ValueConcat(a: Digits, b: Digits)
    ensures Amount(a + b) == Amount(a) * TenTo(|b|) + Amount(b)
  {
    hide Amount;
    hide TenTo;
    if b == [] {
      ValueConcatEmpty(a, b);
    } else {
      ValueConcat(a, b[..|b| - 1]);
      ValueConcatStep(a, b, b[..|b| - 1]);
    }
  }

  lemma ValueConcatEmpty(a: Digits, b: Digits)
    requires b == []
    ensures Amount(a + b) == Amount(a) * TenTo(|b|) + Amount(b)
  {
    assert Amount(b) == 0.0;
    hide Amount;
    hide TenTo;
    TenToZero();
    assert a + b == a;
    TimesOne(Amount(a), TenTo(|b|));
  }

  lemma TimesOne(x: real, y: real)
    requires y == 1.0
    ensures x * y == x
  {
  }

  lemma ValueConcatStep(a: Digits, b: Digits, c: Digits)
    requires b != [] && c == b[..|b| - 1]
    requires Amount(a + c) == Amount(a) * TenTo(|c|) + Amount(c)
    ensures Amount(a + b) == Amount(a) * TenTo(|b|) + Amount(b)
  {
    hide Amount;
    hide TenTo;
    hide Units;
    assert (a + b)[..|a + b| - 1] == a + c && (a + b)[|a + b| - 1] == b[|b| - 1];
    TenToStep(|c|);
    ValueStep(a + b);
    ValueStep(b);
    ConcatStep(Amount(a), TenTo(|c|), TenTo(|b|), Amount(c), Amount(a + c),
               Units(b[|b| - 1]), Amount(b), Amount(a + b));
  }

  lemma {:induction false} ValueBelow(a: Digits)
    ensures Amount(a) <= TenTo(|a|) - 1.0
  {
    if a != [] {
      ValueBelow(a[..|a| - 1]);
      TenToStep(|a| - 1);
      ValueStep(a);
    }
  }

  lemma {:induction false} ValueOfPrefix(a: Digits, k: nat)
    requires k <= |a|
    ensures Value(a[..k]) <= Value(a)
  {
    if k < |a| {
      ValueOfPrefix(a[..|a| - 1], k);
      assert a[..|a| - 1][..k] == a[..k];
    } else {
      assert a[..k] == a;
    }
  }

  // ---------- what the computed number is worth ----------

  /** The dropped digits as a fraction of the last kept one. */
  function Tail(n: Numeral): (r: real)
  {
    Amount(Dropped(n)) / TenTo(|Dropped(n)|)
  }

  lemma SignOfProduct(x: real, d: real)
    requires d > 0.0
    ensures x * d > 0.0 <==> x > 0.0
    ensures x * d == 0.0 <==> x == 0.0
  {
  }

  lemma ProperFraction(v: real, d: real)
    requires 0.0 <= v < d
    ensures 0.0 <= v / d < 1.0
    ensures v / d == 0.0 <==> v == 0.0
  {
    var q := v / d;
    assert q * d == v;
    SignOfProduct(q, d);
    SignOfProduct(1.0 - q, d);
    assert (1.0 - q) * d == d - v;
  }

  lemma TailRange(n: Numeral)
    ensures 0.0 <= Tail(n) < 1.0
    ensures Tail(n) == 0.0 <==> Value(Dropped(n)) == 0
  {
    ValueBelow(Dropped(n));
    ProperFraction(Amount(Dropped(n)), TenTo(|Dropped(n)|));
  }

  lemma Scaled(v: real, p: real, q: real, r: real)
    requires p > 0.0 && q == r * p
    ensures v / p * q == v * r
  {
    var w := v / p;
    assert w * p == v;
    assert w * (r * p) == r * (w * p);
  }

  lemma Quotient(a: real, b: real, p: real)
    requires p > 0.0
    ensures (a * p + b) / p == a + b / p
  {
    var q, r := (a * p + b) / p, b / p;
    assert q * p == a * p + b;
    assert r * p == b;
    assert (q - a - r) * p == q * p - a * p - r * p;
  }

  /** all/pf x 10^x and all/pd x 10^e agree when both exponents exceed the digits' own by the same r. */
  lemma SameScaling(w: real, f: real, k: real, d: real, pf: real, pd: real, r: real, px: real, pe: real)
    requires pf > 0.0 && pd > 0.0
    requires w * pf + f == k * pd + d
    requires px == r * pf && pe == r * pd
    ensures (w + f / pf) * px == (k + d / pd) * pe
  {
    Quotient(w, f, pf);
    Quotient(k, d, pd);
    Scaled(w * pf + f, pf, px, r);
    Scaled(k * pd + d, pd, pe, r);
  }

  /** However the digits are cut in two, the cut and the exponent determine the same number. */
  lemma SameDigitsSameNumber(w: Digits, f: Digits, k: Digits, d: Digits, x: int)
    requires w + f == k + d
    ensures (Amount(w) + Amount(f) / TenTo(|f|)) * TenTo(x)
         == (Amount(k) + Amount(d) / TenTo(|d|)) * TenTo(|w| - |k| + x)
  {
    hide TenTo;
    hide Amount;
    ValueConcat(w, f);
    ValueConcat(k, d);
    assert |w| + |f| == |w + f| == |k + d| == |k| + |d|;
    TenToSum(x - |f|, |f|);
    TenToSum(x - |f|, |d|);
    SameScaling(Amount(w), Amount(f), Amount(k), Amount(d), TenTo(|f|), TenTo(|d|),
                TenTo(x - |f|), TenTo(x), TenTo(|w| - |k| + x));
  }

  /** |I.F| x 10^X is (kept digits + tail) x 10^(combined exponent). */
  lemma MagnitudeByKept(n: Numeral)
    ensures Magnitude(n) == (Amount(Kept(n)) + Tail(n)) * TenTo(CombinedExponent(n))
  {
    hide TenTo;
    hide Amount;
    assert Kept(n) + Dropped(n) == AllDigits(n);
    SameDigitsSameNumber(n.mantissa.whole, n.mantissa.frac, Kept(n), Dropped(n), WrittenExponent(n.exponent));
  }

  /** With no digit dropped and an exponent the table reaches, the result is exact. */
  lemma ShortNumeralsAreExact(n: Numeral)
    requires |AllDigits(n)| <= MAX_DIGITS
    requires -MAX_EXPONENT <= CombinedExponent(n) <= MAX_EXPONENT
    ensures Computed(n) == Exact(n)
    ensures CombinedExponent(n) == WrittenExponent(n.exponent) - |n.mantissa.frac|
  {
    ExactIff(n);
    assert Dropped(n) == [];
  }

  /** Scaling kept digits alone, with the tail left out. */
  lemma Truncation(m: real, t: real, p: real, c: real, exact: real, kept: real)
    requires 0.0 <= t < 1.0 && 0.0 < p && c == p
    requires exact == (m + t) * p && kept == m * c
    ensures 0.0 <= exact - kept < p
    ensures exact == kept <==> t == 0.0
  {
    var u := t * p;
    SignOfProduct(t, p);
    SignOfProduct(1.0 - t, p);
    assert exact == kept + u;
    assert (1.0 - t) * p == p - u;
  }

  /** Whatever is dropped, the result truncates towards zero by less than one unit of the last kept digit. */
  lemma LongNumeralsAreTruncated(n: Numeral)
    requires -MAX_EXPONENT <= CombinedExponent(n) <= MAX_EXPONENT
    ensures 0.0 <= Magnitude(n) - ComputedMagnitude(n) < TenTo(CombinedExponent(n))
    ensures |AllDigits(n)| > MAX_DIGITS ==>
              CombinedExponent(n) == |n.mantissa.whole| - 18 + WrittenExponent(n.exponent)
  {
    hide TenTo;
    hide Amount;
    hide Magnitude;
    hide Tail;
    MagnitudeByKept(n);
    TailRange(n);
    var e := CombinedExponent(n);
    Truncation(Amount(Kept(n)), Tail(n), TenTo(e), TenTo(Clamped(e)), Magnitude(n), ComputedMagnitude(n));
  }

  lemma ScaleTen(a: real, b: real, m: real, ma: real, mb: real)
    requires 10.0 * a <= b && 1.0 <= m && 0.0 < a
    requires ma == m * a && mb == m * b
    ensures 10.0 * ma <= mb && a <= ma
  {
    NonNegative(m, b - 10.0 * a);
    NonNegative(m - 1.0, a);
    Distribute(m, a, b);
  }

  lemma NonNegative(x: real, y: real)
    requires 0.0 <= x && 0.0 <= y
    ensures 0.0 <= x * y
  {
  }

  lemma Distribute(m: real, a: real, b: real)
    ensures m * (b - 10.0 * a) == m * b - 10.0 * (m * a) && (m - 1.0) * a == m * a - a
  {
  }

  lemma ClampDistorts(m: real, t: real, p: real, c: real, exact: real, kept: real)
    requires m >= 1.0 && 0.0 <= t < 1.0 && 0.0 < p && 0.0 < c
    requires 10.0 * p <= c || 10.0 * c <= p
    requires exact == (m + t) * p && kept == m * c
    ensures exact != kept
  {
    var y := m * p;
    Truncation(m, t, p, p, exact, y);
    if 10.0 * p <= c {
      ScaleTen(p, c, m, y, kept);
      FarBelow(exact, kept, y, p);
    } else {
      ScaleTen(c, p, m, kept, y);
      FarAbove(exact, kept, y, c);
    }
  }

  lemma FarBelow(exact: real, kept: real, y: real, p: real)
    requires 0.0 < p <= y && exact < y + p && 10.0 * y <= kept
    ensures exact < kept
  {
  }

  lemma FarAbove(exact: real, kept: real, y: real, c: real)
    requires 0.0 < c <= kept && 10.0 * kept <= y <= exact
    ensures kept < exact
  {
  }

  /** The result is the exact value precisely when the dropped digits are zeros and the
      exponent is not clamped (or there is nothing to scale). */
  lemma ExactIff(n: Numeral)
    ensures Computed(n) == Exact(n)
      <==> Value(Dropped(n)) == 0
           && (-MAX_EXPONENT <= CombinedExponent(n) <= MAX_EXPONENT || Value(Kept(n)) == 0)
  {
    hide TenTo;
    hide Magnitude;
    hide ComputedMagnitude;
    assert Computed(n) == Exact(n) <==> ComputedMagnitude(n) == Magnitude(n);
    MagnitudeExactIff(n);
  }

  lemma MagnitudeExactIff(n: Numeral)
    ensures ComputedMagnitude(n) == Magnitude(n)
      <==> Value(Dropped(n)) == 0
           && (-MAX_EXPONENT <= CombinedExponent(n) <= MAX_EXPONENT || Value(Kept(n)) == 0)
  {
    AmountIsZero(Kept(n));
    hide TenTo;
    hide Amount;
    hide Magnitude;
    hide Tail;
    MagnitudeByKept(n);
    TailRange(n);
    var e := CombinedExponent(n);
    ClampMovesApart(e);
    ExactlyWhen(Amount(Kept(n)), Tail(n), TenTo(e), TenTo(Clamped(e)), Magnitude(n), ComputedMagnitude(n),
        Clamped(e) == e);
  }

  lemma ClampMovesApart(e: int)
    ensures Clamped(e) == e || 10.0 * TenTo(e) <= TenTo(Clamped(e)) || 10.0 * TenTo(Clamped(e)) <= TenTo(e)
  {
    if e > MAX_EXPONENT {
      TenToGrows(MAX_EXPONENT, e);
    } else if e < -MAX_EXPONENT {
      TenToGrows(e, -MAX_EXPONENT);
    }
  }

  lemma ExactlyWhen(m: real, t: real, p: real, c: real, exact: real, kept: real, inRange: bool)
    requires 0.0 <= t < 1.0 && 0.0 < p && 0.0 < c && (m == 0.0 || 1.0 <= m)
    requires if inRange then c == p else 10.0 * p <= c || 10.0 * c <= p
    requires exact == (m + t) * p && kept == m * c
    ensures kept == exact <==> t == 0.0 && (inRange || m == 0.0)
  {
    if inRange {
      Truncation(m, t, p, c, exact, kept);
    } else if m == 0.0 {
      SignOfProduct(t, p);
    } else {
      ClampDistorts(m, t, p, c, exact, kept);
    }
  }

  lemma ValueWithoutMark(n: Numeral)
    requires WrittenExponent(n.exponent) == 0
    ensures Exact(n) == Exact(n.(exponent := NoExponent)) && Computed(n) == Computed(n.(exponent := NoExponent))
  {
    hide TenTo, Amount, Clamped;
    var plain := n.(exponent := NoExponent);
    assert WrittenExponent(plain.exponent) == 0;
    assert Kept(n) == Kept(plain) && CombinedExponent(n) == CombinedExponent(plain);
    assert Magnitude(n) == Magnitude(plain) && ComputedMagnitude(n) == ComputedMagnitude(plain);
  }

  /** An exponent mark without digits is taken as part of the number, sign included, and changes only where it ends. */
  lemma BareMarkMovesOnlyTheEnd(n: Numeral, rest: string)
    requires Shaped(n) && n.exponent.Exponent? && n.exponent.digits == []
    requires Delimits(n, At(rest, 0))
    ensures Read(Text(n) + rest) == n
    ensures var plain := n.(exponent := NoExponent);
      Exact(n) == Exact(plain) && Computed(n) == Computed(plain) && |Text(n)| > |Text(plain)|
  {
    ReadUndoesText(n, rest);
    hide Read, Exact, Computed, Delimits;
    assert WrittenExponent(n.exponent) == 0;
    ValueWithoutMark(n);
    assert |ExponentText(n.exponent)| > |ExponentText(NoExponent)|;
  }

  // ---------- leading zeros ----------

  function LeadingZeros(ds: Digits): (z: nat)
    ensures z <= |ds|
    ensures z < |ds| ==> ds[z] != '0'
  {
    if ds == [] || ds[0] != '0' then 0 else 1 + LeadingZeros(ds[1..])
  }

  lemma {:induction false} LeadingZerosJoin(a: Digits, b: Digits)
    ensures LeadingZeros(a + b) == if LeadingZeros(a) < |a| then LeadingZeros(a) else |a| + LeadingZeros(b)
  {
    if a == [] {
      assert a + b == b;
    } else {
      LeadingZerosJoin(a[1..], b);
      assert (a + b)[1..] == a[1..] + b;
    }
  }

  /** The first digit that is not zero weighs as much as its place says. */
  lemma {:induction false} FirstDigitWeighs(ds: Digits)
    requires LeadingZeros(ds) < |ds|
    ensures Amount(ds) >= TenTo(|ds| - 1 - LeadingZeros(ds))
  {
    var front, last := ds[..|ds| - 1], ds[|ds| - 1..];
    assert front + last == ds;
    LeadingZerosJoin(front, last);
    hide TenTo, Amount;
    ValueStep(ds);
    var z := LeadingZeros(ds);
    if z < |front| {
      FirstDigitWeighs(front);
      TenToStep(|front| - 1 - z);
    } else {
      assert Units(ds[z]) >= 1.0;
      AmountIsZero(front);
      TenToZero();
    }
  }

  lemma {:induction false} ZeroIff(ds: Digits)
    ensures Value(ds) == 0 <==> LeadingZeros(ds) == |ds|
  {
    if ds != [] {
      var front, last := ds[..|ds| - 1], ds[|ds| - 1..];
      assert front + last == ds;
      LeadingZerosJoin(front, last);
      ZeroIff(front);
      assert LeadingZeros(last) == 1 <==> last[0] == '0';
    }
  }

  lemma KeptAndDroppedZeros(n: Numeral)
    ensures |Kept(n)| == KeptCount(n) && |Kept(n)| + |Dropped(n)| == |AllDigits(n)|
    ensures LeadingZeros(AllDigits(n))
         == if LeadingZeros(Kept(n)) < |Kept(n)| then LeadingZeros(Kept(n)) else |Kept(n)| + LeadingZeros(Dropped(n))
    ensures Amount(Kept(n)) == 0.0 <==> LeadingZeros(Kept(n)) == |Kept(n)|
    ensures Value(Dropped(n)) == 0 <==> LeadingZeros(Dropped(n)) == |Dropped(n)|
  {
    hide LeadingZeros, Value, AllDigits;
    assert Kept(n) + Dropped(n) == AllDigits(n);
    LeadingZerosJoin(Kept(n), Dropped(n));
    ZeroIff(Kept(n));
    ZeroIff(Dropped(n));
    AmountIsZero(Kept(n));
  }

  lemma LostIff(m: real, t: real, p: real, c: real, exact: real, kept: real)
    requires 0.0 <= m && 0.0 <= t && 0.0 < p && 0.0 < c
    requires exact == (m + t) * p && kept == m * c
    ensures kept == 0.0 && exact != 0.0 <==> m == 0.0 && t != 0.0
  {
    SignOfProduct(m, c);
    SignOfProduct(m + t, p);
  }

  lemma MagnitudeLostIff(n: Numeral)
    ensures ComputedMagnitude(n) == 0.0 && Magnitude(n) != 0.0 <==> Amount(Kept(n)) == 0.0 && Value(Dropped(n)) != 0
  {
    AmountIsZero(Kept(n));
    hide TenTo, Amount, Magnitude, Tail, Kept, Dropped, Value, Clamped, CombinedExponent;
    MagnitudeByKept(n);
    TailRange(n);
    var e := CombinedExponent(n);
    LostIff(Amount(Kept(n)), Tail(n), TenTo(e), TenTo(Clamped(e)), Magnitude(n), ComputedMagnitude(n));
  }

  /** Zero comes out for a number that is not zero exactly when eighteen zeros lead and something else follows. */
  lemma ReadsAsZeroIff(n: Numeral)
    ensures Computed(n) == 0.0 && Exact(n) != 0.0
      <==> MAX_DIGITS <= LeadingZeros(AllDigits(n)) < |AllDigits(n)|
  {
    hide LeadingZeros, Amount, Magnitude, ComputedMagnitude, Kept, Dropped, Value, AllDigits;
    KeptAndDroppedZeros(n);
    MagnitudeLostIff(n);
  }

  /** 0.000000000000000001 */
  function OneAfterZeros(): Numeral {
    Numeral([], Unsigned, Mantissa("0", true, "000000000000000001"), NoExponent)
  }

  lemma OneAfterZerosText()
    ensures Text(OneAfterZeros()) == "0.000000000000000001"
  {
    PlainText(OneAfterZeros().mantissa);
    hide Text, IsDigit;
    assert "0" + (['.'] + "000000000000000001") == "0." + "000000000000000001" == "0.000000000000000001";
  }

  lemma PlainText(m: Mantissa)
    ensures Text(Numeral([], Unsigned, m, NoExponent)) == MantissaText(m)
  {
    hide MantissaText;
  }

  lemma OneAfterZerosDigits()
    ensures AllDigits(OneAfterZeros()) == "000000000000000000" + "1"
  {
    assert "0" + "000000000000000001" == "000000000000000000" + "1";
  }

  /** A number of nineteen digits, one of them significant, that is read as zero. */
  lemma LeadingZerosCanLoseANumber()
    ensures Text(OneAfterZeros()) == "0.000000000000000001"
    ensures Computed(OneAfterZeros()) == 0.0 && Exact(OneAfterZeros()) != 0.0
  {
    hide LeadingZeros, Computed, Exact, Text, AllDigits, OneAfterZeros;
    OneAfterZerosText();
    OneAfterZerosDigits();
    EighteenZeros();
    LeadingZerosJoin("000000000000000000", "1");
    assert LeadingZeros("1") == 0 by { NoZeroLeads(); }
    ReadsAsZeroIff(OneAfterZeros());
  }

  lemma NoZeroLeads()
    ensures LeadingZeros("1") == 0
  {
  }

  lemma EighteenZeros()
    ensures LeadingZeros("000000000000000000") == 18
  {
    var six: Digits := "000000";
    assert LeadingZeros(six) == 6;
    hide LeadingZeros;
    LeadingZerosJoin(six, six);
    LeadingZerosJoin(six + six, six);
    assert "000000000000000000" == six + six + six;
  }

  /** Every leading zero costs a digit: the relative error stays below 10^(z + 1 - kept). */
  lemma RelativeErrorByLeadingZeros(n: Numeral)
    requires -MAX_EXPONENT <= CombinedExponent(n) <= MAX_EXPONENT
    requires LeadingZeros(AllDigits(n)) < KeptCount(n)
    ensures (Magnitude(n) - ComputedMagnitude(n)) * TenTo(KeptCount(n) - 1 - LeadingZeros(AllDigits(n))) < Magnitude(n)
  {
    hide TenTo, Amount, Magnitude, ComputedMagnitude, Tail, LeadingZeros, Kept, Dropped, AllDigits, Value;
    KeptAndDroppedZeros(n);
    FirstDigitWeighs(Kept(n));
    MagnitudeByKept(n);
    TailRange(n);
    LongNumeralsAreTruncated(n);
    var w := TenTo(KeptCount(n) - 1 - LeadingZeros(AllDigits(n)));
    Outweighs(Magnitude(n) - ComputedMagnitude(n), Amount(Kept(n)) + Tail(n), TenTo(CombinedExponent(n)), w,
        Magnitude(n));
  }

  lemma Outweighs(error: real, m: real, p: real, w: real, exact: real)
    requires error < p && 0.0 < w <= m && 0.0 < p && exact == m * p
    ensures error * w < exact
  {
    SignOfProduct(p - error, w);
    NonNegative(m - w, p);
    assert (p - error) * w == p * w - error * w;
    assert (m - w) * p == exact - p * w;
  }

  // ---------- what the parts mean ----------

  function WithoutExponent(n: Numeral): Numeral { n.(exponent := NoExponent) }

  /** A written exponent moves the point: to the left behind a minus, to the right otherwise. */
  lemma ExponentScales(n: Numeral)
    requires n.exponent.Exponent?
    ensures var d := Value(n.exponent.digits);
      if n.exponent.sign.Minus? then Magnitude(n) * TenTo(d) == Magnitude(WithoutExponent(n))
      else Magnitude(n) == Magnitude(WithoutExponent(n)) * TenTo(d)
  {
    hide TenTo, Amount, Value;
    var d: int := Value(n.exponent.digits);
    var m := Amount(n.mantissa.whole) + Amount(n.mantissa.frac) / TenTo(|n.mantissa.frac|);
    TenToZero();
    TimesOne(m, TenTo(0));
    assert Magnitude(WithoutExponent(n)) == m * TenTo(0);
    if n.exponent.sign.Minus? {
      TenToSum(0 - d, d);
      Regroup(m, TenTo(0 - d), TenTo(d));
    }
  }

  lemma Regroup(m: real, x: real, y: real)
    requires x * y == 1.0
    ensures (m * x) * y == m
  {
    assert (m * x) * y == m * (x * y);
  }

  /** Digits behind the point count as many tens less as there are of them. */
  lemma PointScales(n: Numeral)
    requires n.exponent.NoExponent?
    ensures Magnitude(n) * TenTo(|n.mantissa.frac|) == Amount(AllDigits(n))
  {
    ValueConcat(n.mantissa.whole, n.mantissa.frac);
    hide TenTo, Amount, Value;
    var w, f, p := Amount(n.mantissa.whole), Amount(n.mantissa.frac), TenTo(|n.mantissa.frac|);
    TenToZero();
    TimesOne(w + f / p, TenTo(0));
    Unshift(w, f, p);
  }

  lemma Unshift(w: real, f: real, p: real)
    requires p > 0.0
    ensures (w + f / p) * p == w * p + f
  {
    var q := f / p;
    assert q * p == f;
    assert (w + q) * p == w * p + q * p;
  }

  /** A digit behind others is worth itself, and makes those worth ten times as much. */
  lemma DigitAppends(ds: Digits, c: char)
    requires IsDigit(c)
    ensures Value([]) == 0 && Value(ds + [c]) == 10 * Value(ds) + (c as int - '0' as int)
  {
    assert (ds + [c])[..|ds|] == ds;
  }

  /** A minus before the number turns its sign, of what is denoted and of what is computed; a plus does nothing. */
  lemma SignTurns(n: Numeral)
    ensures Exact(n.(sign := Minus)) == 0.0 - Exact(n.(sign := Unsigned))
    ensures Exact(n.(sign := Plus)) == Exact(n.(sign := Unsigned))
    ensures Computed(n.(sign := Minus)) == 0.0 - Computed(n.(sign := Unsigned))
    ensures Computed(n.(sign := Plus)) == Computed(n.(sign := Unsigned))
  {
    hide TenTo, Amount, Clamped;
    var m, p, u := n.(sign := Minus), n.(sign := Plus), n.(sign := Unsigned);
    assert Magnitude(m) == Magnitude(u) && Magnitude(p) == Magnitude(u);
    assert AllDigits(m) == AllDigits(u) && AllDigits(p) == AllDigits(u);
    assert ComputedMagnitude(m) == ComputedMagnitude(u) && ComputedMagnitude(p) == ComputedMagnitude(u);
  }

  /** Eighteen digits, and exponents to 511 either way; beyond, the nearest of these. */
  lemma Limits(n: Numeral, e: int)
    ensures KeptCount(n) == if |AllDigits(n)| <= 18 then |AllDigits(n)| else 18
    ensures Clamped(e) == if e > 511 then 511 else if e < -511 then -511 else e
    ensures CombinedExponent(n) > 511 ==> ComputedMagnitude(n) == Amount(AllDigits(n)[..KeptCount(n)]) * TenTo(511)
    ensures CombinedExponent(n) < -511 ==> ComputedMagnitude(n) == Amount(AllDigits(n)[..KeptCount(n)]) * TenTo(-511)
  {
    hide TenTo, Amount;
  }

  /** -12.5E-5 */
  function Sample(): Numeral {
    Numeral([], Minus, Mantissa("12", true, "5"), Exponent('E', Minus, "5"))
  }

  lemma SampleReads()
    ensures Text(Sample()) == "-12.5E-5" && Read("-12.5E-5") == Sample()
  {
    var n := Sample();
    assert MantissaText(n.mantissa) == "12.5" && ExponentText(n.exponent) == "E-5" && SignText(n.sign) == "-";
    assert Text(n) == "-12.5E-5";
    assert "-12.5E-5" + [] == "-12.5E-5";
    ReadUndoesText(n, []);
  }

  lemma SampleDigits()
    ensures Value("12") == 12 && Value("5") == 5 && Value("125") == 125
  {
    DigitAppends("1", '2');
    DigitAppends("", '1');
    DigitAppends("", '5');
    DigitAppends("12", '5');
    assert "" + "1" == "1" && "" + "5" == "5" && "1" + "2" == "12" && "12" + "5" == "125";
  }

  lemma TenToFive()
    ensures TenTo(5) == 100000.0 && TenTo(1) == 10.0
  {
    TenToZero();
    TenToStep(0);
    TenToStep(1);
    TenToStep(2);
    TenToStep(3);
    TenToStep(4);
  }

  /** "-12.5E-5" is read as -0.000125. */
  lemma SampleIsExact()
    ensures Computed(Read("-12.5E-5")) == -0.000125
  {
    hide Value, TenTo, Text, Read, Magnitude, ComputedMagnitude, Sample, AllDigits, KeptCount, CombinedExponent;
    SampleReads();
    SampleShape();
    ShortNumeralsAreExact(Sample());
    SampleMagnitude();
  }

  lemma SampleShape()
    ensures var n := Sample();
      && AllDigits(n) == "125" && -511 <= CombinedExponent(n) <= 511
      && n.sign.Minus? && n.exponent == Exponent('E', Minus, "5") && |n.mantissa.frac| == 1
  {
    assert "12" + "5" == "125";
    SampleDigits();
  }

  lemma SampleMagnitude()
    ensures Magnitude(Sample()) == 0.000125
  {
    hide Value, TenTo, Magnitude, Sample, AllDigits;
    var n := Sample();
    SampleShape();
    SampleDigits();
    TenToFive();
    ExponentScales(n);
    PointScales(WithoutExponent(n));
    assert AllDigits(WithoutExponent(n)) == AllDigits(n) by { SameDigits(n); }
    var m := Magnitude(n);
    assert m * 100000.0 * 10.0 == 125.0;
  }

  lemma SameDigits(n: Numeral)
    ensures AllDigits(WithoutExponent(n)) == AllDigits(n)
  {
  }
}
