/**
  Two hand-written DER readers: the RSA branch of PublicKeyBits in Uapki.Cert.cs and
  GetKeyParameterByValue in Uapki.DstuParameters.cs.
 */
module KeyReaders {
  import opened Prelude
  import opened X690
  import opened Der
  import opened DstuTables

  datatype ReadError = OutOfBounds | CopyOutOfRange | UnsupportedParameter

  /** Octets of a sequence header: tag, first length octet, and those it announces. */
  function AfterHeader(second: byte): nat {
    2 + if second >= 0x80 then second % 0x10 else 0
  }

  // ---------- RSA key size ----------

  /** What is made of the octets from the length octets of the first element on. */
  function BitsFrom(raw: bytes, at: nat): Result<int, ReadError> {
    if at >= |raw| then Err(OutOfBounds)
    else
      var long := raw[at] >= 0x80;
      var lenLen: nat := if long then raw[at] % 0x10 else 1;
      var offset := if long then at + 1 else at;
      if offset >= |raw| || (lenLen == 2 && offset + 1 >= |raw|) || offset + lenLen >= |raw| then Err(OutOfBounds)
      else
        var first := raw[offset] as int * 8;
        var bits := if lenLen == 2 then first * 256 + raw[offset + 1] as int * 8 else first;
        Ok(if raw[offset + lenLen] == 0 then bits - 8 else bits)
  }

  function RsaBits(raw: bytes): Result<int, ReadError> {
    if |raw| < 2 then Err(OutOfBounds) else BitsFrom(raw, AfterHeader(raw[1]) + 1)
  }

  method RsaPublicKeyBits(raw: array<byte>) returns (r: Result<int, ReadError>)
    ensures r == RsaBits(raw[..])
  {
    if raw.Length < 2 {
      return Err(OutOfBounds);
    }
    var offset := 2;
    var lenLen := 1;
    if raw[1] >= 0x80 {
      offset := offset + raw[1] % 0x10;
    }
    offset := offset + 1;
    if offset >= raw.Length {
      return Err(OutOfBounds);
    }
    if raw[offset] >= 0x80 {
      lenLen := raw[offset] % 0x10;
      offset := offset + 1;
    }
    if offset >= raw.Length {
      return Err(OutOfBounds);
    }
    var pkBits := raw[offset] as int * 8;
    if lenLen == 2 {
      if offset + 1 >= raw.Length {
        return Err(OutOfBounds);
      }
      pkBits := pkBits * 256;
      pkBits := pkBits + raw[offset + 1] as int * 8;
    }
    if offset + lenLen >= raw.Length {
      return Err(OutOfBounds);
    }
    if raw[offset + lenLen] == 0 {
      pkBits := pkBits - 8;
    }
    return Ok(pkBits);
  }

  datatype KeyAlgo = Dstu4145 | Ecdsa | Rsa | UnsupportedAlgo

  /** The whole getter. A point is an octet for its form and then one coordinate, or two behind 0x04. */
  function KeyBits(algo: KeyAlgo, raw: bytes): Result<int, ReadError> {
    match algo
    case Dstu4145 => Ok(Wrap32(|raw| * 8))
    case Ecdsa =>
      var bits := Wrap32((|raw| - 1) * 8);
      if raw == [] then Err(OutOfBounds) else Ok(if raw[0] == 0x04 then bits / 2 else bits)
    case Rsa => RsaBits(raw)
    case UnsupportedAlgo => Ok(0)
  }

  method PublicKeyBits(algo: KeyAlgo, raw: array<byte>) returns (r: Result<int, ReadError>)
    ensures r == KeyBits(algo, raw[..])
  {
    hide RsaBits;
    if algo == Dstu4145 {
      return Ok(Wrap32(raw.Length * 8));
    } else if algo == Ecdsa {
      var pkBits: int := Wrap32((raw.Length - 1) * 8);
      if raw.Length == 0 {
        return Err(OutOfBounds);
      }
      if raw[0] == 0x04 {
        pkBits := pkBits / 2;
      }
      return Ok(pkBits);
    } else if algo == Rsa {
      r := RsaPublicKeyBits(raw);
      return;
    }
    return Ok(0);
  }

  /** A DSTU 4145 key has eight times its octets, exactly as far as the product stays in an int; others none. */
  lemma PlainBitsIff(raw: bytes)
    requires |raw| <= MAX_INT
    ensures KeyBits(Dstu4145, raw) == Ok(8 * |raw|) <==> |raw| < 0x1000_0000
    ensures KeyBits(UnsupportedAlgo, raw) == Ok(0)
  {
  }

  /** Both forms of one point have the size of its first coordinate, exactly as far as the product stays in an int. */
  lemma PointBitsIff(form: byte, x: bytes, y: bytes)
    requires form == 0x02 || form == 0x03
    requires |x| == |y| && 2 * |x| + 1 <= MAX_INT
    ensures KeyBits(Ecdsa, [form] + x) == Ok(8 * |x|) <==> |x| < 0x1000_0000
    ensures KeyBits(Ecdsa, [0x04] + x + y) == Ok(8 * |x|) <==> |x| < 0x0800_0000
  {
    assert |[0x04] + x + y| == 2 * |x| + 1 && ([0x04] + x + y)[0] == 0x04;
  }

  /** Octets of an INTEGER's content without the one that only keeps it non-negative. */
  function MagnitudeOctets(content: bytes): nat
    requires content != []
  {
    if content[0] == 0 then |content| - 1 else |content|
  }

  lemma HeaderReads(n: nat, rest: bytes)
    requires rest != []
    ensures AfterHeader((DerLength(n) + rest)[0]) == 1 + |DerLength(n)|
  {
  }

  lemma BitsOfInteger(pre: bytes, content: bytes, rest: bytes)
    requires content != []
    ensures BitsFrom(pre + DerLength(|content|) + content + rest, |pre|) == Ok(8 * MagnitudeOctets(content))
      <==> |content| < 0x1_0000
  {
    var n := |content|;
    var d := DerLength(n);
    var raw := pre + d + content + rest;
    assert forall i :: 0 <= i < |d| ==> raw[|pre| + i] == d[i];
    assert raw[|pre| + |d|] == content[0];
    if n < 0x80 {
      assert raw[|pre|] == n;
    } else if n <= 0xFF {
      assert raw[|pre|] == 0x81 && raw[|pre| + 1] == n;
    } else if n <= 0xFFFF {
      assert raw[|pre|] == 0x82 && raw[|pre| + 1] == n / 0x100 && raw[|pre| + 2] == n % 0x100;
      assert n == n / 0x100 * 0x100 + n % 0x100;
    } else {
      assert raw[|pre|] == 0x83;
    }
  }

  /** For a SEQUENCE that starts with an INTEGER of any size, the reader returns eight times its
      magnitude octets exactly when the content has fewer than 65536 octets, whatever follows. */
  lemma RsaBitsIff(content: bytes, rest: bytes)
    requires content != []
    ensures RsaBits(DerSequence(Tlv(0x02, content) + rest)) == Ok(8 * MagnitudeOctets(content))
      <==> |content| < 0x1_0000
  {
    hide DerLength, BitsFrom;
    var inner := Tlv(0x02, content) + rest;
    var raw := DerSequence(inner);
    var d := DerLength(|inner|);
    HeaderReads(|inner|, inner);
    assert raw[1..] == d + inner;
    assert raw[1] == (d + inner)[0];
    var pre := [0x30] + d + [0x02];
    assert raw == pre + DerLength(|content|) + content + rest;
    BitsOfInteger(pre, content, rest);
  }

  lemma {:induction false} BigEndianRange(b: bytes)
    ensures BigEndian(b) < Power256(|b|)
    ensures b != [] && b[0] != 0 ==> Power256(|b| - 1) <= BigEndian(b)
  {
    if b != [] {
      BigEndianRange(b[..|b| - 1]);
    }
  }

  lemma {:induction false} BigEndianLeadingZero(b: bytes)
    requires b != [] && b[0] == 0
    ensures BigEndian(b) == BigEndian(b[1..])
  {
    if |b| > 1 {
      BigEndianLeadingZero(b[..|b| - 1]);
      assert b[..|b| - 1][1..] == b[1..][..|b| - 2];
    } else {
      OneOctet(b);
    }
  }

  /** DER writes a non-negative INTEGER with no more octets than it needs. */
  predicate MinimalNonNegative(content: bytes) {
    && content != []
    && content[0] < 0x80
    && (content[0] == 0 && |content| > 1 ==> content[1] >= 0x80)
  }

  /** The magnitude octets are the least number of octets that hold the value. */
  lemma MagnitudeIsLeast(content: bytes)
    requires MinimalNonNegative(content)
    ensures var m := MagnitudeOctets(content);
      BigEndian(content) < Power256(m) && (m > 0 ==> Power256(m - 1) <= BigEndian(content))
  {
    BigEndianRange(content);
    if content[0] == 0 {
      BigEndianLeadingZero(content);
      BigEndianRange(content[1..]);
    }
  }

  // ---------- DSTU 4145 parameters ----------

  datatype KeyParameter = M233Pb | M257Pb | M307Pb | M367Pb | M431Pb

  function OidParameter(a: bytes): Option<KeyParameter> {
    if a == M233PbOid() then Some(M233Pb)
    else if a == M257PbOid() then Some(M257Pb)
    else if a == M307PbOid() then Some(M307Pb)
    else if a == M367PbOid() then Some(M367Pb)
    else if a == M431PbOid() then Some(M431Pb)
    else None
  }

  function ElementParameter(a: bytes): Option<KeyParameter> {
    if a == M233PbOid() || a == M233PbLe() || a == M233PbBe() then Some(M233Pb)
    else if a == M257PbOid() || a == M257PbLe() || a == M257PbBe() then Some(M257Pb)
    else if a == M307PbOid() || a == M307PbLe() || a == M307PbBe() then Some(M307Pb)
    else if a == M367PbOid() || a == M367PbLe() || a == M367PbBe() then Some(M367Pb)
    else if a == M431PbOid() || a == M431PbLe() || a == M431PbBe() then Some(M431Pb)
    else None
  }

  function OrUnsupported(p: Option<KeyParameter>): Result<KeyParameter, ReadError> {
    match p case Some(k) => Ok(k) case None => Err(UnsupportedParameter)
  }

  /** The first element of a sequence, as far as its own length octets say. */
  function FirstElement(value: bytes): Result<bytes, ReadError> {
    if |value| < 2 then Err(OutOfBounds)
    else
      var offset := AfterHeader(value[1]);
      if offset + 1 >= |value| then Err(OutOfBounds)
      else if value[offset + 1] == 0x81 && offset + 2 >= |value| then Err(OutOfBounds)
      else
        var size := if value[offset + 1] == 0x81 then value[offset + 2] as int + 3 else value[offset + 1] as int + 2;
        if offset + size > |value| then Err(CopyOutOfRange) else Ok(value[offset..offset + size])
  }

  function KeyParameterOf(value: bytes): Result<KeyParameter, ReadError> {
    if value == [] then Err(OutOfBounds)
    else if value[0] == 0x06 then OrUnsupported(OidParameter(value))
    else if value[0] == 0x30 then
      match FirstElement(value)
      case Err(e) => Err(e)
      case Ok(a) => OrUnsupported(ElementParameter(a))
    else Err(UnsupportedParameter)
  }

  method TakeFirstItem(value: array<byte>) returns (r: Result<bytes, ReadError>)
    ensures r == FirstElement(value[..])
  {
    if value.Length < 2 {
      return Err(OutOfBounds);
    }
    var offset := 2;
    if value[1] >= 0x80 {
      offset := offset + value[1] % 0x10;
    }
    if offset + 1 >= value.Length {
      return Err(OutOfBounds);
    }
    var size: int;
    if value[offset + 1] == 0x81 {
      if offset + 2 >= value.Length {
        return Err(OutOfBounds);
      }
      size := value[offset + 2] as int + 3;
    } else {
      size := value[offset + 1] as int + 2;
    }
    if offset + size > value.Length {
      return Err(CopyOutOfRange);
    }
    var a := Cut(value, offset, size);
    return Ok(a);
  }

  method Cut(value: array<byte>, offset: nat, size: nat) returns (item: bytes)
    requires offset + size <= value.Length
    ensures item == value[..][offset..offset + size]
  {
    var a := new byte[size];
    CopyInto(value[offset..offset + size], a, 0);
    assert a[..] == value[..][offset..offset + size];
    return a[..];
  }

  method GetKeyParameterByValue(value: array<byte>) returns (r: Result<KeyParameter, ReadError>)
    ensures r == KeyParameterOf(value[..])
  {
    hide OidParameter, ElementParameter, FirstElement;
    if value.Length == 0 {
      return Err(OutOfBounds);
    }
    if value[0] == 0x06 {
      return OrUnsupported(OidParameter(value[..]));
    }
    if value[0] == 0x30 {
      var a := TakeFirstItem(value);
      if a.Err? {
        return Err(a.error);
      }
      return OrUnsupported(ElementParameter(a.value));
    }
    return Err(UnsupportedParameter);
  }

  /** The first element is cut out whole, whatever follows it, exactly if it has fewer than 256 content octets. */
  lemma FirstElementIff(tag: byte, v: bytes, rest: bytes)
    ensures FirstElement(DerSequence(Tlv(tag, v) + rest)) == Ok(Tlv(tag, v)) <==> |v| < 0x100
  {
    var x := Tlv(tag, v);
    FirstElementCut(x, rest);
    SecondOctet(tag, v);
  }

  /** How long the reader takes an element to be that begins as `x` does. */
  function TakenSize(x: bytes): nat
    requires |x| >= 2
  {
    if x[1] == 0x81 && |x| >= 3 then x[2] as int + 3 else x[1] as int + 2
  }

  lemma SecondOctet(tag: byte, v: bytes)
    ensures var x := Tlv(tag, v);
      && |x| >= 2 && (x[1] == 0x81 ==> |x| >= 3)
      && (TakenSize(x) == |x| <==> |v| < 0x100)
      && (|v| >= 0x100 ==> (x[1] == 0x82 || x[1] == 0x83) && TakenSize(x) < |x|)
  {
    var d := DerLength(|v|);
    var x := Tlv(tag, v);
    assert x[1] == d[0] && (|d| > 1 ==> x[2] == d[1]);
  }

  /** What is cut out of a sequence that begins with `x`. */
  lemma FirstElementCut(x: bytes, rest: bytes)
    requires |x| >= 2 && (x[1] == 0x81 ==> |x| >= 3)
    ensures FirstElement(DerSequence(x + rest))
         == if TakenSize(x) > |x + rest| then Err(CopyOutOfRange) else Ok((x + rest)[..TakenSize(x)])
    ensures TakenSize(x) <= |x| ==> (x + rest)[..TakenSize(x)] == x[..TakenSize(x)]
  {
    hide DerLength;
    var inner := x + rest;
    var value := DerSequence(inner);
    var d := DerLength(|inner|);
    HeaderReads(|inner|, inner);
    assert value[1..] == d + inner;
    assert value[1] == (d + inner)[0];
    var offset := 1 + |d|;
    assert value[offset..] == inner;
    assert value[offset + 1] == inner[1] == x[1];
    assert |x| >= 3 ==> value[offset + 2] == inner[2] == x[2];
    if TakenSize(x) <= |inner| {
      assert value[offset..offset + TakenSize(x)] == inner[..TakenSize(x)];
    }
  }

  /** The supported encodings of each field. */
  function Supported(p: KeyParameter): set<bytes> {
    match p
    case M233Pb => {M233PbOid(), M233PbLe(), M233PbBe()}
    case M257Pb => {M257PbOid(), M257PbLe(), M257PbBe()}
    case M307Pb => {M307PbOid(), M307PbLe(), M307PbBe()}
    case M367Pb => {M367PbOid(), M367PbLe(), M367PbBe()}
    case M431Pb => {M431PbOid(), M431PbLe(), M431PbBe()}
  }

  lemma OidShapes()
    ensures forall x :: x in {M233PbOid(), M257PbOid(), M307PbOid(), M367PbOid(), M431PbOid()} ==>
              |x| == 15 && x[1] == 0x0D && x[0] == 0x06
    ensures M233PbOid()[14] == 5 && M257PbOid()[14] == 6 && M307PbOid()[14] == 7 && M367PbOid()[14] == 8
        && M431PbOid()[14] == 9
  {
  }

  lemma LeShapes()
    ensures |M233PbLe()| == 118 && M233PbLe()[1] == 0x74
    ensures |M257PbLe()| == 119 && M257PbLe()[1] == 0x75
    ensures |M307PbLe()| == 146 && M307PbLe()[1] == 0x81 && M307PbLe()[2] == 0x8F
    ensures |M367PbLe()| == 159 && M367PbLe()[1] == 0x81 && M367PbLe()[2] == 0x9C
    ensures |M431PbLe()| == 191 && M431PbLe()[1] == 0x81 && M431PbLe()[2] == 0xBC
  {
  }

  lemma BeShapes()
    ensures |M233PbBe()| == 118 && M233PbBe()[1] == 0x74
    ensures |M257PbBe()| == 119 && M257PbBe()[1] == 0x75
    ensures |M307PbBe()| == 146 && M307PbBe()[1] == 0x81 && M307PbBe()[2] == 0x8F
    ensures |M367PbBe()| == 159 && M367PbBe()[1] == 0x81 && M367PbBe()[2] == 0x9C
    ensures |M431PbBe()| == 191 && M431PbBe()[1] == 0x81 && M431PbBe()[2] == 0xBC
  {
  }

  /** Each field's encodings are recognised as that field and no other. */
  lemma ElementParameterIff(x: bytes, p: KeyParameter)
    ensures ElementParameter(x) == Some(p) <==> x in Supported(p)
    ensures x in Supported(p) ==> 2 <= |x| < 0x100 && x[1] <= 0x81
  {
    hide M233PbOid, M257PbOid, M307PbOid, M367PbOid, M431PbOid, M233PbLe, M257PbLe, M307PbLe, M367PbLe, M431PbLe,
         M233PbBe, M257PbBe, M307PbBe, M367PbBe, M431PbBe;
    OidShapes();
    LeShapes();
    BeShapes();
  }

  /** What is cut out of an element that is too long for the reader is no field's encoding. */
  lemma LongElementNamesNothing(tag: byte, v: bytes, p: KeyParameter)
    requires |v| >= 0x100
    ensures var x := Tlv(tag, v);
      2 <= TakenSize(x) <= |x| && ElementParameter(x[..TakenSize(x)]) != Some(p) && x !in Supported(p)
  {
    hide Supported, ElementParameter, Tlv;
    SecondOctet(tag, v);
    var x := Tlv(tag, v);
    ElementParameterIff(x, p);
    ElementParameterIff(x[..TakenSize(x)], p);
  }

  /** SEQUENCE { element, anything } names exactly the field the element encodes, however long the element is. */
  lemma SequenceNamesField(tag: byte, v: bytes, rest: bytes, p: KeyParameter)
    ensures KeyParameterOf(DerSequence(Tlv(tag, v) + rest)) == Ok(p) <==> Tlv(tag, v) in Supported(p)
  {
    hide Supported, ElementParameter, FirstElement, Tlv, TakenSize, DerSequence, KeyParameterOf;
    var x := Tlv(tag, v);
    ClassifiedByFirst(x + rest);
    FirstElementIff(tag, v, rest);
    ElementParameterIff(x, p);
    if |v| >= 0x100 {
      LongElementNamesNothing(tag, v, p);
      SecondOctet(tag, v);
      FirstElementCut(x, rest);
    }
  }

  lemma ClassifiedByFirst(inner: bytes)
    ensures KeyParameterOf(DerSequence(inner)) ==
      match FirstElement(DerSequence(inner))
      case Err(e) => Err(e)
      case Ok(a) => OrUnsupported(ElementParameter(a))
  {
    hide FirstElement, ElementParameter, DerLength;
    assert DerSequence(inner) != [] && DerSequence(inner)[0] == 0x30;
  }

  /** A bare identifier names exactly the field it names inside a sequence. */
  lemma IdentifierNamesField(x: bytes, p: KeyParameter)
    requires x != [] && x[0] == 0x06
    ensures KeyParameterOf(x) == Ok(p) <==> x in Supported(p)
  {
    OidParameterIff(x, p);
    hide OidParameter, Supported;
  }

  lemma OidParameterIff(x: bytes, p: KeyParameter)
    requires x != [] && x[0] == 0x06
    ensures OidParameter(x) == Some(p) <==> x in Supported(p)
  {
    hide M233PbOid, M257PbOid, M307PbOid, M367PbOid, M431PbOid, M233PbLe, M257PbLe, M307PbLe, M367PbLe, M431PbLe,
         M233PbBe, M257PbBe, M307PbBe, M367PbBe, M431PbBe;
    OidShapes();
    LeShapes();
    BeShapes();
    LeDegrees();
    BeDegrees();
  }

  /** The degree of the field an element says it is over: the first number in its inner sequence. */
  function DegreeIn(x: bytes): nat
    requires |x| >= 9
  {
    if x[1] == 0x81 then BigEndian(x[7..9]) else BigEndian(x[6..8])
  }

  function Degree(p: KeyParameter): nat {
    match p case M233Pb => 233 case M257Pb => 257 case M307Pb => 307 case M367Pb => 367 case M431Pb => 431
  }

  /** What an element is taken for is the field whose degree it states, or whose place its identifier has. */
  lemma ElementStatesField(x: bytes, p: KeyParameter)
    requires x in Supported(p)
    ensures x[0] == 0x30 ==> |x| >= 9 && DegreeIn(x) == Degree(p)
    ensures x[0] == 0x06 ==> |x| == 15 && x[14] == Place(p)
    ensures x[0] == 0x30 || x[0] == 0x06
  {
    hide M233PbOid, M257PbOid, M307PbOid, M367PbOid, M431PbOid, M233PbLe, M257PbLe, M307PbLe, M367PbLe, M431PbLe,
         M233PbBe, M257PbBe, M307PbBe, M367PbBe, M431PbBe, BigEndian;
    OidShapes();
    LeShapes();
    BeShapes();
    LeDegrees();
    BeDegrees();
  }

  /** The last arc of the identifiers 1.2.804.2.1.1.1.1.3.1.1.2.5 to 9. */
  function Place(p: KeyParameter): nat {
    match p case M233Pb => 5 case M257Pb => 6 case M307Pb => 7 case M367Pb => 8 case M431Pb => 9
  }

  predicate States(x: bytes, degree: nat) {
    |x| >= 9 && x[0] == 0x30 && DegreeIn(x) == degree
  }

  lemma LeDegrees()
    ensures States(M233PbLe(), 233) && States(M257PbLe(), 257) && States(M307PbLe(), 307)
    ensures States(M367PbLe(), 367) && States(M431PbLe(), 431)
  {
    TwoOctets(M233PbLe()[6..8]);
    TwoOctets(M257PbLe()[6..8]);
    TwoOctets(M307PbLe()[7..9]);
    TwoOctets(M367PbLe()[7..9]);
    TwoOctets(M431PbLe()[7..9]);
  }

  lemma BeDegrees()
    ensures States(M233PbBe(), 233) && States(M257PbBe(), 257) && States(M307PbBe(), 307)
    ensures States(M367PbBe(), 367) && States(M431PbBe(), 431)
  {
    TwoOctets(M233PbBe()[6..8]);
    TwoOctets(M257PbBe()[6..8]);
    TwoOctets(M307PbBe()[7..9]);
    TwoOctets(M367PbBe()[7..9]);
    TwoOctets(M431PbBe()[7..9]);
  }

  /** Anything that is neither an identifier nor a sequence is refused, and so is what names no field. */
  lemma OthersAreRefused(x: bytes)
    ensures x == [] ==> KeyParameterOf(x) == Err(OutOfBounds)
    ensures x != [] && x[0] != 0x06 && x[0] != 0x30 ==> KeyParameterOf(x) == Err(UnsupportedParameter)
    ensures x != [] && x[0] == 0x06 && OidParameter(x).None? ==> KeyParameterOf(x) == Err(UnsupportedParameter)
  {
    hide OidParameter, ElementParameter, FirstElement;
  }
}
