/** Uapki.Cmp.cs: DER tags and lengths, written and read. */
module Der {
  import opened Prelude

  const MAX_INT := 0x7FFF_FFFF
  const THREE_OCTETS := 0x100_0000

  datatype DerError = EndOfData | WrongTag(at: int) | IndexOutOfRange

  /** Length octets; from 2^24 on the high octet is cut off. */
  function DerLength(length: nat): (b: bytes)
    ensures 1 <= |b| <= 4
  {
    if length < 0x80 then [length]
    else if length <= 0xFF then [0x81, length]
    else if length <= 0xFFFF then [0x82, length / 0x100, length % 0x100]
    else [0x83, length / 0x1_0000 % 0x100, length / 0x100 % 0x100, length % 0x100]
  }

  function Tlv(tag: byte, value: bytes): (b: bytes)
    ensures |b| == 1 + |DerLength(|value|)| + |value|
  {
    [tag] + DerLength(|value|) + value
  }

  function DerSequence(inner: bytes): bytes { Tlv(0x30, inner) }

  function DerOctetString(value: bytes): bytes { Tlv(0x04, value) }

  function DerContextSpecific(n: nat, inner: bytes): bytes
    requires n < 0x20
  {
    Tlv(0xA0 + n, inner)
  }

  /** Copies `from` over `to[at..]`. */
  method CopyInto(from: bytes, to: array<byte>, at: nat)
    requires at + |from| <= to.Length
    modifies to
    ensures to[..] == old(to[..at]) + from + old(to[at + |from|..])
  {
    forall i | 0 <= i < |from| {
      to[at + i] := from[i];
    }
  }

  method DerTLV(tag: byte, value: array<byte>) returns (result: array<byte>)
    requires value.Length + 5 <= MAX_INT
    ensures fresh(result) && result[..] == Tlv(tag, value[..])
  {
    var len := DerLength(value.Length);
    ghost var v := value[..];
    result := new byte[1 + |len| + value.Length];
    result[0] := tag;
    CopyInto(len, result, 1);
    CopyInto(value[..], result, 1 + |len|);
    assert result[..] == [tag] + len + v;
  }

  method Concat(a: array<byte>, b: array<byte>) returns (result: array<byte>)
    requires a.Length + b.Length <= MAX_INT
    ensures fresh(result) && result[..] == a[..] + b[..]
  {
    result := new byte[a.Length + b.Length];
    CopyInto(a[..], result, 0);
    CopyInto(b[..], result, a.Length);
  }

  // ---------- reading ----------

  /** Appends `count` octets to `length`, in a 32-bit register. */
  function ReadOctets(data: bytes, pos: int, count: nat, length: int32): (r: Result<(int32, int), DerError>)
    decreases count
  {
    if count == 0 then Ok((length, pos))
    else if pos < 0 || pos >= |data| then Err(IndexOutOfRange)
    else ReadOctets(data, pos + 1, count - 1, ShiftIn(length, data[pos]))
  }

  /** (length << 8) | octet */
  function ShiftIn(length: int32, octet: byte): (r: int32)
    ensures 0 <= length < 0x80_0000 ==> r == length * 0x100 + octet
  {
    var shifted := Wrap32(length * 0x100);
    assert shifted % 0x100 == 0;
    shifted + octet
  }

  function LengthAt(data: bytes, pos: int): (r: Result<(int32, int), DerError>) {
    if pos >= |data| then Err(EndOfData)
    else if pos < 0 then Err(IndexOutOfRange)
    else if data[pos] < 0x80 then Ok((data[pos], pos + 1))
    else ReadOctets(data, pos + 1, data[pos] - 0x80, 0)
  }

  function TagAt(data: bytes, pos: int, expected: byte): (r: Result<int, DerError>) {
    if pos >= |data| then Err(EndOfData)
    else if pos < 0 then Err(IndexOutOfRange)
    else if data[pos] != expected then Err(WrongTag(pos))
    else Ok(pos + 1)
  }

  method ExpectTag(data: array<byte>, pos: int, expected: byte) returns (r: Result<int, DerError>)
    ensures r == TagAt(data[..], pos, expected)
  {
    if pos >= data.Length {
      return Err(EndOfData);
    }
    if pos < 0 {
      return Err(IndexOutOfRange);
    }
    if data[pos] != expected {
      return Err(WrongTag(pos));
    }
    return Ok(pos + 1);
  }

  method ReadLength(data: array<byte>, start: int) returns (r: Result<(int32, int), DerError>)
    ensures r == LengthAt(data[..], start)
  {
    if start >= data.Length {
      return Err(EndOfData);
    }
    if start < 0 {
      return Err(IndexOutOfRange);
    }
    var first := data[start];
    var pos := start + 1;
    if first < 0x80 {
      return Ok((first, pos));
    }
    var numBytes := first - 0x80;
    var length: int32 := 0;
    for i := 0 to numBytes
      invariant start < pos
      invariant LengthAt(data[..], start) == ReadOctets(data[..], pos, numBytes - i, length)
    {
      if pos >= data.Length {
        return Err(IndexOutOfRange);
      }
      length := ShiftIn(length, data[pos]);
      pos := pos + 1;
    }
    return Ok((length, pos));
  }

  // ---------- laws ----------

  function BigEndian(b: bytes): nat {
    if b == [] then 0 else 0x100 * BigEndian(b[..|b| - 1]) + b[|b| - 1]
  }

  lemma OctetsSpelledOut(data: bytes, pos: nat, count: nat)
    requires count <= 3 && pos + count <= |data|
    ensures ReadOctets(data, pos, count, 0) == Ok((BigEndian(data[pos..pos + count]), pos + count))
    ensures BigEndian(data[pos..pos + count]) <= if count == 0 then 0 else if count == 1 then 0xFF
        else if count == 2 then 0xFFFF else 0xFF_FFFF
  {
    hide ReadOctets, BigEndian, ShiftIn;
    var b := data[pos..pos + count];
    ReadStep(data, pos, count, 0);
    if count == 0 {
      NoOctet(b);
    } else if count == 1 {
      OneOctet(b);
      ReadStep(data, pos + 1, 0, ShiftIn(0, data[pos]));
    } else if count == 2 {
      TwoOctets(b);
      ReadStep(data, pos + 1, 1, data[pos]);
      ReadStep(data, pos + 2, 0, ShiftIn(data[pos], data[pos + 1]));
    } else {
      ThreeOctets(b);
      ReadStep(data, pos + 1, 2, data[pos]);
      ReadStep(data, pos + 2, 1, ShiftIn(data[pos], data[pos + 1]));
      ReadStep(data, pos + 3, 0, ShiftIn(ShiftIn(data[pos], data[pos + 1]), data[pos + 2]));
    }
  }

  lemma ReadStep(data: bytes, pos: nat, count: nat, length: int32)
    requires pos + count <= |data|
    ensures ReadOctets(data, pos, count, length)
         == if count == 0 then Ok((length, pos)) else ReadOctets(data, pos + 1, count - 1, ShiftIn(length, data[pos]))
  {
  }

  lemma NoOctet(b: bytes)
    requires b == []
    ensures BigEndian(b) == 0
  {
  }

  lemma OneOctet(b: bytes)
    requires |b| == 1
    ensures BigEndian(b) == b[0]
  {
    assert b[..0] == [];
  }

  lemma TwoOctets(b: bytes)
    requires |b| == 2
    ensures BigEndian(b) == b[0] as int * 0x100 + b[1] as int
  {
    OneOctet(b[..1]);
  }

  lemma ThreeOctets(b: bytes)
    requires |b| == 3
    ensures BigEndian(b) == b[0] as int * 0x1_0000 + b[1] as int * 0x100 + b[2] as int
  {
    TwoOctets(b[..2]);
  }

  /** What the written length octets say. */
  function ReadsAs(n: nat): nat {
    if n <= 0xFFFF then n else n % THREE_OCTETS
  }

  lemma LowOctets(n: nat)
    ensures n % THREE_OCTETS == n / 0x1_0000 % 0x100 * 0x1_0000 + n / 0x100 % 0x100 * 0x100 + n % 0x100
  {
    var q0 := n / 0x100;
    var q1 := n / 0x1_0000;
    var q2 := q1 / 0x100;
    assert q0 == 0x100 * q1 + q0 % 0x100;
    assert n == THREE_OCTETS * q2 + (q1 % 0x100 * 0x1_0000 + q0 % 0x100 * 0x100 + n % 0x100);
  }

  lemma WrittenOctets(n: nat)
    requires n >= 0x80
    ensures BigEndian(DerLength(n)[1..]) == ReadsAs(n)
    ensures DerLength(n)[0] == 0x80 + |DerLength(n)| - 1
  {
    var b := DerLength(n)[1..];
    if n <= 0xFF {
      OneOctet(b);
    } else if n <= 0xFFFF {
      TwoOctets(b);
    } else {
      ThreeOctets(b);
      LowOctets(n);
    }
  }

  lemma LengthOctetsAt(data: bytes, pos: nat, n: nat)
    requires pos + |DerLength(n)| <= |data|
    requires data[pos..pos + |DerLength(n)|] == DerLength(n)
    ensures LengthAt(data, pos) == Ok((ReadsAs(n), pos + |DerLength(n)|))
  {
    hide BigEndian, ReadOctets;
    var d := data[pos..pos + |DerLength(n)|];
    assert data[pos] == d[0];
    if n >= 0x80 {
      WrittenOctets(n);
      hide DerLength, ReadsAs;
      OctetsSpelledOut(data, pos + 1, |d| - 1);
      assert data[pos + 1..pos + |d|] == d[1..];
    }
  }

  /** At any position the reader consumes the octets and returns the length modulo 2^24. */
  lemma LengthReadBack(pre: bytes, n: nat, post: bytes)
    ensures LengthAt(pre + DerLength(n) + post, |pre|) == Ok((ReadsAs(n), |pre| + |DerLength(n)|))
  {
    hide DerLength, LengthAt;
    var data := pre + DerLength(n) + post;
    assert data[|pre|..|pre| + |DerLength(n)|] == DerLength(n);
    LengthOctetsAt(data, |pre|, n);
  }

  /** Reading undoes writing exactly below 2^24. */
  lemma ReadLengthUndoesIff(pre: bytes, n: nat, post: bytes)
    ensures LengthAt(pre + DerLength(n) + post, |pre|) == Ok((n, |pre| + |DerLength(n)|)) <==> n < THREE_OCTETS
  {
    LengthReadBack(pre, n, post);
  }

  /** No octets the reader takes for `n` are fewer than those written. */
  lemma DerLengthIsShortest(data: bytes, pos: nat, n: nat, end: int)
    requires n < THREE_OCTETS && LengthAt(data, pos) == Ok((n, end))
    ensures |DerLength(n)| <= end - pos
  {
    if data[pos] >= 0x80 {
      var count := data[pos] - 0x80;
      OctetsAdvance(data, pos + 1, count, 0);
      if count <= 2 {
        OctetsSpelledOut(data, pos + 1, count);
      }
    }
  }

  lemma {:induction false} OctetsAdvance(data: bytes, pos: nat, count: nat, length: int32)
    requires ReadOctets(data, pos, count, length).Ok?
    ensures ReadOctets(data, pos, count, length).value.1 == pos + count
    ensures pos + count <= |data| || count == 0
    decreases count
  {
    if count > 0 {
      OctetsAdvance(data, pos + 1, count - 1, ShiftIn(length, data[pos]));
    }
  }

  lemma DerLengthIsPrefixFree(a: nat, b: nat, x: bytes, y: bytes)
    requires a < THREE_OCTETS && b < THREE_OCTETS
    requires DerLength(a) + x == DerLength(b) + y
    ensures a == b && x == y
  {
    hide DerLength, LengthAt;
    LengthReadBack([], a, x);
    LengthReadBack([], b, y);
    assert [] + DerLength(a) + x == DerLength(a) + x;
    assert [] + DerLength(b) + y == DerLength(b) + y;
    CutFront(DerLength(a), x, y);
  }

  lemma CutFront(d: bytes, x: bytes, y: bytes)
    requires d + x == d + y
    ensures x == y
  {
    assert x == (d + x)[|d|..];
    assert y == (d + y)[|d|..];
  }

  /** Wherever an encoding starts, the reader sees the tag, then the length, and stops at the value. */
  lemma TlvReadBack(data: bytes, pos: nat, tag: byte, value: bytes, post: bytes)
    requires pos <= |data| && data[pos..] == Tlv(tag, value) + post
    ensures var at := pos + 1 + |DerLength(|value|)|;
      && at <= |data|
      && TagAt(data, pos, tag) == Ok(pos + 1)
      && LengthAt(data, pos + 1) == Ok((ReadsAs(|value|), at))
      && data[at..] == value + post
  {
    hide DerLength, LengthAt;
    var d := DerLength(|value|);
    var pre := data[..pos] + [tag];
    assert data == data[..pos] + data[pos..];
    assert data == pre + d + (value + post);
    LengthReadBack(pre, |value|, value + post);
    assert data[pos] == tag;
    assert data[pos + 1 + |d|..] == value + post;
  }

  /** Tag-length-value encodings of bounded size can be told apart and cut off the front. */
  lemma TlvIsPrefixFree(tag: byte, a: bytes, b: bytes, x: bytes, y: bytes)
    requires |a| < THREE_OCTETS && |b| < THREE_OCTETS
    requires Tlv(tag, a) + x == Tlv(tag, b) + y
    ensures a == b && x == y
  {
    hide DerLength;
    var da, db := DerLength(|a|), DerLength(|b|);
    assert [tag] + (da + (a + x)) == Tlv(tag, a) + x;
    assert [tag] + (db + (b + y)) == Tlv(tag, b) + y;
    CutFront([tag], da + (a + x), db + (b + y));
    DerLengthIsPrefixFree(|a|, |b|, a + x, b + y);
    assert a == (a + x)[..|a|] && b == (b + y)[..|b|];
    CutFront(a, x, y);
  }

  /** The first and last length of every form, and one whose octets differ. */
  lemma LengthExamples()
    ensures DerLength(0) == [0] && DerLength(0x7F) == [0x7F] && DerLength(0x80) == [0x81, 0x80]
    ensures DerLength(0xFF) == [0x81, 0xFF] && DerLength(0x100) == [0x82, 0x01, 0x00]
    ensures DerLength(0x1234) == [0x82, 0x12, 0x34] && DerLength(0x12_3456) == [0x83, 0x12, 0x34, 0x56]
  {
  }

  /** Tag, length, value, and the tags of the three kinds. */
  lemma TlvInOrder(tag: byte, value: bytes)
    ensures Tlv(tag, value)[0] == tag && Tlv(tag, value)[1..] == DerLength(|value|) + value
    ensures DerSequence(value) == Tlv(0x30, value) && DerOctetString(value) == Tlv(0x04, value)
    ensures DerContextSpecific(0, value) == Tlv(0xA0, value)
  {
  }

  // ---------- long lengths ----------

  function Shifted(length: int, data: bytes, pos: nat, count: nat): int
    requires pos + count <= |data|
    decreases count
  {
    if count == 0 then length else Shifted(length * 0x100 + data[pos], data, pos + 1, count - 1)
  }

  lemma WrapAgain(x: int, k: int)
    ensures Wrap32(x + k * 0x1_0000_0000) == Wrap32(x)
  {
  }

  lemma ShiftInWraps(length: int32, octet: byte)
    ensures ShiftIn(length, octet) == Wrap32(length * 0x100 + octet)
  {
    var shifted := Wrap32(length * 0x100);
    var k := (length * 0x100 - shifted) / 0x1_0000_0000;
    assert length * 0x100 == shifted + k * 0x1_0000_0000;
    WrapAgain(shifted + octet, k);
  }

  /** Registers that agree modulo 2^32 go on agreeing. */
  lemma {:induction false} ShiftedWraps(length: int, data: bytes, pos: nat, count: nat)
    requires pos + count <= |data|
    ensures ReadOctets(data, pos, count, Wrap32(length)) == Ok((Wrap32(Shifted(length, data, pos, count)), pos + count))
    decreases count
  {
    if count > 0 {
      hide Wrap32, ShiftIn;
      ShiftInWraps(Wrap32(length), data[pos]);
      WrapsThenShifts(length, data[pos]);
      ShiftedWraps(length * 0x100 + data[pos], data, pos + 1, count - 1);
    }
  }

  lemma WrapsThenShifts(length: int, octet: byte)
    ensures Wrap32(Wrap32(length) * 0x100 + octet) == Wrap32(length * 0x100 + octet)
  {
    var low := Wrap32(length);
    var k := (length - low) / 0x1_0000_0000;
    assert length == low + k * 0x1_0000_0000;
    WrapAgain(low * 0x100 + octet, 0x100 * k);
  }

  /** However many length octets there are, the last four are what counts, and the sign comes out of them. */
  lemma LongLengthWraps(data: bytes, pos: nat)
    requires pos < |data| && data[pos] >= 0x80 && pos + 1 + data[pos] - 0x80 <= |data|
    ensures var count := data[pos] - 0x80;
      LengthAt(data, pos) == Ok((Wrap32(Shifted(0, data, pos + 1, count)), pos + 1 + count))
  {
    ShiftedWraps(0, data, pos + 1, data[pos] - 0x80);
  }
}
