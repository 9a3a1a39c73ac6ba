/** Uapki.Cmp.cs: the request a CMP server is sent and the response it returns. */
module Cmp {
  import opened Prelude
  import opened Der
  import Hex

  const RECORD_TYPE: int32 := 13
  const REQUEST_STATUS: int32 := 0
  const SLOTS := 4
  const SLOT_SIZE := 32

  /** OID 1.2.840.113549.1.7.1 in DER. */
  const OID_PKCS7_DATA: bytes := [0x06, 0x09, 0x2A, 0x86, 0x48, 0x86, 0xF7, 0x0D, 0x01, 0x07, 0x01]

  datatype Response = Response(kind: int32, status: int32, pkcs7Chain: Option<bytes>)

  datatype CmpError =
    | EmptyResponse
    | Malformed(der: DerError)
    | NegativeSize
    | CopyOutOfRange
    | PayloadTooShort
    | KeyCount
    | KeyIdLength
    | KeyIdText(hex: Hex.HexError)

  datatype Request = Request(keyIds: seq<bytes>, chain: bool, includeAll: bool, signResponse: bool)

  // ---------- 32-bit integers ----------

  /** BinaryWriter.Write(int) */
  function Int32Bytes(v: int32): (b: bytes)
    ensures |b| == 4
  {
    var u := v % 0x1_0000_0000;
    [u % 0x100, u / 0x100 % 0x100, u / 0x1_0000 % 0x100, u / 0x100_0000]
  }

  /** BitConverter.ToInt32 on a little-endian host */
  function Int32At(data: bytes, pos: nat): int32
    requires pos + 4 <= |data|
  {
    Wrap32(data[pos] as int + 0x100 * data[pos + 1] as int
           + 0x1_0000 * data[pos + 2] as int + 0x100_0000 * data[pos + 3] as int)
  }

  lemma Int32ReadBack(pre: bytes, v: int32, post: bytes)
    ensures Int32At(pre + Int32Bytes(v) + post, |pre|) == v
  {
    var u := v % 0x1_0000_0000;
    var data := pre + Int32Bytes(v) + post;
    var b := Int32Bytes(v);
    assert forall i :: 0 <= i < 4 ==> data[|pre| + i] == b[i];
    Base256(u);
  }

  lemma Base256(u: nat)
    ensures u == u % 0x100 + 0x100 * (u / 0x100 % 0x100)
               + 0x1_0000 * (u / 0x1_0000 % 0x100) + 0x100_0000 * (u / 0x100_0000)
  {
    ShiftedTwice(u);
    LastOctet(u);
    LastOctet(u / 0x100);
    LastOctet(u / 0x1_0000);
  }

  lemma LastOctet(u: nat)
    ensures u == 0x100 * (u / 0x100) + u % 0x100
  {
  }

  lemma ShiftedTwice(u: nat)
    ensures u / 0x100 / 0x100 == u / 0x1_0000 && u / 0x1_0000 / 0x100 == u / 0x100_0000
  {
    var a := u / 0x100;
    var b := a / 0x100;
    assert u == 0x1_0000 * b + (0x100 * (a % 0x100) + u % 0x100);
    assert u == 0x100_0000 * (b / 0x100) + (0x1_0000 * (b % 0x100) + 0x100 * (a % 0x100) + u % 0x100);
  }

  // ---------- messages ----------

  /** SEQUENCE { OID pkcs7-data, [0] { OCTET STRING payload } } */
  function Message(payload: bytes): bytes {
    DerSequence(OID_PKCS7_DATA + DerContextSpecific(0, DerOctetString(payload)))
  }

  function EmptySlot(): (b: bytes)
    ensures |b| == SLOT_SIZE && forall i :: 0 <= i < SLOT_SIZE ==> b[i] == 0
  {
    seq(SLOT_SIZE, _ => 0)
  }

  function Slot(keyIds: seq<bytes>, i: nat): bytes {
    if i < |keyIds| then keyIds[i] else EmptySlot()
  }

  function Slots(keyIds: seq<bytes>, n: nat): bytes {
    if n == 0 then [] else Slots(keyIds, n - 1) + Slot(keyIds, n - 1)
  }

  function FlagBytes(flag: bool): bytes { Int32Bytes(if flag then 1 else 0) }

  function Payload(req: Request): bytes
    requires |req.keyIds| <= MAX_INT
  {
    Int32Bytes(RECORD_TYPE) + Int32Bytes(REQUEST_STATUS) + Int32Bytes(|req.keyIds|) + Slots(req.keyIds, SLOTS)
    + FlagBytes(req.chain) + FlagBytes(req.includeAll) + FlagBytes(req.signResponse)
  }

  method BuildRequest(req: Request) returns (sequence: array<byte>)
    requires |req.keyIds| <= MAX_INT
    requires |Message(Payload(req))| + 5 <= MAX_INT
    ensures fresh(sequence) && sequence[..] == Message(Payload(req))
  {
    var ms := Int32Bytes(RECORD_TYPE);
    ms := ms + Int32Bytes(REQUEST_STATUS);
    ms := ms + Int32Bytes(|req.keyIds|);
    ghost var head := ms;
    for i := 0 to SLOTS
      invariant ms == head + Slots(req.keyIds, i)
    {
      if i < |req.keyIds| {
        ms := ms + req.keyIds[i];
      } else {
        ms := ms + EmptySlot();
      }
    }
    ms := ms + FlagBytes(req.chain);
    ms := ms + FlagBytes(req.includeAll);
    ms := ms + FlagBytes(req.signResponse);
    assert ms == Payload(req);
    sequence := WrapPayload(ms);
  }

  method WrapPayload(ms: bytes) returns (sequence: array<byte>)
    requires |Message(ms)| + 5 <= MAX_INT
    ensures fresh(sequence) && sequence[..] == Message(ms)
  {
    var payload := new byte[|ms|](i requires 0 <= i < |ms| => ms[i]);
    assert payload[..] == ms;
    var octetString := DerTLV(0x04, payload);
    var contextSpec := DerTLV(0xA0, octetString);
    var oid := new byte[|OID_PKCS7_DATA|](i requires 0 <= i < |OID_PKCS7_DATA| => OID_PKCS7_DATA[i]);
    assert oid[..] == OID_PKCS7_DATA;
    var inner := Concat(oid, contextSpec);
    sequence := DerTLV(0x30, inner);
  }

  /** The response in `der`, or what stops its reading. */
  function Parse(der: bytes): (r: Result<Response, CmpError>) {
    if der == [] then Err(EmptyResponse) else
    var tag1 := TagAt(der, 0, 0x30);
    if tag1.Err? then Err(Malformed(tag1.error)) else
    var len1 := LengthAt(der, tag1.value);
    if len1.Err? then Err(Malformed(len1.error)) else
    var tag2 := TagAt(der, len1.value.1, 0x06);
    if tag2.Err? then Err(Malformed(tag2.error)) else
    var len2 := LengthAt(der, tag2.value);
    if len2.Err? then Err(Malformed(len2.error)) else
    var tag3 := TagAt(der, Wrap32(len2.value.1 + len2.value.0), 0xA0);
    if tag3.Err? then Err(Malformed(tag3.error)) else
    var len3 := LengthAt(der, tag3.value);
    if len3.Err? then Err(Malformed(len3.error)) else
    var tag4 := TagAt(der, len3.value.1, 0x04);
    if tag4.Err? then Err(Malformed(tag4.error)) else
    var len4 := LengthAt(der, tag4.value);
    if len4.Err? then Err(Malformed(len4.error)) else
    ParsePayload(der, len4.value.1, len4.value.0)
  }

  function ParsePayload(der: bytes, pos: int, length: int32): (r: Result<Response, CmpError>) {
    if length < 0 then Err(NegativeSize)
    else if pos < 0 || pos + length > |der| then Err(CopyOutOfRange)
    else Interpret(der[pos..pos + length])
  }

  function Interpret(payload: bytes): (r: Result<Response, CmpError>) {
    if |payload| < 8 then Err(PayloadTooShort)
    else Ok(Response(Int32At(payload, 0), Int32At(payload, 4), if |payload| > 8 then Some(payload[8..]) else None))
  }

  method ParseResponse(der: array?<byte>) returns (r: Result<Response, CmpError>)
    ensures r == Parse(if der == null then [] else der[..])
  {
    if der == null || der.Length == 0 {
      return Err(EmptyResponse);
    }
    var p := ExpectTag(der, 0, 0x30);
    if p.Err? { return Err(Malformed(p.error)); }
    var l := ReadLength(der, p.value);
    if l.Err? { return Err(Malformed(l.error)); }
    p := ExpectTag(der, l.value.1, 0x06);
    if p.Err? { return Err(Malformed(p.error)); }
    l := ReadLength(der, p.value);
    if l.Err? { return Err(Malformed(l.error)); }
    var pos := Wrap32(l.value.1 + l.value.0);
    p := ExpectTag(der, pos, 0xA0);
    if p.Err? { return Err(Malformed(p.error)); }
    l := ReadLength(der, p.value);
    if l.Err? { return Err(Malformed(l.error)); }
    p := ExpectTag(der, l.value.1, 0x04);
    if p.Err? { return Err(Malformed(p.error)); }
    l := ReadLength(der, p.value);
    if l.Err? { return Err(Malformed(l.error)); }
    r := ReadPayload(der, l.value.1, l.value.0);
  }

  method ReadPayload(der: array<byte>, pos: int, payloadLen: int32) returns (r: Result<Response, CmpError>)
    ensures r == ParsePayload(der[..], pos, payloadLen)
  {
    if payloadLen < 0 {
      return Err(NegativeSize);
    }
    if pos < 0 || pos + payloadLen > der.Length {
      return Err(CopyOutOfRange);
    }
    var payload := der[pos..pos + payloadLen];
    if |payload| < 8 {
      return Err(PayloadTooShort);
    }
    var pPos := 0;
    var kind := Int32At(payload, pPos);
    pPos := pPos + 4;
    var status := Int32At(payload, pPos);
    pPos := pPos + 4;
    var pkcs7 := None;
    if pPos < |payload| {
      pkcs7 := Some(payload[pPos..]);
    }
    assert payload == der[..][pos..pos + payloadLen];
    return Ok(Response(kind, status, pkcs7));
  }

  // ---------- responses read back ----------

  function ResponsePayload(r: Response): bytes {
    Int32Bytes(r.kind) + Int32Bytes(r.status) + if r.pkcs7Chain.Some? then r.pkcs7Chain.value else []
  }

  lemma InterpretResponse(r: Response)
    requires r.pkcs7Chain.Some? ==> r.pkcs7Chain.value != []
    ensures Interpret(ResponsePayload(r)) == Ok(r)
  {
    var chain := if r.pkcs7Chain.Some? then r.pkcs7Chain.value else [];
    Int32ReadBack([], r.kind, Int32Bytes(r.status) + chain);
    Int32ReadBack(Int32Bytes(r.kind), r.status, chain);
    assert [] + Int32Bytes(r.kind) + (Int32Bytes(r.status) + chain) == ResponsePayload(r);
    assert ResponsePayload(r)[8..] == chain;
  }

  lemma OidReadBack(der: bytes, pos: nat, post: bytes)
    requires pos <= |der| && der[pos..] == OID_PKCS7_DATA + post
    ensures pos + 11 <= |der|
    ensures TagAt(der, pos, 0x06) == Ok(pos + 1)
    ensures LengthAt(der, pos + 1) == Ok((9, pos + 2))
    ensures der[pos + 11..] == post
  {
    assert |der[pos..]| == 11 + |post|;
    assert der[pos] == der[pos..][0] == 0x06;
    assert der[pos + 1] == der[pos..][1] == 0x09;
    assert der[pos + 11..] == der[pos..][11..] == post;
  }

  lemma ParseBySteps(der: bytes, n1: int32, q1: nat, n3: int32, q3: nat, n4: int32, q4: nat)
    requires der != [] && |der| <= MAX_INT && q1 + 11 <= |der|
    requires TagAt(der, 0, 0x30) == Ok(1) && LengthAt(der, 1) == Ok((n1, q1))
    requires TagAt(der, q1, 0x06) == Ok(q1 + 1) && LengthAt(der, q1 + 1) == Ok((9, q1 + 2))
    requires TagAt(der, q1 + 11, 0xA0) == Ok(q1 + 12) && LengthAt(der, q1 + 12) == Ok((n3, q3))
    requires TagAt(der, q3, 0x04) == Ok(q3 + 1) && LengthAt(der, q3 + 1) == Ok((n4, q4))
    ensures Parse(der) == ParsePayload(der, q4, n4)
  {
    hide TagAt, LengthAt, ParsePayload;
    assert Wrap32(q1 + 2 + 9) == q1 + 11;
  }

  /** The reader ignores every length but the OID's and the octet string's own. */
  lemma ParseMessage(payload: bytes)
    requires |Message(payload)| <= MAX_INT
    ensures Parse(Message(payload)) == Interpret(payload[..ReadsAs(|payload|)])
  {
    hide Tlv, DerLength, LengthAt, TagAt, Interpret, ReadsAs, Parse;
    var octets := DerOctetString(payload);
    var context := DerContextSpecific(0, octets);
    var inner := OID_PKCS7_DATA + context;
    var der := Message(payload);
    assert der[0..] == Tlv(0x30, inner) + [];
    TlvReadBack(der, 0, 0x30, inner, []);
    var q1 := 1 + |DerLength(|inner|)|;
    assert inner + [] == OID_PKCS7_DATA + context;
    OidReadBack(der, q1, context);
    assert context == Tlv(0xA0, octets) + [];
    TlvReadBack(der, q1 + 11, 0xA0, octets, []);
    var q3 := q1 + 12 + |DerLength(|octets|)|;
    assert octets + [] == Tlv(0x04, payload) + [];
    TlvReadBack(der, q3, 0x04, payload, []);
    var q4 := q3 + 1 + |DerLength(|payload|)|;
    ReadsAsIsNoMore(|payload|);
    ParseBySteps(der, ReadsAs(|inner|), q1, ReadsAs(|octets|), q3, ReadsAs(|payload|), q4);
    assert payload + [] == payload;
    assert der[q4..q4 + ReadsAs(|payload|)] == der[q4..][..ReadsAs(|payload|)];
  }

  lemma ReadsAsIsNoMore(n: nat)
    ensures ReadsAs(n) <= n
    ensures ReadsAs(n) == n <==> n < THREE_OCTETS
  {
  }

  /** The empty chain reads as none. */
  function Canonical(r: Response): Response {
    if r.pkcs7Chain == Some([]) then r.(pkcs7Chain := None) else r
  }

  /** A response of any type, status and chain is recovered exactly when its octet string stays below 2^24. */
  lemma ParseUndoesResponseIff(r: Response)
    requires |Message(ResponsePayload(r))| <= MAX_INT
    ensures Parse(Message(ResponsePayload(r))) == Ok(Canonical(r)) <==> |ResponsePayload(r)| < THREE_OCTETS
  {
    var payload := ResponsePayload(r);
    ParseMessage(payload);
    ReadsAsIsNoMore(|payload|);
    assert payload == ResponsePayload(Canonical(r));
    InterpretResponse(Canonical(r));
    if |payload| < THREE_OCTETS {
      assert payload[..|payload|] == payload;
    } else {
      ShorterPayloadDiffers(payload, ReadsAs(|payload|));
    }
  }

  lemma ShorterPayloadDiffers(payload: bytes, k: nat)
    requires 8 <= |payload| && k < |payload|
    ensures Interpret(payload[..k]) != Interpret(payload)
  {
    if 8 < k {
      assert |payload[..k][8..]| < |payload[8..]|;
    }
  }

  // ---------- requests ----------

  function PadRight(s: string, width: nat, fill: char): (r: string)
    ensures |s| <= width ==> |r| == width
  {
    if |s| >= width then s else s + seq(width - |s|, _ => fill)
  }

  function PrepareKeyId(keyId: string): Result<bytes, CmpError> {
    if |keyId| != 64 && |keyId| != 40 then Err(KeyIdLength)
    else
      match Hex.FromHex(PadRight(keyId, 64, '0'))
      case Ok(b) => Ok(b)
      case Err(e) => Err(KeyIdText(e))
  }

  /** The identifiers in order, or the first error. */
  function PrepareKeyIds(keyIds: seq<string>): Result<seq<bytes>, CmpError> {
    if keyIds == [] then Ok([])
    else
      match PrepareKeyId(keyIds[0])
      case Err(e) => Err(e)
      case Ok(b) =>
        match PrepareKeyIds(keyIds[1..])
        case Err(e) => Err(e)
        case Ok(rest) => Ok([b] + rest)
  }

  function PlainRequest(keyIds: seq<bytes>): Request { Request(keyIds, false, false, false) }

  function PrepareRequest(keyIds: seq<string>): Result<Request, CmpError> {
    if |keyIds| < 1 || |keyIds| > SLOTS then Err(KeyCount)
    else
      match PrepareKeyIds(keyIds)
      case Err(e) => Err(e)
      case Ok(ids) => Ok(PlainRequest(ids))
  }

  lemma {:induction false} PrepareAppends(done: seq<string>, next: string)
    requires PrepareKeyIds(done).Ok?
    ensures PrepareKeyId(next).Ok? ==>
              PrepareKeyIds(done + [next]) == Ok(PrepareKeyIds(done).value + [PrepareKeyId(next).value])
    ensures PrepareKeyId(next).Err? ==> PrepareKeyIds(done + [next]) == Err(PrepareKeyId(next).error)
  {
    hide PrepareKeyId;
    if done == [] {
      assert (done + [next])[1..] == [] && (done + [next])[0] == next;
      NothingToPrepare();
      if PrepareKeyId(next).Ok? {
        var b := PrepareKeyId(next).value;
        assert [b] + [] == [] + [b];
      }
    } else {
      assert (done + [next])[1..] == done[1..] + [next];
      PrepareAppends(done[1..], next);
      if PrepareKeyId(next).Ok? {
        var b, rest := PrepareKeyId(done[0]).value, PrepareKeyIds(done[1..]).value;
        assert [b] + (rest + [PrepareKeyId(next).value]) == ([b] + rest) + [PrepareKeyId(next).value];
      }
    }
  }

  lemma {:induction false} PrepareStops(done: seq<string>, rest: seq<string>)
    requires PrepareKeyIds(done).Err?
    ensures PrepareKeyIds(done + rest) == PrepareKeyIds(done)
  {
    hide PrepareKeyId;
    assert (done + rest)[1..] == done[1..] + rest;
    if PrepareKeyId(done[0]).Ok? {
      PrepareStops(done[1..], rest);
    }
  }

  method CmpRequest(keyIds: seq<string>) returns (r: Result<Request, CmpError>)
    ensures r == PrepareRequest(keyIds)
  {
    hide PrepareKeyIds, Hex.FromHex, PadRight;
    if |keyIds| < 1 || |keyIds| > 4 {
      return Err(KeyCount);
    }
    var bKeyIds: seq<bytes> := [];
    assert PrepareKeyIds(keyIds[..0]) == Ok(bKeyIds) by { NothingToPrepare(); }
    for i := 0 to |keyIds|
      invariant PrepareKeyIds(keyIds[..i]) == Ok(bKeyIds)
    {
      var keyId := keyIds[i];
      PrepareNext(keyIds, i);
      if |keyId| != 64 && |keyId| != 40 {
        return Err(KeyIdLength);
      }
      var b := Hex.FromHexString(PadRight(keyId, 64, '0'));
      if b.Err? {
        return Err(KeyIdText(b.error));
      }
      bKeyIds := bKeyIds + [b.value];
    }
    assert keyIds[..|keyIds|] == keyIds;
    return Ok(Request(bKeyIds, false, false, false));
  }

  lemma NothingToPrepare()
    ensures PrepareKeyIds([]) == Ok([])
  {
  }

  lemma PrepareNext(keyIds: seq<string>, i: nat)
    requires i < |keyIds| && PrepareKeyIds(keyIds[..i]).Ok?
    ensures var r := PrepareKeyId(keyIds[i]);
      if r.Ok? then PrepareKeyIds(keyIds[..i + 1]) == Ok(PrepareKeyIds(keyIds[..i]).value + [r.value])
      else PrepareKeyIds(keyIds) == Err(r.error)
  {
    hide PrepareKeyId, PrepareKeyIds;
    PrepareAppends(keyIds[..i], keyIds[i]);
    assert keyIds[..i + 1] == keyIds[..i] + [keyIds[i]];
    if PrepareKeyId(keyIds[i]).Err? {
      PrepareStops(keyIds[..i + 1], keyIds[i + 1..]);
      assert keyIds == keyIds[..i + 1] + keyIds[i + 1..];
    }
  }

  /** The slot a plain identifier fills: its own bytes, then zeros. */
  predicate IsSlotOf(keyId: string, slot: bytes) {
    && |slot| == SLOT_SIZE && |keyId| % 2 == 0 && |keyId| <= 64 && Hex.IsHex(keyId)
    && slot[..|keyId| / 2] == Hex.Decoded(keyId)
    && forall i :: |keyId| / 2 <= i < SLOT_SIZE ==> slot[i] == 0
  }

  /** An identifier of the right length fills a slot exactly when all its characters are hexadecimal. */
  lemma KeyIdFillsSlotIff(keyId: string)
    requires |keyId| == 64 || |keyId| == 40
    ensures var r := PrepareKeyId(keyId);
      && (Hex.IsHex(keyId) <==> r.Ok? && |r.value| == SLOT_SIZE)
      && (Hex.IsHex(keyId) ==> r.Ok? && IsSlotOf(keyId, r.value))
  {
    var padded := PadRight(keyId, 64, '0');
    assert forall i :: 0 <= i < |keyId| ==> padded[i] == keyId[i];
    assert Hex.N('0') == 0;
    if Hex.IsHex(keyId) {
      Hex.HexIsNotStripped(padded);
      PlainKeyIdSlot(keyId, padded);
    } else {
      var i :| 0 <= i < |keyId| && Hex.N(keyId[i]) < 0;
      assert Hex.N(padded[i]) < 0;
      SixtyFourSurvive(padded);
    }
  }

  lemma PlainKeyIdSlot(keyId: string, padded: string)
    requires |keyId| == 64 || |keyId| == 40
    requires padded == PadRight(keyId, 64, '0') && Hex.IsHex(keyId) && Hex.IsHex(padded)
    ensures IsSlotOf(keyId, Hex.Decoded(padded))
  {
    var slot := Hex.Decoded(padded);
    forall j | 0 <= j < SLOT_SIZE
      ensures if j < |keyId| / 2 then slot[j] == Hex.Decoded(keyId)[j] else slot[j] == 0
    {
      Hex.DecodedAt(padded, j);
      if j < |keyId| / 2 {
        Hex.DecodedAt(keyId, j);
      }
    }
  }

  /** All 64 characters are read as digits only if nothing is stripped. */
  lemma SixtyFourSurvive(padded: string)
    requires |padded| == 64 && !Hex.IsHex(padded)
    ensures var r := Hex.FromHex(padded); r.Ok? ==> |r.value| < SLOT_SIZE
  {
    if |Hex.Stripped(padded)| == 64 {
      StrippedWhole(padded);
    }
  }

  lemma StrippedWhole(s: string)
    requires |Hex.Stripped(s)| == |s|
    ensures Hex.Stripped(s) == s
  {
    assert Hex.TrimStart(s) == s;
    assert Hex.TrimEnd(s) == s;
  }

  lemma {:induction false} SlotsSize(keyIds: seq<bytes>, n: nat)
    requires forall i :: 0 <= i < |keyIds| ==> |keyIds[i]| == SLOT_SIZE
    ensures |Slots(keyIds, n)| == SLOT_SIZE * n
  {
    if n > 0 {
      SlotsSize(keyIds, n - 1);
    }
  }

  lemma {:induction false} SlotsAt(keyIds: seq<bytes>, n: nat, i: nat)
    requires forall i :: 0 <= i < |keyIds| ==> |keyIds[i]| == SLOT_SIZE
    requires i < n && |Slots(keyIds, n)| == SLOT_SIZE * n
    ensures Slots(keyIds, n)[SLOT_SIZE * i..SLOT_SIZE * i + SLOT_SIZE] == Slot(keyIds, i)
  {
    SlotsSize(keyIds, n - 1);
    var s, last := Slots(keyIds, n - 1), Slot(keyIds, n - 1);
    assert Slots(keyIds, n) == s + last;
    hide Slots, Slot;
    if i < n - 1 {
      SlotsAt(keyIds, n - 1, i);
      SliceOfFront(s, last, SLOT_SIZE * i, SLOT_SIZE * i + SLOT_SIZE);
    } else {
      SliceOfEnd(s, last);
    }
  }

  lemma SliceOfEnd(a: bytes, b: bytes)
    ensures (a + b)[|a|..|a| + |b|] == b
  {
  }

  lemma SliceOfFront(a: bytes, b: bytes, i: nat, j: nat)
    requires i <= j <= |a|
    ensures (a + b)[i..j] == a[i..j]
  {
  }

  lemma {:induction false} PreparedIds(keyIds: seq<string>)
    requires forall k :: k in keyIds ==> (|k| == 64 || |k| == 40) && Hex.IsHex(k)
    ensures var r := PrepareKeyIds(keyIds);
      && r.Ok? && |r.value| == |keyIds|
      && forall i :: 0 <= i < |keyIds| ==> IsSlotOf(keyIds[i], r.value[i])
  {
    hide PrepareKeyId, IsSlotOf, Hex.IsHex;
    if keyIds != [] {
      KeyIdFillsSlotIff(keyIds[0]);
      PreparedIds(keyIds[1..]);
    }
  }

  /** The i-th 32-byte slot of a request payload. */
  function SlotIn(payload: bytes, i: nat): bytes
    requires |payload| == 152 && i < SLOTS
  {
    payload[12 + 32 * i..44 + 32 * i]
  }

  function RequestPayload(keyIds: seq<string>): Option<bytes> {
    match PrepareRequest(keyIds)
    case Ok(req) => if |req.keyIds| <= MAX_INT then Some(Payload(req)) else None
    case Err(_) => None
  }

  /** Read with the response reader, a request for one to four plain identifiers shows what was put in. */
  lemma RequestReadsBack(keyIds: seq<string>)
    requires 1 <= |keyIds| <= SLOTS
    requires forall k :: k in keyIds ==> (|k| == 64 || |k| == 40) && Hex.IsHex(k)
    ensures RequestPayload(keyIds).Some?
    ensures var payload := RequestPayload(keyIds).value;
      && |payload| == 152
      && Parse(Message(payload)) == Ok(Response(13, 0, Some(payload[8..])))
      && Int32At(payload, 8) == |keyIds|
      && (forall i :: 0 <= i < |keyIds| ==> IsSlotOf(keyIds[i], SlotIn(payload, i)))
      && (forall i :: |keyIds| <= i < SLOTS ==> SlotIn(payload, i) == EmptySlot())
  {
    hide Payload, Parse, Message, IsSlotOf, Int32At, SlotIn, RequestPayload, Hex.IsHex;
    var ids := PreparedRequest(keyIds);
    PayloadLayout(ids);
    var payload := Payload(PlainRequest(ids));
    forall i | 0 <= i < SLOTS
      ensures SlotIn(payload, i) == Slot(ids, i)
    {
      PayloadSlot(ids, i);
    }
  }

  lemma PreparedRequest(keyIds: seq<string>) returns (ids: seq<bytes>)
    requires 1 <= |keyIds| <= SLOTS
    requires forall k :: k in keyIds ==> (|k| == 64 || |k| == 40) && Hex.IsHex(k)
    ensures |ids| == |keyIds| && forall i :: 0 <= i < |ids| ==> IsSlotOf(keyIds[i], ids[i]) && |ids[i]| == SLOT_SIZE
    ensures RequestPayload(keyIds) == Some(Payload(PlainRequest(ids)))
  {
    hide Payload, PrepareKeyIds, Hex.IsHex;
    PreparedIds(keyIds);
    ids := PrepareKeyIds(keyIds).value;
  }

  lemma PayloadLayout(ids: seq<bytes>)
    requires |ids| <= SLOTS && forall i :: 0 <= i < |ids| ==> |ids[i]| == SLOT_SIZE
    ensures var payload := Payload(PlainRequest(ids));
      && |payload| == 152
      && Parse(Message(payload)) == Ok(Response(13, 0, Some(payload[8..])))
      && Int32At(payload, 8) == |ids|
  {
    hide Slots, Int32Bytes, Parse, Message, Int32At;
    SlotsSize(ids, SLOTS);
    var payload := Payload(PlainRequest(ids));
    var rest := Slots(ids, SLOTS) + FlagBytes(false) + FlagBytes(false) + FlagBytes(false);
    var head := Int32Bytes(RECORD_TYPE) + Int32Bytes(REQUEST_STATUS);
    assert payload == head + Int32Bytes(|ids|) + rest;
    Int32ReadBack(head, |ids|, rest);
    assert payload == head + (Int32Bytes(|ids|) + rest);
    RequestParses(payload, Int32Bytes(|ids|) + rest);
  }

  lemma PayloadSlot(ids: seq<bytes>, i: nat)
    requires |ids| <= SLOTS && i < SLOTS && forall i :: 0 <= i < |ids| ==> |ids[i]| == SLOT_SIZE
    requires |Payload(PlainRequest(ids))| == 152
    ensures SlotIn(Payload(PlainRequest(ids)), i) == Slot(ids, i)
  {
    hide Slots, Int32Bytes, Slot;
    SlotsSize(ids, SLOTS);
    SlotsAt(ids, SLOTS, i);
    var slots := Slots(ids, SLOTS);
    var payload := Payload(PlainRequest(ids));
    var flags := FlagBytes(false) + FlagBytes(false) + FlagBytes(false);
    assert payload[12..] == slots + flags;
    SliceOfFront(slots, flags, 32 * i, 32 * i + 32);
    assert payload[12 + 32 * i..44 + 32 * i] == payload[12..][32 * i..32 * i + 32];
  }

  lemma RequestParses(payload: bytes, rest: bytes)
    requires payload == Int32Bytes(RECORD_TYPE) + Int32Bytes(REQUEST_STATUS) + rest
    requires 0 < |rest| < 1000
    ensures Parse(Message(payload)) == Ok(Response(13, 0, Some(payload[8..])))
  {
    hide Int32Bytes, Parse;
    var r := Response(RECORD_TYPE, REQUEST_STATUS, Some(rest));
    assert payload == ResponsePayload(r);
    MessageSize(payload);
    ParseUndoesResponseIff(r);
    assert payload[8..] == rest;
  }

  lemma MessageSize(payload: bytes)
    ensures |Message(payload)| <= |payload| + 26
  {
  }
}
