/** CMP messages octet by octet: what stands where, and what a response must look like to be read. */
module CmpOctets {
  import opened Prelude
  import opened Der
  import opened Cmp

  // ---------- integers ----------

  /** Four octets, the lowest first, modulo 2^32. */
  lemma Int32IsLittleEndian(v: int32)
    ensures var b := Int32Bytes(v);
      b[0] as int + 0x100 * b[1] as int + 0x1_0000 * b[2] as int + 0x100_0000 * b[3] as int == v % 0x1_0000_0000
  {
    Base256(v % 0x1_0000_0000);
  }

  lemma Int32Octets()
    ensures Int32Bytes(0x01020304) == [4, 3, 2, 1]
    ensures Int32Bytes(13) == [13, 0, 0, 0] && Int32Bytes(0) == [0, 0, 0, 0]
  {
  }

  // ---------- requests ----------

  /** The message around a request's payload, length by length. */
  lemma MessageOctets(payload: bytes)
    requires |payload| == 152
    ensures Message(payload)
         == [0x30, 0x81, 0xA9] + [0x06, 0x09, 0x2A, 0x86, 0x48, 0x86, 0xF7, 0x0D, 0x01, 0x07, 0x01]
            + [0xA0, 0x81, 0x9B] + [0x04, 0x81, 0x98] + payload
  {
    var octets := DerOctetString(payload);
    assert octets == [0x04, 0x81, 0x98] + payload;
    var context := DerContextSpecific(0, octets);
    assert context == [0xA0, 0x81, 0x9B] + octets;
    assert Message(payload) == [0x30, 0x81, 0xA9] + (OID_PKCS7_DATA + context);
  }

  /** The arcs base-128 octets spell, behind those before. */
  function Arcs(b: bytes, arc: nat): seq<nat> {
    if b == [] then []
    else if b[0] >= 0x80 then Arcs(b[1..], 0x80 * arc + b[0] - 0x80)
    else [0x80 * arc + b[0]] + Arcs(b[1..], 0)
  }

  /** The octets spell 1.2.840.113549.1.7.1, its first two arcs as 40 times one and the other. */
  lemma IdentifierSpells()
    ensures Arcs(OID_PKCS7_DATA[2..], 0) == [40 * 1 + 2, 840, 113549, 1, 7, 1]
  {
    var b := OID_PKCS7_DATA[2..];
    assert b == [0x2A, 0x86, 0x48, 0x86, 0xF7, 0x0D, 0x01, 0x07, 0x01];
    ArcsTail();
    assert Arcs(b, 0) == [0x2A] + Arcs(b[1..], 0);
    assert b[1..] == [0x86, 0x48] + b[3..] && b[3..] == [0x86, 0xF7, 0x0D] + b[6..] && b[6..] == [0x01, 0x07, 0x01];
    TwoOctetArc(0x86, 0x48, b[3..]);
    ThreeOctetArc(0x86, 0xF7, 0x0D, b[6..]);
  }

  lemma ArcsTail()
    ensures Arcs([0x01, 0x07, 0x01], 0) == [1, 7, 1]
  {
    assert [0x01 as byte, 0x07, 0x01][1..] == [0x07, 0x01] && [0x07 as byte, 0x01][1..] == [0x01];
    assert [0x01 as byte][1..] == [];
    assert Arcs([0x01], 0) == [1] + Arcs([], 0);
    assert Arcs([0x07, 0x01], 0) == [7] + Arcs([0x01], 0);
  }

  lemma TwoOctetArc(x: byte, y: byte, rest: bytes)
    requires x >= 0x80 && y < 0x80
    ensures Arcs([x, y] + rest, 0) == [0x80 * (x - 0x80) + y] + Arcs(rest, 0)
  {
    var b := [x, y] + rest;
    assert b[1..] == [y] + rest && ([y] + rest)[1..] == rest;
  }

  lemma ThreeOctetArc(x: byte, y: byte, z: byte, rest: bytes)
    requires x >= 0x80 && y >= 0x80 && z < 0x80
    ensures Arcs([x, y, z] + rest, 0) == [0x4000 * (x - 0x80) + 0x80 * (y - 0x80) + z] + Arcs(rest, 0)
  {
    var b := [x, y, z] + rest;
    assert b[1..] == [y, z] + rest && ([y, z] + rest)[1..] == [z] + rest && ([z] + rest)[1..] == rest;
    var first: nat := x as int - 0x80;
    var both: nat := 0x80 * first + y as int - 0x80;
    assert Arcs(b, 0) == Arcs([y, z] + rest, first);
    assert Arcs([y, z] + rest, first) == Arcs([z] + rest, both);
    assert Arcs([z] + rest, both) == [0x80 * both + z] + Arcs(rest, 0);
  }

  /** The three flags of any request stand behind its slots and read back as they are. */
  lemma FlagsReadBack(req: Request)
    requires |req.keyIds| <= SLOTS && forall i :: 0 <= i < |req.keyIds| ==> |req.keyIds[i]| == SLOT_SIZE
    ensures var payload := Payload(req);
      && |payload| == 152
      && Int32At(payload, 140) == (if req.chain then 1 else 0)
      && Int32At(payload, 144) == (if req.includeAll then 1 else 0)
      && Int32At(payload, 148) == (if req.signResponse then 1 else 0)
  {
    hide Slots, Int32Bytes, Int32At;
    SlotsSize(req.keyIds, SLOTS);
    var a, b, c := FlagBytes(req.chain), FlagBytes(req.includeAll), FlagBytes(req.signResponse);
    var begin := Int32Bytes(RECORD_TYPE) + Int32Bytes(REQUEST_STATUS) + Int32Bytes(|req.keyIds|);
    var head := begin + Slots(req.keyIds, SLOTS);
    assert Payload(req) == head + a + (b + c);
    assert Payload(req) == (head + a) + b + c;
    assert Payload(req) == (head + a + b) + c + [];
    Int32ReadBack(head, if req.chain then 1 else 0, b + c);
    Int32ReadBack(head + a, if req.includeAll then 1 else 0, c);
    Int32ReadBack(head + a + b, if req.signResponse then 1 else 0, []);
  }

  /** The request the client makes sets no flag, and begins with type, status and count. */
  lemma RequestBegins(keyIds: seq<string>)
    requires PrepareRequest(keyIds).Ok? && |PrepareRequest(keyIds).value.keyIds| <= SLOTS
    ensures var req := PrepareRequest(keyIds).value;
      && !req.chain && !req.includeAll && !req.signResponse
      && Payload(req)[..12] == [13, 0, 0, 0, 0, 0, 0, 0, |req.keyIds|, 0, 0, 0]
  {
    hide PrepareKeyIds;
    var req := PrepareRequest(keyIds).value;
    assert Int32Bytes(|req.keyIds|) == [|req.keyIds|, 0, 0, 0];
    Int32Octets();
  }

  /** How many identifiers there may be, and how long each. */
  lemma RequestIff(keyIds: seq<string>)
    ensures |keyIds| < 1 || |keyIds| > 4 ==> PrepareRequest(keyIds) == Err(KeyCount)
    ensures PrepareRequest(keyIds).Ok? ==> 1 <= |keyIds| <= 4 && forall k :: k in keyIds ==> |k| == 40 || |k| == 64
    ensures PrepareRequest(keyIds).Ok? ==> |PrepareRequest(keyIds).value.keyIds| == |keyIds|
  {
    PreparedLengths(keyIds);
  }

  lemma {:induction false} PreparedLengths(keyIds: seq<string>)
    ensures PrepareKeyIds(keyIds).Ok? ==>
      |PrepareKeyIds(keyIds).value| == |keyIds| && forall k :: k in keyIds ==> |k| == 40 || |k| == 64
  {
    if keyIds != [] {
      PreparedLengths(keyIds[1..]);
      assert forall k :: k in keyIds ==> k == keyIds[0] || k in keyIds[1..];
    }
  }

  // ---------- responses ----------

  /** A response begins with type and status; what follows is the chain. */
  lemma ResponseOctets(kind: byte, status: byte, chain: bytes)
    requires kind < 0x80 && status < 0x80
    ensures Interpret([kind, 0, 0, 0, status, 0, 0, 0] + chain)
         == Ok(Response(kind, status, if chain == [] then None else Some(chain)))
  {
    var payload := [kind, 0, 0, 0, status, 0, 0, 0] + chain;
    assert payload[8..] == chain;
  }

  lemma TooShort(payload: bytes)
    ensures |payload| < 8 <==> Interpret(payload) == Err(PayloadTooShort)
  {
  }

  /** Where the parts of a response that is read stand. */
  datatype Places = Places(oid: int, context: int, octets: int, payload: int, size: int32)

  predicate AtPlaces(der: bytes, at: Places) {
    && 0 < at.oid < |der| && 0 <= at.context < |der| && 0 <= at.octets < |der|
    && der[0] == 0x30 && der[at.oid] == 0x06 && der[at.context] == 0xA0 && der[at.octets] == 0x04
    && LengthAt(der, 1).Ok? && LengthAt(der, 1).value.1 == at.oid
    && LengthAt(der, at.oid + 1).Ok?
    && Wrap32(LengthAt(der, at.oid + 1).value.1 + LengthAt(der, at.oid + 1).value.0) == at.context
    && LengthAt(der, at.context + 1).Ok? && LengthAt(der, at.context + 1).value.1 == at.octets
    && LengthAt(der, at.octets + 1) == Ok((at.size, at.payload))
    && 0 <= at.size && 0 <= at.payload && at.payload + at.size <= |der|
  }

  /** A response is read only with each of the four tags in its place, the identifier skipped by its length, and then
      it is what the octet string holds. */
  lemma ParseOkPlaces(der: bytes) returns (at: Places)
    requires Parse(der).Ok?
    ensures der != [] && AtPlaces(der, at)
    ensures Parse(der) == Interpret(der[at.payload..at.payload + at.size])
  {
    hide LengthAt, Interpret;
    var len1 := LengthAt(der, 1).value;
    var len2 := LengthAt(der, len1.1 + 1).value;
    var context: int := Wrap32(len2.1 + len2.0);
    var len3 := LengthAt(der, context + 1).value;
    var len4 := LengthAt(der, len3.1 + 1).value;
    at := Places(len1.1, context, len3.1, len4.1, len4.0);
    LengthAdvances(der, 1);
  }

  lemma LengthAdvances(der: bytes, pos: nat)
    ensures LengthAt(der, pos).Ok? ==> LengthAt(der, pos).value.1 > pos
  {
    if LengthAt(der, pos).Ok? && der[pos] >= 0x80 { OctetsAdvance(der, pos + 1, der[pos] - 0x80, 0); }
  }

  lemma NothingIsNoResponse()
    ensures Parse([]) == Err(EmptyResponse)
  {
  }

  /** What is wrong with an octet string that cannot be read: its size, its end, or that it is too short. */
  lemma PayloadErrors(der: bytes, pos: nat, length: int32)
    ensures ParsePayload(der, pos, length) == Err(NegativeSize) <==> length < 0
    ensures ParsePayload(der, pos, length) == Err(CopyOutOfRange) <==> length >= 0 && pos + length > |der|
    ensures ParsePayload(der, pos, length) == Err(PayloadTooShort) <==> 0 <= length < 8 && pos + length <= |der|
    ensures ParsePayload(der, pos, length).Ok? <==> length >= 8 && pos + length <= |der|
  {
  }
}
