/**
  ArchiveTs3Helper of archive-timestamp-helper.cpp: the hash an archive timestamp (version 3)
  is requested for, section 5.5.3 of ETSI EN 319 122-1.
 */
module ArchiveTimestamp {
  import opened Prelude
  import opened Der
  import opened X690

  type HashAlg = nat

  const HASH_ALG_UNDEFINED: HashAlg := 0

  datatype AlgorithmId = AlgorithmId(oid: string, encoded: bytes)

  datatype Ret = RetOk | InvalidParameter | Failed(step: nat)

  /** The functions of the crypto and ASN.1 libraries the helper calls. */
  datatype Library = Library(
    hashFromOid: string -> HashAlg,
    encodeOid: string -> Option<bytes>,
    hash: (HashAlg, bytes) -> Option<bytes>,
    encodeIndex: (AlgorithmId, seq<bytes>, seq<bytes>, seq<bytes>) -> Option<bytes>)

  datatype HelperState = HelperState(
    algorithm: Option<AlgorithmId>, hashAlgo: HashAlg,
    certHashes: seq<bytes>, crlHashes: seq<bytes>, attrHashes: seq<bytes>,
    contentType: Option<bytes>, hashContent: Option<bytes>, signerInfo: Option<bytes>, atsHashIndex: Option<bytes>,
    hashValue: Option<bytes>)

  // ---------- what each operation does ----------

  /** The digest to append; absent data is skipped silently. */
  function Digest(lib: Library, alg: HashAlg, data: Option<bytes>): (seq<bytes>, Ret) {
    if data.None? then ([], RetOk)
    else
      match lib.hash(alg, data.value)
      case Some(h) => ([h], RetOk)
      case None => ([], Failed(1))
  }

  /** The bytes that are hashed, once all parts are there. */
  function HashInput(st: HelperState, index: bytes): Option<bytes> {
    if st.contentType.None? || st.hashContent.None? || st.signerInfo.None? then None
    else Some(st.contentType.value + st.hashContent.value + st.signerInfo.value + index)
  }

  /** The bytes calcHash gets as far as hashing. */
  function Hashed(lib: Library, st: HelperState): Option<bytes>
    requires st.algorithm.Some?
  {
    if |st.algorithm.value.oid| < 2 then None
    else
      match lib.encodeIndex(st.algorithm.value, st.certHashes, st.crlHashes, st.attrHashes)
      case None => None
      case Some(index) => HashInput(st, index)
  }

  function Calc(lib: Library, st: HelperState): (HelperState, Ret)
    requires st.algorithm.Some?
  {
    if |st.algorithm.value.oid| < 2 then (st, InvalidParameter)
    else
      match lib.encodeIndex(st.algorithm.value, st.certHashes, st.crlHashes, st.attrHashes)
      case None => (st, Failed(2))
      case Some(index) =>
        var st1 := st.(atsHashIndex := Some(index));
        match HashInput(st, index)
        case None => (st1, InvalidParameter)
        case Some(input) =>
          match lib.hash(st.hashAlgo, input)
          case None => (st1, Failed(3))
          case Some(h) => (st1.(hashValue := Some(h)), RetOk)
  }

  function SetContent(lib: Library, st: HelperState, oid: string, content: Option<bytes>): (HelperState, Ret) {
    if oid == "" || content.None? then (st, InvalidParameter)
    else if lib.encodeOid(oid).None? then (st, Failed(4))
    else (st.(contentType := lib.encodeOid(oid), hashContent := content), RetOk)
  }

  function SetSigner(st: HelperState, encoded: Option<bytes>): (HelperState, Ret) {
    if encoded.None? then (st, InvalidParameter) else (st.(signerInfo := encoded), RetOk)
  }

  // ---------- the code ----------

  class ArchiveTs3Helper {
    const lib: Library
    var m_HashIndAlgorithm: Option<AlgorithmId>
    var m_HashAlgo: HashAlg
    var certHashes: seq<bytes>
    var crlHashes: seq<bytes>
    var unsignedAttrHashes: seq<bytes>
    var contentType: Option<bytes>
    var hashContent: Option<bytes>
    var signerInfo: Option<bytes>
    var atsHashIndex: Option<bytes>
    var m_HashValue: Option<bytes>

    function State(): HelperState
      reads this
    {
      HelperState(m_HashIndAlgorithm, m_HashAlgo, certHashes, crlHashes, unsignedAttrHashes,
                  contentType, hashContent, signerInfo, atsHashIndex, m_HashValue)
    }

    constructor (lib: Library)
      ensures this.lib == lib
      ensures State() == HelperState(None, HASH_ALG_UNDEFINED, [], [], [], None, None, None, None, None)
    {
      this.lib := lib;
      m_HashIndAlgorithm, m_HashAlgo := None, HASH_ALG_UNDEFINED;
      certHashes, crlHashes, unsignedAttrHashes := [], [], [];
      contentType, hashContent, signerInfo, atsHashIndex, m_HashValue := None, None, None, None, None;
    }

    method Init(algorithm: Option<AlgorithmId>) returns (ret: Ret)
      modifies this
      ensures var named := algorithm.Some? && algorithm.value.oid != "";
        var alg := if named then lib.hashFromOid(algorithm.value.oid) else old(m_HashAlgo);
        && ret == (if algorithm.Some? && alg == HASH_ALG_UNDEFINED then InvalidParameter else RetOk)
        && State() == old(State()).(hashAlgo := alg,
             algorithm := if algorithm.Some? && alg != HASH_ALG_UNDEFINED then algorithm else old(m_HashIndAlgorithm))
    {
      if algorithm.Some? {
        if algorithm.value.oid != "" {
          m_HashAlgo := lib.hashFromOid(algorithm.value.oid);
        }
        if m_HashAlgo == HASH_ALG_UNDEFINED {
          return InvalidParameter;
        }
        m_HashIndAlgorithm := algorithm;
      }
      return RetOk;
    }

    method SetHashContent(oid: string, content: Option<bytes>) returns (ret: Ret)
      modifies this
      ensures (State(), ret) == SetContent(lib, old(State()), oid, content)
    {
      if oid == "" || content.None? {
        return InvalidParameter;
      }
      var encoded := lib.encodeOid(oid);
      if encoded.None? {
        return Failed(4);
      }
      contentType := encoded;
      hashContent := content;
      return RetOk;
    }

    /** `encoded` is the signer information without its unsigned attributes. */
    method SetSignerInfo(encoded: Option<bytes>) returns (ret: Ret)
      modifies this
      ensures (State(), ret) == SetSigner(old(State()), encoded)
    {
      if encoded.None? {
        return InvalidParameter;
      }
      signerInfo := encoded;
      return RetOk;
    }

    method AddCertificate(data: Option<bytes>) returns (ret: Ret)
      modifies this
      ensures (State(), ret) == AddTo(lib, old(State()), Cert, data)
    {
      var d := Digest(lib, m_HashAlgo, data);
      certHashes, ret := certHashes + d.0, d.1;
    }

    method AddCrl(data: Option<bytes>) returns (ret: Ret)
      modifies this
      ensures (State(), ret) == AddTo(lib, old(State()), Crl, data)
    {
      var d := Digest(lib, m_HashAlgo, data);
      crlHashes, ret := crlHashes + d.0, d.1;
    }

    method AddUnsignedAttr(data: Option<bytes>) returns (ret: Ret)
      modifies this
      ensures (State(), ret) == AddTo(lib, old(State()), UnsignedAttr, data)
    {
      var d := Digest(lib, m_HashAlgo, data);
      unsignedAttrHashes, ret := unsignedAttrHashes + d.0, d.1;
    }

    /** Callers have chosen the algorithm before. */
    method CalcHash() returns (ret: Ret)
      requires m_HashIndAlgorithm.Some?
      modifies this
      ensures (State(), ret) == Calc(lib, old(State()))
    {
      if |m_HashIndAlgorithm.value.oid| < 2 {
        return InvalidParameter;
      }
      var index := lib.encodeIndex(m_HashIndAlgorithm.value, certHashes, crlHashes, unsignedAttrHashes);
      if index.None? {
        return Failed(2);
      }
      atsHashIndex := index;
      if contentType.None? || hashContent.None? || signerInfo.None? {
        return InvalidParameter;
      }
      var buffer := ConcatParts(contentType.value, hashContent.value, signerInfo.value, index.value);
      var h := lib.hash(m_HashAlgo, buffer[..]);
      if h.None? {
        return Failed(3);
      }
      m_HashValue := h;
      return RetOk;
    }
  }

  /** The four parts tile the buffer. */
  method ConcatParts(contentType: bytes, hashContent: bytes, signerInfo: bytes, index: bytes)
      returns (buffer: array<byte>)
    ensures fresh(buffer) && buffer[..] == contentType + hashContent + signerInfo + index
  {
    buffer := new byte[|contentType| + |hashContent| + |signerInfo| + |index|];
    var offset := 0;
    CopyInto(contentType, buffer, offset);
    offset := offset + |contentType|;
    assert buffer[..offset] == contentType;
    CopyInto(hashContent, buffer, offset);
    offset := offset + |hashContent|;
    assert buffer[..offset] == contentType + hashContent;
    CopyInto(signerInfo, buffer, offset);
    offset := offset + |signerInfo|;
    assert buffer[..offset] == contentType + hashContent + signerInfo;
    CopyInto(index, buffer, offset);
  }

  // ---------- runs ----------

  datatype Kind = Cert | Crl | UnsignedAttr

  datatype Op =
    | Add(kind: Kind, data: Option<bytes>)
    | Content(oid: string, content: Option<bytes>)
    | Signer(encoded: Option<bytes>)
    | CalcNow

  function AddTo(lib: Library, st: HelperState, kind: Kind, data: Option<bytes>): (HelperState, Ret) {
    var (d, ret) := Digest(lib, st.hashAlgo, data);
    match kind
    case Cert => (st.(certHashes := st.certHashes + d), ret)
    case Crl => (st.(crlHashes := st.crlHashes + d), ret)
    case UnsignedAttr => (st.(attrHashes := st.attrHashes + d), ret)
  }

  function Step(lib: Library, st: HelperState, op: Op): (r: HelperState)
    requires st.algorithm.Some?
    ensures r.algorithm == st.algorithm && r.hashAlgo == st.hashAlgo
  {
    match op
    case Add(kind, data) => AddTo(lib, st, kind, data).0
    case Content(oid, content) => SetContent(lib, st, oid, content).0
    case Signer(encoded) => SetSigner(st, encoded).0
    case CalcNow => Calc(lib, st).0
  }

  /** Any calls once the algorithm is chosen. */
  function Run(lib: Library, st: HelperState, ops: seq<Op>): (r: HelperState)
    requires st.algorithm.Some?
    ensures r.algorithm == st.algorithm && r.hashAlgo == st.hashAlgo
    decreases |ops|
  {
    if ops == [] then st else Run(lib, Step(lib, st, ops[0]), ops[1..])
  }

  /** The data added to one list, in the order it was added. */
  function Added(ops: seq<Op>, kind: Kind): seq<Option<bytes>> {
    if ops == [] then []
    else (if ops[0].Add? && ops[0].kind == kind then [ops[0].data] else []) + Added(ops[1..], kind)
  }

  function Digests(lib: Library, alg: HashAlg, datas: seq<Option<bytes>>): seq<bytes> {
    if datas == [] then [] else Digest(lib, alg, datas[0]).0 + Digests(lib, alg, datas[1..])
  }

  /** The last content that was accepted, as content type and content. */
  function LastContent(lib: Library, ops: seq<Op>): Option<(Option<bytes>, Option<bytes>)> {
    if ops == [] then None
    else
      match LastContent(lib, ops[1..])
      case Some(c) => Some(c)
      case None =>
        var op := ops[0];
        if op.Content? && op.oid != "" && op.content.Some? && lib.encodeOid(op.oid).Some?
        then Some((lib.encodeOid(op.oid), op.content)) else None
  }

  function LastSigner(ops: seq<Op>): Option<bytes> {
    if ops == [] then None
    else if LastSigner(ops[1..]).Some? then LastSigner(ops[1..])
    else if ops[0].Signer? then ops[0].encoded else None
  }

  /** The parts of the state a hash is computed from. */
  datatype Parts = Parts(certs: seq<bytes>, crls: seq<bytes>, attrs: seq<bytes>,
                         contentType: Option<bytes>, hashContent: Option<bytes>, signerInfo: Option<bytes>)

  function PartsOf(st: HelperState): Parts {
    Parts(st.certHashes, st.crlHashes, st.attrHashes, st.contentType, st.hashContent, st.signerInfo)
  }

  function Collected(lib: Library, st: HelperState, ops: seq<Op>): Parts {
    var content := LastContent(lib, ops);
    Parts(st.certHashes + DigestsOf(lib, st, ops, Cert),
          st.crlHashes + DigestsOf(lib, st, ops, Crl),
          st.attrHashes + DigestsOf(lib, st, ops, UnsignedAttr),
          if content.Some? then content.value.0 else st.contentType,
          if content.Some? then content.value.1 else st.hashContent,
          if LastSigner(ops).Some? then LastSigner(ops) else st.signerInfo)
  }

  function DigestsOf(lib: Library, st: HelperState, ops: seq<Op>, kind: Kind): seq<bytes> {
    Digests(lib, st.hashAlgo, Added(ops, kind))
  }

  /** Each list is what was added to it, digested in order; content and signer are the last accepted ones. */
  lemma {:induction false} RunCollects(lib: Library, st: HelperState, ops: seq<Op>)
    requires st.algorithm.Some?
    ensures PartsOf(Run(lib, st, ops)) == Collected(lib, st, ops)
    decreases |ops|
  {
    if ops == [] {
      Associates(st.certHashes, [], []);
      Associates(st.crlHashes, [], []);
      Associates(st.attrHashes, [], []);
    } else {
      hide Collected, PartsOf;
      RunCollects(lib, Step(lib, st, ops[0]), ops[1..]);
      CollectedStep(lib, st, ops);
    }
  }

  function ListOf(st: HelperState, kind: Kind): seq<bytes> {
    match kind case Cert => st.certHashes case Crl => st.crlHashes case UnsignedAttr => st.attrHashes
  }

  /** What one call adds to a list counts once, and nothing else moves it. */
  lemma ListStep(lib: Library, st: HelperState, ops: seq<Op>, kind: Kind)
    requires st.algorithm.Some? && ops != []
    ensures ListOf(Step(lib, st, ops[0]), kind) + DigestsOf(lib, Step(lib, st, ops[0]), ops[1..], kind)
         == ListOf(st, kind) + DigestsOf(lib, st, ops, kind)
  {
    AddedStep(lib, st.hashAlgo, ops, kind);
    hide Digest, Digests, Added;
    var op, more := ops[0], DigestsOf(lib, st, ops[1..], kind);
    if op.Add? && op.kind == kind {
      Associates(ListOf(st, kind), Digest(lib, st.hashAlgo, op.data).0, more);
    } else {
      assert [] + more == more;
    }
  }

  lemma PartsStep(lib: Library, st: HelperState, ops: seq<Op>)
    requires st.algorithm.Some? && ops != []
    ensures var st1, rest := Step(lib, st, ops[0]), ops[1..];
      && (LastContent(lib, rest).None? ==>
            (st1.contentType, st1.hashContent) ==
              if LastContent(lib, ops).Some? then LastContent(lib, ops).value else (st.contentType, st.hashContent))
      && (LastContent(lib, rest).Some? ==> LastContent(lib, ops) == LastContent(lib, rest))
      && (LastSigner(rest).None? ==> st1.signerInfo == if LastSigner(ops).Some? then LastSigner(ops) else st.signerInfo)
      && (LastSigner(rest).Some? ==> LastSigner(ops) == LastSigner(rest))
  {
    hide Digest;
  }

  lemma CollectedStep(lib: Library, st: HelperState, ops: seq<Op>)
    requires st.algorithm.Some? && ops != []
    ensures Collected(lib, Step(lib, st, ops[0]), ops[1..]) == Collected(lib, st, ops)
  {
    ListStep(lib, st, ops, Cert);
    ListStep(lib, st, ops, Crl);
    ListStep(lib, st, ops, UnsignedAttr);
    PartsStep(lib, st, ops);
    hide Step, DigestsOf, LastContent, LastSigner;
  }

  lemma Associates(a: seq<bytes>, b: seq<bytes>, c: seq<bytes>)
    ensures (a + b) + c == a + (b + c)
    ensures a + [] == a
  {
  }

  lemma AddedStep(lib: Library, alg: HashAlg, ops: seq<Op>, kind: Kind)
    requires ops != []
    ensures Digests(lib, alg, Added(ops, kind))
         == (if ops[0].Add? && ops[0].kind == kind then Digest(lib, alg, ops[0].data).0 else [])
            + Digests(lib, alg, Added(ops[1..], kind))
  {
    var rest := Added(ops[1..], kind);
    if ops[0].Add? && ops[0].kind == kind {
      assert ([ops[0].data] + rest)[1..] == rest;
    } else {
      assert [] + rest == rest;
      assert [] + Digests(lib, alg, rest) == Digests(lib, alg, rest);
    }
  }

  /** How the calls interleave makes no difference to what is hashed, nor do hashes computed on the way. */
  lemma InterleavingIsIrrelevant(lib: Library, st: HelperState, a: seq<Op>, b: seq<Op>)
    requires st.algorithm.Some?
    requires forall k: Kind :: Added(a, k) == Added(b, k)
    requires LastContent(lib, a) == LastContent(lib, b) && LastSigner(a) == LastSigner(b)
    ensures var x, y := Run(lib, st, a), Run(lib, st, b);
      && Hashed(lib, x) == Hashed(lib, y)
      && Calc(lib, x).1 == Calc(lib, y).1
      && (Calc(lib, x).1 == RetOk ==> Calc(lib, x).0.hashValue == Calc(lib, y).0.hashValue)
  {
    RunCollects(lib, st, a);
    RunCollects(lib, st, b);
    assert DigestsOf(lib, st, a, Cert) == DigestsOf(lib, st, b, Cert);
    assert DigestsOf(lib, st, a, Crl) == DigestsOf(lib, st, b, Crl);
    assert DigestsOf(lib, st, a, UnsignedAttr) == DigestsOf(lib, st, b, UnsignedAttr);
    hide Run, DigestsOf, Added, LastContent, LastSigner;
  }

  // ---------- the index in DER ----------

  const OID_SHA256 := "2.16.840.1.101.3.4.2.1"

  /** A SEQUENCE OF OCTET STRING is small enough to be in memory. */
  predicate ListFits(hs: seq<bytes>)
    decreases |hs|
  {
    hs == [] || (|hs[0]| < MEMORY && ListFits(hs[1..]))
  }

  function HashItems(hs: seq<bytes>): bytes
    requires ListFits(hs)
  {
    if hs == [] then [] else Encoding(0x04, hs[0]) + HashItems(hs[1..])
  }

  predicate ListInMemory(hs: seq<bytes>) { ListFits(hs) && |HashItems(hs)| < MEMORY }

  function HashList(hs: seq<bytes>): bytes
    requires ListInMemory(hs)
  {
    Encoding(0x30, HashItems(hs))
  }

  /** The algorithm is left out when it is the default. */
  function AlgorithmField(alg: AlgorithmId): bytes {
    if alg.oid == OID_SHA256 then [] else alg.encoded
  }

  predicate InMemory(alg: AlgorithmId, certs: seq<bytes>, crls: seq<bytes>, attrs: seq<bytes>) {
    && ListInMemory(certs) && ListInMemory(crls) && ListInMemory(attrs)
    && |AlgorithmField(alg) + (HashList(certs) + (HashList(crls) + HashList(attrs)))| < MEMORY
  }

  /** ATSHashIndex ::= SEQUENCE { algorithm DEFAULT sha-256, three SEQUENCE OF OCTET STRING } */
  function DerIndex(alg: AlgorithmId, certs: seq<bytes>, crls: seq<bytes>, attrs: seq<bytes>): bytes
    requires InMemory(alg, certs, crls, attrs)
  {
    Encoding(0x30, AlgorithmField(alg) + (HashList(certs) + (HashList(crls) + HashList(attrs))))
  }

  lemma {:induction false} HashItemsInjective(a: seq<bytes>, b: seq<bytes>)
    requires ListFits(a) && ListFits(b)
    requires HashItems(a) == HashItems(b)
    ensures a == b
  {
    if a != [] && b != [] {
      EncodingIsPrefixFree(0x04, a[0], b[0], HashItems(a[1..]), HashItems(b[1..]));
      HashItemsInjective(a[1..], b[1..]);
      assert a == [a[0]] + a[1..] && b == [b[0]] + b[1..];
    }
  }

  lemma HashListPrefixFree(a: seq<bytes>, b: seq<bytes>, x: bytes, y: bytes)
    requires ListInMemory(a) && ListInMemory(b)
    requires HashList(a) + x == HashList(b) + y
    ensures a == b && x == y
  {
    EncodingIsPrefixFree(0x30, HashItems(a), HashItems(b), x, y);
    HashItemsInjective(a, b);
  }

  /** The encoded index determines all three lists. */
  lemma DerIndexInjective(alg: AlgorithmId, c1: seq<bytes>, r1: seq<bytes>, a1: seq<bytes>,
                          c2: seq<bytes>, r2: seq<bytes>, a2: seq<bytes>)
    requires InMemory(alg, c1, r1, a1) && InMemory(alg, c2, r2, a2)
    requires DerIndex(alg, c1, r1, a1) == DerIndex(alg, c2, r2, a2)
    ensures c1 == c2 && r1 == r2 && a1 == a2
  {
    hide Encoding, HashList, ListInMemory;
    var f := AlgorithmField(alg);
    var x1, x2 := HashList(r1) + HashList(a1), HashList(r2) + HashList(a2);
    var b1, b2 := f + (HashList(c1) + x1), f + (HashList(c2) + x2);
    assert Encoding(0x30, b1) + [] == Encoding(0x30, b2) + [];
    EncodingIsPrefixFree(0x30, b1, b2, [], []);
    CutFront(f, HashList(c1) + x1, HashList(c2) + x2);
    HashListPrefixFree(c1, c2, x1, x2);
    assert HashList(a1) == HashList(a1) + [] && HashList(a2) == HashList(a2) + [];
    HashListPrefixFree(r1, r2, HashList(a1), HashList(a2));
    HashListPrefixFree(a1, a2, [], []);
  }

  /** What the index builder promises: DER, for everything that fits in memory. */
  ghost predicate EncodesDer(lib: Library) {
    forall alg, certs, crls, attrs :: InMemory(alg, certs, crls, attrs) ==>
      lib.encodeIndex(alg, certs, crls, attrs) == Some(DerIndex(alg, certs, crls, attrs))
  }

  predicate StateInMemory(st: HelperState)
    requires st.algorithm.Some?
  {
    InMemory(st.algorithm.value, st.certHashes, st.crlHashes, st.attrHashes)
  }

  /** For the same signed data, calcHash hashes the same bytes exactly when all three lists are the same. */
  lemma SameInputIffSameLists(lib: Library, s: HelperState, t: HelperState)
    requires EncodesDer(lib) && s.algorithm.Some? && s.algorithm == t.algorithm
    requires s.contentType == t.contentType && s.hashContent == t.hashContent && s.signerInfo == t.signerInfo
    requires StateInMemory(s) && StateInMemory(t) && Hashed(lib, s).Some?
    ensures Hashed(lib, s) == Hashed(lib, t)
      <==> s.certHashes == t.certHashes && s.crlHashes == t.crlHashes && s.attrHashes == t.attrHashes
  {
    hide DerIndex, InMemory;
    var alg := s.algorithm.value;
    var i := DerIndex(alg, s.certHashes, s.crlHashes, s.attrHashes);
    var j := DerIndex(alg, t.certHashes, t.crlHashes, t.attrHashes);
    assert lib.encodeIndex(alg, s.certHashes, s.crlHashes, s.attrHashes) == Some(i);
    assert lib.encodeIndex(alg, t.certHashes, t.crlHashes, t.attrHashes) == Some(j);
    if Hashed(lib, s) == Hashed(lib, t) {
      var head := s.contentType.value + s.hashContent.value + s.signerInfo.value;
      CutFront(head, i, j);
      DerIndexInjective(alg, s.certHashes, s.crlHashes, s.attrHashes, t.certHashes, t.crlHashes, t.attrHashes);
    }
  }

  /** What is hashed is, in this order: content type, content, signer, and the encoded index. */
  lemma HashedInOrder(lib: Library, st: HelperState)
    requires st.algorithm.Some? && Hashed(lib, st).Some?
    ensures var bytes := Hashed(lib, st).value;
      var index := lib.encodeIndex(st.algorithm.value, st.certHashes, st.crlHashes, st.attrHashes);
      && st.contentType.Some? && st.hashContent.Some? && st.signerInfo.Some? && index.Some?
      && var a, b, c := |st.contentType.value|, |st.hashContent.value|, |st.signerInfo.value|;
      && a + b + c <= |bytes|
      && bytes[..a] == st.contentType.value
      && bytes[a..a + b] == st.hashContent.value
      && bytes[a + b..a + b + c] == st.signerInfo.value
      && bytes[a + b + c..] == index.value
  {
  }

  /** A part that is missing, an algorithm without a name and an index that cannot be encoded are what prevents it. */
  lemma HashedIff(lib: Library, st: HelperState)
    requires st.algorithm.Some?
    ensures Hashed(lib, st).Some? <==>
      && st.contentType.Some? && st.hashContent.Some? && st.signerInfo.Some? && |st.algorithm.value.oid| >= 2
      && lib.encodeIndex(st.algorithm.value, st.certHashes, st.crlHashes, st.attrHashes).Some?
    ensures Calc(lib, st).1 == InvalidParameter <==>
      (|st.algorithm.value.oid| < 2
       || (lib.encodeIndex(st.algorithm.value, st.certHashes, st.crlHashes, st.attrHashes).Some?
           && (st.contentType.None? || st.hashContent.None? || st.signerInfo.None?)))
  {
  }

  /** The index lists certificates, then revocation lists, then attributes, behind an algorithm other than SHA-256. */
  lemma IndexInOrder(alg: AlgorithmId, certs: seq<bytes>, crls: seq<bytes>, attrs: seq<bytes>)
    requires InMemory(alg, certs, crls, attrs)
    ensures var inner := (if alg.oid == "2.16.840.1.101.3.4.2.1" then [] else alg.encoded)
                         + HashList(certs) + HashList(crls) + HashList(attrs);
      |inner| < MEMORY && DerIndex(alg, certs, crls, attrs) == Encoding(0x30, inner)
  {
    hide HashList, ListInMemory, Encoding;
    var f := AlgorithmField(alg);
    assert f + (HashList(certs) + (HashList(crls) + HashList(attrs)))
        == f + HashList(certs) + HashList(crls) + HashList(attrs);
  }

  /** One digest more is one OCTET STRING more, at the end. */
  lemma {:induction false} HashItemsAppend(hs: seq<bytes>, h: bytes)
    requires ListFits(hs) && |h| < MEMORY
    ensures ListFits(hs + [h]) && HashItems(hs + [h]) == HashItems(hs) + Encoding(0x04, h)
  {
    hide Encoding;
    if hs == [] {
      assert hs + [h] == [h] && [h][1..] == [];
      assert Encoding(0x04, h) + [] == Encoding(0x04, h);
    } else {
      assert (hs + [h])[1..] == hs[1..] + [h];
      HashItemsAppend(hs[1..], h);
    }
  }

  /** Signed data as it comes: the content type and the signer in DER, the content as a digest. */
  predicate WellShaped(st: HelperState, size: nat, oid: bytes, signer: bytes) {
    && |oid| < MEMORY && st.contentType == Some(Encoding(0x06, oid))
    && st.hashContent.Some? && |st.hashContent.value| == size
    && |signer| < MEMORY && st.signerInfo == Some(Encoding(0x30, signer))
  }

  /** With content digests of one size, the bytes calcHash hashes determine everything they are made of. */
  lemma HashedDeterminesParts(lib: Library, s: HelperState, t: HelperState, size: nat,
                              oid1: bytes, signer1: bytes, oid2: bytes, signer2: bytes)
    requires EncodesDer(lib) && s.algorithm.Some? && s.algorithm == t.algorithm && |s.algorithm.value.oid| >= 2
    requires WellShaped(s, size, oid1, signer1) && WellShaped(t, size, oid2, signer2)
    requires StateInMemory(s) && StateInMemory(t)
    ensures Hashed(lib, s) == Hashed(lib, t) <==> PartsOf(s) == PartsOf(t)
  {
    hide DerIndex, InMemory, Encoding;
    var alg := s.algorithm.value;
    var i := DerIndex(alg, s.certHashes, s.crlHashes, s.attrHashes);
    var j := DerIndex(alg, t.certHashes, t.crlHashes, t.attrHashes);
    assert lib.encodeIndex(alg, s.certHashes, s.crlHashes, s.attrHashes) == Some(i);
    assert lib.encodeIndex(alg, t.certHashes, t.crlHashes, t.attrHashes) == Some(j);
    if Hashed(lib, s) == Hashed(lib, t) {
      PartsSplit(oid1, s.hashContent.value, signer1, i, oid2, t.hashContent.value, signer2, j);
      SameInputIffSameLists(lib, s, t);
    }
  }

  lemma PartsSplit(oid1: bytes, content1: bytes, signer1: bytes, i: bytes,
                   oid2: bytes, content2: bytes, signer2: bytes, j: bytes)
    requires |oid1| < MEMORY && |oid2| < MEMORY && |signer1| < MEMORY && |signer2| < MEMORY
    requires |content1| == |content2|
    requires Encoding(0x06, oid1) + content1 + Encoding(0x30, signer1) + i
          == Encoding(0x06, oid2) + content2 + Encoding(0x30, signer2) + j
    ensures oid1 == oid2 && content1 == content2 && signer1 == signer2 && i == j
  {
    hide Encoding;
    var a1, a2 := Encoding(0x30, signer1) + i, Encoding(0x30, signer2) + j;
    var b1, b2 := content1 + a1, content2 + a2;
    assert Encoding(0x06, oid1) + b1 == Encoding(0x06, oid1) + content1 + Encoding(0x30, signer1) + i;
    assert Encoding(0x06, oid2) + b2 == Encoding(0x06, oid2) + content2 + Encoding(0x30, signer2) + j;
    EncodingIsPrefixFree(0x06, oid1, oid2, b1, b2);
    assert content1 == b1[..|content1|] && content2 == b2[..|content1|];
    assert a1 == b1[|content1|..] && a2 == b2[|content1|..];
    EncodingIsPrefixFree(0x30, signer1, signer2, i, j);
  }

  /** A hash that is computed is the hash of just these bytes. */
  lemma CalcSucceedsIff(lib: Library, st: HelperState)
    requires st.algorithm.Some?
    ensures Calc(lib, st).1 == RetOk
      <==> Hashed(lib, st).Some? && lib.hash(st.hashAlgo, Hashed(lib, st).value).Some?
    ensures Calc(lib, st).1 == RetOk ==> Calc(lib, st).0.hashValue == lib.hash(st.hashAlgo, Hashed(lib, st).value)
    ensures Calc(lib, st).1 != RetOk ==> Calc(lib, st).0.hashValue == st.hashValue
  {
  }

  // ---------- what each call leaves ----------

  /** What is set is what is hashed: behind a content and a signer that are accepted, the bytes begin with these. */
  lemma SetThenHashed(lib: Library, st: HelperState, oid: string, content: bytes, signer: bytes)
    requires st.algorithm.Some? && oid != "" && lib.encodeOid(oid).Some?
    ensures SetContent(lib, st, oid, Some(content)).1 == RetOk
    ensures var t := SetSigner(SetContent(lib, st, oid, Some(content)).0, Some(signer)).0;
      Hashed(lib, t).Some? ==> lib.encodeOid(oid).value + content + signer <= Hashed(lib, t).value
  {
  }

  /** Setting is refused for exactly these reasons, and then changes nothing. */
  lemma SetResult(lib: Library, st: HelperState, oid: string, content: Option<bytes>, signer: Option<bytes>)
    ensures var (t, ret) := SetContent(lib, st, oid, content);
      && (ret == InvalidParameter <==> oid == "" || content.None?)
      && (ret == RetOk <==> oid != "" && content.Some? && lib.encodeOid(oid).Some?)
      && (ret != RetOk ==> t == st)
    ensures var (t, ret) := SetSigner(st, signer);
      (ret == RetOk <==> signer.Some?) && (ret != RetOk ==> t == st && ret == InvalidParameter)
  {
  }

  /** Data that is there is digested onto the end of the list of its kind, and no other list changes. */
  lemma AddResult(lib: Library, st: HelperState, kind: Kind, data: Option<bytes>)
    ensures var (t, ret) := AddTo(lib, st, kind, data);
      && (ret == RetOk <==> data.None? || lib.hash(st.hashAlgo, data.value).Some?)
      && (data.None? || ret != RetOk ==> t == st)
      && (data.Some? && ret == RetOk ==>
            var h := [lib.hash(st.hashAlgo, data.value).value];
            && t.certHashes == (if kind.Cert? then st.certHashes + h else st.certHashes)
            && t.crlHashes == (if kind.Crl? then st.crlHashes + h else st.crlHashes)
            && t.attrHashes == (if kind.UnsignedAttr? then st.attrHashes + h else st.attrHashes))
  {
    assert st.certHashes + [] == st.certHashes && st.crlHashes + [] == st.crlHashes;
    assert st.attrHashes + [] == st.attrHashes;
  }
}
