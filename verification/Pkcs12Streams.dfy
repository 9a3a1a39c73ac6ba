/** Signing as a stream in a PKCS#12 session, against signing at once. */
module Pkcs12Streams {
  import opened Prelude
  import opened Pkcs12Keys
  import opened Pkcs12Store
  import opened Pkcs12Session
  import opened Pkcs12Runs

  // ---------- streaming ----------

  /** Gets past the guards and begins or ends a stream. */
  predicate Restarts(s: SessionState, op: Op) {
    match op
    case OpSignInit(algo, params) => algo.Some? && s.store.isOpen && s.store.selected.Some?
    case OpSignFinal(random, memory) => StreamRefusal(s).None?
    case _ => false
  }

  predicate DeletesActive(s: SessionState, op: Op) {
    && op.OpDeleteKey? && op.id.Some? && Refusal(s.store).None?
    && s.stream.activeBag.Some? && FirstKey(s.store.bags, op.id.value) == s.stream.activeBag
  }

  /** The stream's key stays where it is exactly until delete_key hits it. */
  lemma ActiveStaysStoredIff(lib: Library, s: SessionState, op: Op)
    requires Inv(s) && s.stream.activeBag.Some? && !Restarts(s, op)
    requires s.stream.activeBag.value in s.store.bags && s.stream.activeBag.value.kind != CERT
    ensures Step(lib, s, op).stream.activeBag == s.stream.activeBag
    ensures s.stream.activeBag.value in Step(lib, s, op).store.bags <==> !DeletesActive(s, op)
  {
    hide CertContainKeyId, CertKeyId, HasCert, MakeKey, Without, RelatedCerts, FirstKey, DistinctAddresses;
    var active, bags := s.stream.activeBag.value, s.store.bags;
    if op.OpDeleteKey? && op.id.Some? && Refusal(s.store).None? && FirstKey(bags, op.id.value).Some? {
      FirstKeyFinds(bags, op.id.value);
      RelatedMember(lib, bags, op.id.value, active);
      WithoutMembers(bags, Doomed(lib, s.store, op.id.value, op.related), active);
      var key := FirstKey(bags, op.id.value).value;
      if active.address == key.address { SameAddress(bags, active, key); }
    } else if op.OpDeleteCertificate? && op.id.Some? {
      RelatedMember(lib, bags, op.id.value, active);
      WithoutMembers(bags, RelatedCerts(lib, bags, op.id.value), active);
    }
  }

  /** Anything in between, other keys selected or not, as long as the stream's key is not deleted. */
  predicate Undisturbed(lib: Library, s: SessionState, ops: seq<Op>)
    decreases |ops|
  {
    ops == [] || (!Restarts(s, ops[0]) && !DeletesActive(s, ops[0]) && Undisturbed(lib, Step(lib, s, ops[0]), ops[1..]))
  }

  /** What one operation feeds into the hash. */
  function Taken(s: SessionState, op: Op): bytes {
    if op.OpSignUpdate? && SignUpdate(s, op.data).1 == RetOk then op.data.value else []
  }

  /** The data of the updates that were accepted. */
  function Fed(lib: Library, s: SessionState, ops: seq<Op>): bytes
    decreases |ops|
  {
    if ops == [] then [] else Taken(s, ops[0]) + Fed(lib, Step(lib, s, ops[0]), ops[1..])
  }

  predicate Streaming(s: SessionState) {
    && Inv(s) && s.store.isOpen && s.stream.ctxHash.Some?
    && s.stream.activeBag.Some? && s.stream.activeBag.value in s.store.bags && s.stream.activeBag.value.kind != CERT
  }

  function FedBy(stream: Stream, data: bytes): Stream
    requires stream.ctxHash.Some?
  {
    stream.(ctxHash := Some(stream.ctxHash.value.(data := stream.ctxHash.value.data + data)))
  }

  lemma StreamStep(lib: Library, s: SessionState, op: Op)
    requires Streaming(s) && !Restarts(s, op) && !DeletesActive(s, op)
    ensures Streaming(Step(lib, s, op)) && Step(lib, s, op).stream == FedBy(s.stream, Taken(s, op))
  {
    hide Inv, CertKeyId, CertContainKeyId, HasCert, Without, RelatedCerts, FirstKey, MakeKey;
    StepKeepsInvariant(lib, s, op);
    ActiveStaysStoredIff(lib, s, op);
    var data := s.stream.ctxHash.value.data;
    assert data + [] == data;
  }

  /** A stream only ever grows by what is fed, and its key stays stored. */
  lemma {:induction false} StreamRun(lib: Library, s: SessionState, ops: seq<Op>)
    requires Streaming(s) && Undisturbed(lib, s, ops)
    ensures Streaming(Run(lib, s, ops)) && Run(lib, s, ops).stream == FedBy(s.stream, Fed(lib, s, ops))
    decreases |ops|
  {
    hide Inv, Step, Taken, Restarts, DeletesActive;
    var data := s.stream.ctxHash.value.data;
    if ops == [] {
      assert data + [] == data;
    } else {
      StreamStep(lib, s, ops[0]);
      var s1 := Step(lib, s, ops[0]);
      StreamRun(lib, s1, ops[1..]);
      assert data + Taken(s, ops[0]) + Fed(lib, s1, ops[1..]) == data + Fed(lib, s, ops);
    }
  }

  /** Hashing the data and signing the hash at once, in the state `s`. */
  function OneShot(lib: Library, s: SessionState, alg: HashAlg, algo: string, params: Option<bytes>, data: bytes,
                   random: nat): Result<bytes, Ret>
  {
    match lib.hash(alg, data)
    case None => Err(LibraryError(0))
    case Some(hash) =>
      if hash == [] then Err(InvalidParameter) else FirstSignature(Sign(lib, s, algo, params, [hash], random))
  }

  /**
    Init, anything undisturbing with updates among it, then final: the same signature as signing the
    hash of all accepted data at once with the key that was selected at init. Afterwards all is idle.
   */
  lemma StreamingRefinesOneShot(lib: Library, s: SessionState, algo: string, params: Option<bytes>, ops: seq<Op>,
                                random: nat, memory: bytes)
    requires Inv(s) && SignInit(lib, s, Some(algo), params).1 == RetOk
    requires Undisturbed(lib, SignInit(lib, s, Some(algo), params).0, ops)
    ensures s.store.selected.Some?
    ensures var s1 := SignInit(lib, s, Some(algo), params).0;
      lib.signCheck(s.store.selected.value.value, algo, params) == Ok(s1.stream.hashAlgo)
    ensures var s1 := SignInit(lib, s, Some(algo), params).0;
      var s2 := Run(lib, s1, ops);
      && s2.stream.activeBag == s.store.selected && s2.stream.activeBag.value in s2.store.bags
      && SignFinal(lib, s2, random, memory).1
           == (if s2.store.selected.None? then Err(KeyNotSelected)
               else OneShot(lib, s, s1.stream.hashAlgo, algo, params, Fed(lib, s1, ops), random))
      && SignFinal(lib, s2, random, memory).0.stream == (if s2.store.selected.None? then s2.stream else IDLE)
  {
    hide Undisturbed, Run, Sound;
    var s1 := SignInit(lib, s, Some(algo), params).0;
    var alg := s1.stream.hashAlgo;
    assert s1.stream == Stream(s.store.selected, Some(HashCtx(alg, [])), alg, algo, params);
    assert Inv(s1) && Streaming(s1);
    StreamRun(lib, s1, ops);
    assert [] + Fed(lib, s1, ops) == Fed(lib, s1, ops);
  }

  // ---------- no update is lost while a key is selected ----------

  predicate SelectedThroughout(lib: Library, s: SessionState, ops: seq<Op>)
    decreases |ops|
  {
    s.store.selected.Some? && (ops == [] || SelectedThroughout(lib, Step(lib, s, ops[0]), ops[1..]))
  }

  /** All data of all updates, whatever came of them. */
  function Sent(ops: seq<Op>): bytes {
    if ops == [] then []
    else (if ops[0].OpSignUpdate? && ops[0].data.Some? then ops[0].data.value else []) + Sent(ops[1..])
  }

  lemma {:induction false} NothingIsLost(lib: Library, s: SessionState, ops: seq<Op>)
    requires Streaming(s) && Undisturbed(lib, s, ops) && SelectedThroughout(lib, s, ops)
    ensures Fed(lib, s, ops) == Sent(ops)
    decreases |ops|
  {
    hide Inv, Step, Restarts, DeletesActive;
    if ops != [] {
      StreamStep(lib, s, ops[0]);
      NothingIsLost(lib, Step(lib, s, ops[0]), ops[1..]);
    }
  }

  // ---------- the stream's key may go ----------

  /** The key a stream remembers is still stored. */
  predicate Live(s: SessionState) {
    s.stream.activeBag.Some? ==> s.stream.activeBag.value in s.store.bags && s.stream.activeBag.value.kind != CERT
  }

  predicate LiveThroughout(lib: Library, s: SessionState, ops: seq<Op>)
    decreases |ops|
  {
    Live(s) && (ops == [] || LiveThroughout(lib, Step(lib, s, ops[0]), ops[1..]))
  }

  predicate NeverDeletesActive(lib: Library, s: SessionState, ops: seq<Op>)
    decreases |ops|
  {
    ops == [] || (!DeletesActive(s, ops[0]) && NeverDeletesActive(lib, Step(lib, s, ops[0]), ops[1..]))
  }

  lemma LiveStepIff(lib: Library, s: SessionState, op: Op)
    requires Inv(s) && Live(s)
    ensures Live(Step(lib, s, op)) <==> !DeletesActive(s, op)
  {
    hide CertKeyId, CertContainKeyId, HasCert, Without, RelatedCerts, FirstKey, MakeKey, Sound;
    if s.stream.activeBag.Some? && !Restarts(s, op) {
      ActiveStaysStoredIff(lib, s, op);
    }
  }

  /** Over every run, the key of a stream is there at every step exactly if no step deletes it. */
  lemma {:induction false} LiveThroughoutIff(lib: Library, s: SessionState, ops: seq<Op>)
    requires Inv(s) && Live(s)
    ensures LiveThroughout(lib, s, ops) <==> NeverDeletesActive(lib, s, ops)
    decreases |ops|
  {
    hide Inv, Step, Live, DeletesActive;
    if ops != [] {
      StepKeepsInvariant(lib, s, ops[0]);
      LiveStepIff(lib, s, ops[0]);
      if !DeletesActive(s, ops[0]) {
        LiveThroughoutIff(lib, Step(lib, s, ops[0]), ops[1..]);
      } else {
        assert !LiveThroughout(lib, Step(lib, s, ops[0]), ops[1..]);
      }
    }
  }

  /** From a session just opened. */
  lemma ReachableLiveIff(lib: Library, isCreate: bool, readOnly: bool, ops: seq<Op>)
    ensures LiveThroughout(lib, Opened(isCreate, readOnly), ops)
        <==> NeverDeletesActive(lib, Opened(isCreate, readOnly), ops)
  {
    LiveThroughoutIff(lib, Opened(isCreate, readOnly), ops);
  }

  function Request(): Option<KeyRequest> { Some(KeyRequest(OID_EC_KEY, None, true)) }

  function EcKeyBag(address: nat, random: nat): Bag {
    Bag(address, KEY, [1, random % 0x100], [], [random % 0x100])
  }

  lemma MadeWithTags(address: nat, random: nat)
    ensures var lib := SampleLibrary();
      var made := MakeKey(lib, Request().value, random);
      made.Ok? && NewKeyBag(lib, address, made.value) == EcKeyBag(address, random)
  {
    var lib := SampleLibrary();
    EcIsNotDstu();
    var value: bytes := [random % 0x100];
    assert [1] + value == [1, random % 0x100];
    hide OidIsParent;
    assert SubjectKey(lib, PrivateKey(OID_EC_KEY, NamedCurve(OID_NIST_P256), value)) == Some(value);
    assert Recognised(lib, value);
  }

  /** Two keys are made, a stream is started with the first, and the first is deleted. */
  function FreeingRun(): seq<Op> {
    [OpLogin(Some("x"), Decoded(RetOk, [], false)), OpCreateKey(Request(), 1, RetOk, RetOk),
     OpSignInit(Some("a"), None), OpCreateKey(Request(), 2, RetOk, RetOk), OpDeleteKey(Some([1, 1]), false, RetOk)]
  }

  function AfterFreeing(): SessionState {
    SessionState(Storage(true, true, false, [EcKeyBag(1, 2)], Some(EcKeyBag(1, 2)), 2),
                 Stream(Some(EcKeyBag(0, 1)), Some(HashCtx(Sha1, [])), Sha1, "a", None))
  }

  /** The states of the run, one before each operation. */
  function Stage(n: nat): SessionState
    requires n < 5
  {
    var a, b := EcKeyBag(0, 1), EcKeyBag(1, 2);
    var one := Storage(true, true, false, [a], Some(a), 1);
    if n == 0 then Opened(true, false)
    else if n == 1 then SessionState(Storage(true, true, false, [], None, 0), IDLE)
    else if n == 2 then SessionState(one, IDLE)
    else if n == 3 then SessionState(one, AfterFreeing().stream)
    else SessionState(Storage(true, true, false, [a, b], Some(b), 2), AfterFreeing().stream)
  }

  lemma KeyIsAdded(n: nat, random: nat)
    requires n == 1 || n == 3
    requires random == if n == 1 then 1 else 2
    ensures Step(SampleLibrary(), Stage(n), FreeingRun()[n]) == Stage(n + 1)
  {
    MadeWithTags(Stage(n).store.nextAddress, random);
    hide MakeKey, NewKeyBag, SampleLibrary;
  }

  lemma FreeingRunEnds()
    ensures Run(SampleLibrary(), Opened(true, false), FreeingRun()) == AfterFreeing()
  {
    var lib, ops := SampleLibrary(), FreeingRun();
    assert Step(lib, Stage(0), ops[0]) == Stage(1);
    KeyIsAdded(1, 1);
    KeyIsAdded(3, 2);
    StartAndDelete(Stage(2), Stage(4));
    hide Step, SampleLibrary;
    RunOfFive(lib, Stage(0), ops);
  }

  lemma StartAndDelete(s2: SessionState, s4: SessionState)
    requires s2 == SessionState(Storage(true, true, false, [EcKeyBag(0, 1)], Some(EcKeyBag(0, 1)), 1), IDLE)
    requires s4.store == Storage(true, true, false, [EcKeyBag(0, 1), EcKeyBag(1, 2)], Some(EcKeyBag(1, 2)), 2)
    requires s4.stream == AfterFreeing().stream
    ensures var lib := SampleLibrary();
      && Step(lib, s2, FreeingRun()[2]) == s2.(stream := AfterFreeing().stream)
      && Step(lib, s4, FreeingRun()[4]) == AfterFreeing()
  {
    FirstOfTwo(EcKeyBag(0, 1), EcKeyBag(1, 2), [1, 1]);
    hide FirstKey, Without;
  }

  /** After it, final passes all its guards and signs with whatever stands where the deleted key was. */
  lemma DeleteCanFreeStreamKey(random: nat, memory: bytes)
    ensures var lib := SampleLibrary();
      var s := Run(lib, Opened(true, false), FreeingRun());
      && StreamRefusal(s).None? && s.stream.activeBag.Some? && s.stream.activeBag.value !in s.store.bags
      && SignFinal(lib, s, random, memory).1
           == SignSingle(lib, memory, s.stream.signAlgo, s.stream.signParams, [1], random)
  {
    var lib := SampleLibrary();
    FreeingRunEnds();
    hide Run, FreeingRun;
    assert EcKeyBag(0, 1) !in [EcKeyBag(1, 2)];
    assert lib.hash(Sha1, []) == Some([1]) by { TaggedNothing(); }
    hide SampleLibrary;
  }

  lemma TaggedNothing()
    ensures SampleLibrary().hash(Sha1, []) == Some([1])
  {
    assert [1] + [] == [1 as byte];
  }

  lemma FirstOfTwo(a: Bag, b: Bag, id: bytes)
    requires a.kind == KEY && EqualKeyId(a, id) && a.address != b.address
    ensures FirstKey([a, b], id) == Some(a) && Without([a, b], {a.address} + {}) == [b]
  {
    FirstKeyIsFirst([a, b], id, 0);
    WithoutOne([a, b], 0);
    assert {a.address} + {} == {a.address};
  }

  lemma RunOfFive(lib: Library, s: SessionState, ops: seq<Op>)
    requires |ops| == 5
    ensures Run(lib, s, ops)
         == Step(lib, Step(lib, Step(lib, Step(lib, Step(lib, s, ops[0]), ops[1]), ops[2]), ops[3]), ops[4])
  {
    hide Step;
    var s1 := Step(lib, s, ops[0]);
    var s2 := Step(lib, s1, ops[1]);
    var s3 := Step(lib, s2, ops[2]);
    var s4 := Step(lib, s3, ops[3]);
    var s5 := Step(lib, s4, ops[4]);
    RunStep(lib, s, ops, 0);
    RunStep(lib, s1, ops, 1);
    RunStep(lib, s2, ops, 2);
    RunStep(lib, s3, ops, 3);
    RunStep(lib, s4, ops, 4);
    assert ops[0..] == ops && ops[5..] == [] && Run(lib, s5, []) == s5;
  }

  lemma RunStep(lib: Library, s: SessionState, ops: seq<Op>, i: nat)
    requires i < |ops|
    ensures Run(lib, s, ops[i..]) == Run(lib, Step(lib, s, ops[i]), ops[i + 1..])
  {
    hide Step;
    assert ops[i..][1..] == ops[i + 1..];
  }
}
