/** Which keys a PKCS#12 session can select, and what it does select. */
module Pkcs12Selection {
  import opened Prelude
  import opened Pkcs12Keys
  import opened Pkcs12Store
  import opened Pkcs12Session
  import opened Pkcs12Runs

  // ---------- the selected key ----------

  predicate KeySelected(s: SessionState) {
    s.store.selected.Some? ==> s.store.selected.value.kind == KEY
  }

  /** A key is made that is not recognised afterwards. */
  predicate MakesDataBag(lib: Library, s: SessionState, op: Op) {
    && op.OpCreateKey? && op.request.Some? && Refusal(s.store).None? && op.encoded == RetOk
    && MakeKey(lib, op.request.value, op.drawn).Ok?
    && !Recognised(lib, MakeKey(lib, op.request.value, op.drawn).value.value)
  }

  /** What is selected stays a key exactly as long as created ones are recognised. */
  lemma StepSelectsKeyIff(lib: Library, s: SessionState, op: Op)
    requires Inv(s) && KeySelected(s)
    ensures KeySelected(Step(lib, s, op)) <==> !MakesDataBag(lib, s, op)
  {
    hide CertContainKeyId, CertKeyId, OfKind, Without, RelatedCerts, FirstKey, Sound, MakeKey, Recognised, Allocated;
    if op.OpSelectKey? && op.id.Some? { FirstKeyFinds(s.store.bags, op.id.value); }
  }

  /** The check of the key's id before its bag is made lets only keys pass that are recognised. */
  lemma NeverMakesDataBag(lib: Library, s: SessionState, op: Op)
    requires Lawful(lib)
    ensures !MakesDataBag(lib, s, op)
  {
    if op.OpCreateKey? && op.request.Some? && MakeKey(lib, op.request.value, op.drawn).Ok? {
      MadeIsRecognised(lib, op.request.value, op.drawn);
    }
  }

  lemma MadeIsRecognised(lib: Library, request: KeyRequest, random: nat)
    requires Lawful(lib) && MakeKey(lib, request, random).Ok?
    ensures Recognised(lib, MakeKey(lib, request, random).value.value)
  {
    hide OidIsParent, Generate, SubjectKey, Recognised;
    var algo := if OidIsParent(OID_DSTU4145_WITH_DSTU7564, request.mechanism) then OID_DSTU4145_PARAM_PB_LE
                else request.mechanism;
    var key := Generate(lib, algo, request.parameter, random).value;
    assert ReadsBack(lib, Generate(lib, algo, request.parameter, random));
    GeneratedIsRecognised(lib, algo, request.parameter, random);
  }

  lemma {:induction false} RunSelectsKeys(lib: Library, s: SessionState, ops: seq<Op>)
    requires Lawful(lib) && Inv(s) && KeySelected(s)
    ensures KeySelected(Run(lib, s, ops))
    decreases |ops|
  {
    hide Lawful, Inv, Step, KeySelected;
    if ops != [] {
      StepKeepsInvariant(lib, s, ops[0]);
      NeverMakesDataBag(lib, s, ops[0]);
      StepSelectsKeyIff(lib, s, ops[0]);
      RunSelectsKeys(lib, Step(lib, s, ops[0]), ops[1..]);
    }
  }

  /** In every reachable state, what is selected is nothing, or a KEY bag that is stored. */
  lemma ReachableSelection(lib: Library, isCreate: bool, readOnly: bool, ops: seq<Op>)
    requires Lawful(lib)
    ensures var st := Run(lib, Opened(isCreate, readOnly), ops).store;
      st.selected.Some? ==> st.selected.value in st.bags && st.selected.value.kind == KEY
  {
    hide Lawful;
    RunKeepsInvariant(lib, Opened(isCreate, readOnly), ops);
    RunSelectsKeys(lib, Opened(isCreate, readOnly), ops);
  }

  // ---------- which stored key an id selects ----------

  predicate AnswersTo(b: Bag, id: bytes) { b.kind == KEY && EqualKeyId(b, id) }

  /** Some key before the k-th bag has the id. */
  predicate TakenBefore(bags: seq<Bag>, k: nat, id: bytes)
    requires k <= |bags|
  {
    exists j :: 0 <= j < k && AnswersTo(bags[j], id)
  }

  /** In any open session, an id selects just the first key that has it. */
  lemma SelectsIff(s: SessionState, k: nat, id: bytes)
    requires Sound(s.store) && s.store.isOpen && k < |s.store.bags|
    ensures SelectKey(s, Some(id)).0.store.selected == Some(s.store.bags[k])
      <==> AnswersTo(s.store.bags[k], id) && !TakenBefore(s.store.bags, k, id)
  {
    var bags := s.store.bags;
    hide EqualKeyId, FirstKey;
    FirstKeyFinds(bags, id);
    if TakenBefore(bags, k, id) {
      var j := FirstAnswer(bags, k, id);
      FirstKeyIsFirst(bags, id, j);
      assert bags[j].address != bags[k].address;
    } else if AnswersTo(bags[k], id) {
      FirstKeyIsFirst(bags, id, k);
    }
  }

  lemma {:induction false} FirstAnswer(bags: seq<Bag>, k: nat, id: bytes) returns (j: nat)
    requires k <= |bags| && TakenBefore(bags, k, id)
    ensures j < k && AnswersTo(bags[j], id) && !TakenBefore(bags, j, id)
  {
    hide AnswersTo;
    if TakenBefore(bags, k - 1, id) {
      j := FirstAnswer(bags, k - 1, id);
    } else {
      j := k - 1;
    }
  }

  // ---------- keys read from a file ----------

  /** A login that reads a file to its end. */
  predicate Loads(s: SessionState, password: Option<string>, decoded: Decoded) {
    Inv(s) && !s.store.isCreate && password.Some? && password.value != "" && decoded.ret == RetOk
  }

  lemma Loaded(lib: Library, s: SessionState, password: Option<string>, decoded: Decoded, i: nat)
    requires Loads(s, password, decoded) && i < |decoded.bags| && decoded.bags[i].kind == KEY
    ensures var s1 := Login(lib, s, password, decoded).0;
      var k := |s.store.bags| + i;
      && Inv(s1) && s1.store.isOpen && s1.store.selected.None? && k < |s1.store.bags|
      && s1.store.bags[k] == KeyBag(lib, s.store.nextAddress + i, decoded.bags[i].value)
  {
    hide KeyBag, Recognised;
    StepKeepsInvariant(lib, s, OpLogin(password, decoded));
  }

  /** A key of any file, read into any session, is selected by an id exactly if it is recognised, has the id, and
      no key before it has. */
  lemma FileKeySelectableIff(lib: Library, s: SessionState, password: Option<string>, decoded: Decoded, i: nat,
                             id: bytes)
    requires Loads(s, password, decoded) && i < |decoded.bags| && decoded.bags[i].kind == KEY
    ensures var s1 := Login(lib, s, password, decoded).0;
      var k := |s.store.bags| + i;
      k < |s1.store.bags| &&
      (SelectKey(s1, Some(id)).0.store.selected == Some(s1.store.bags[k])
       <==> Recognised(lib, decoded.bags[i].value) && EqualKeyId(s1.store.bags[k], id)
            && !TakenBefore(s1.store.bags, k, id))
  {
    hide Recognised, EqualKeyId, TakenBefore, Inv, Login;
    Loaded(lib, s, password, decoded, i);
    hide KeyBag;
    var s1 := Login(lib, s, password, decoded).0;
    assert Sound(s1.store) by { InvIsSound(s1); }
    SelectsIff(s1, |s.store.bags| + i, id);
  }

  lemma InvIsSound(s: SessionState)
    requires Inv(s)
    ensures Sound(s.store)
  {
  }

  /** With a public key and its digest, a key of any file is selected by its own id exactly if it is not on an explicit
      DSTU curve, its modulus is not absurdly long, and no key before it has the id. */
  lemma OwnIdSelectsIff(lib: Library, s: SessionState, password: Option<string>, decoded: Decoded, i: nat, id: bytes)
    requires Loads(s, password, decoded) && i < |decoded.bags| && decoded.bags[i].kind == KEY
    requires lib.decodeKey(decoded.bags[i].value).Some?
    requires var key := lib.decodeKey(decoded.bags[i].value).value;
      SubjectKey(lib, key).Some? && lib.hash(OwnHash(key.algo), SubjectKey(lib, key).value) == Some(id)
    ensures var s1 := Login(lib, s, password, decoded).0;
      var key := lib.decodeKey(decoded.bags[i].value).value;
      var k := |s.store.bags| + i;
      k < |s1.store.bags| &&
      (SelectKey(s1, Some(id)).0.store.selected == Some(s1.store.bags[k])
       <==> !(IsDstu(key.algo) && key.params.ExplicitCurve?) && !OverlongModulus(lib, key)
            && !TakenBefore(s1.store.bags, k, id))
  {
    OwnIdOf(lib, s.store.nextAddress + i, decoded.bags[i].value, id);
    hide TakenBefore, Inv, Login, SubjectKey, IsDstu, OverlongModulus, Recognised, KeyBag, EqualKeyId;
    Loaded(lib, s, password, decoded, i);
    FileKeySelectableIff(lib, s, password, decoded, i, id);
  }

  /** The number of bits has more than seven digits. */
  predicate OverlongModulus(lib: Library, key: PrivateKey) {
    key.algo == OID_RSA && lib.rsaModulus(key.secret).Some? && 8 * lib.rsaModulus(key.secret).value >= 1000_0000
  }

  lemma OwnIdOf(lib: Library, address: nat, value: bytes, id: bytes)
    requires lib.decodeKey(value).Some?
    requires var key := lib.decodeKey(value).value;
      SubjectKey(lib, key).Some? && lib.hash(OwnHash(key.algo), SubjectKey(lib, key).value) == Some(id)
    ensures var key := lib.decodeKey(value).value;
      Recognised(lib, value) <==> !(IsDstu(key.algo) && key.params.ExplicitCurve?) && !OverlongModulus(lib, key)
    ensures Recognised(lib, value) ==> EqualKeyId(KeyBag(lib, address, value), id)
  {
    InfoReadableIff(lib, lib.decodeKey(value).value);
    RsaIsOther();
    hide OidIsParent, SubjectKey, InfoReadable;
  }

  /** The bag of a key that is not recognised is data, and no later run of any operations selects it. */
  lemma UnrecognisedIsNeverSelected(lib: Library, s: SessionState, password: Option<string>, decoded: Decoded, i: nat,
                                    ops: seq<Op>)
    requires Lawful(lib) && Loads(s, password, decoded) && i < |decoded.bags| && decoded.bags[i].kind == KEY
    requires !Recognised(lib, decoded.bags[i].value)
    ensures var s1 := Login(lib, s, password, decoded).0;
      var k := |s.store.bags| + i;
      k < |s1.store.bags| && s1.store.bags[k].kind == DATA
      && Run(lib, s1, ops).store.selected != Some(s1.store.bags[k])
  {
    hide Lawful, Recognised, Inv, Run;
    Loaded(lib, s, password, decoded, i);
    RunSelectsKeys(lib, Login(lib, s, password, decoded).0, ops);
  }

  /** A key on a curve of its own has a public key, and yet no id and no run selects it. */
  lemma ExplicitCurveIsNeverSelected(lib: Library, s: SessionState, password: Option<string>, decoded: Decoded, i: nat,
                                     ops: seq<Op>)
    requires Lawful(lib) && Loads(s, password, decoded) && i < |decoded.bags| && decoded.bags[i].kind == KEY
    requires lib.decodeKey(decoded.bags[i].value).Some?
    requires var key := lib.decodeKey(decoded.bags[i].value).value;
      IsDstu(key.algo) && key.params.ExplicitCurve? && SubjectKey(lib, key).Some?
    ensures var s1 := Login(lib, s, password, decoded).0;
      var k := |s.store.bags| + i;
      k < |s1.store.bags| && s1.store.bags[k].kind == DATA
      && Run(lib, s1, ops).store.selected != Some(s1.store.bags[k])
  {
    InfoReadableIff(lib, lib.decodeKey(decoded.bags[i].value).value);
    assert !Recognised(lib, decoded.bags[i].value);
    hide Lawful, Recognised, Loads, Login, Run, SubjectKey, IsDstu;
    UnrecognisedIsNeverSelected(lib, s, password, decoded, i, ops);
  }

  // ---------- copies ----------

  /** A later key with the ids of an earlier one is selected by no id. */
  lemma CopyIsNeverSelected(s: SessionState, j: nat, k: nat, id: bytes)
    requires Sound(s.store) && s.store.isOpen && j < k < |s.store.bags|
    requires var a, b := s.store.bags[j], s.store.bags[k];
      a.kind == b.kind && a.keyId == b.keyId && a.keyId2 == b.keyId2
    ensures SelectKey(s, Some(id)).0.store.selected != Some(s.store.bags[k])
  {
    hide SelectKey;
    SelectsIff(s, k, id);
    if AnswersTo(s.store.bags[k], id) { assert AnswersTo(s.store.bags[j], id); }
  }

  /** A second login appends the file's keys again, recognised and under the same ids, and no id selects these. */
  lemma SecondLoginHidesCopies(lib: Library, s: SessionState, password: Option<string>, decoded: Decoded, i: nat,
                               id: bytes)
    requires Loads(s, password, decoded) && i < |decoded.bags| && decoded.bags[i].kind == KEY
    ensures var s1 := Login(lib, s, password, decoded).0;
      var s2 := Login(lib, s1, password, decoded).0;
      var k := |s1.store.bags| + i;
      && k < |s2.store.bags| && (s2.store.bags[k].kind == KEY <==> Recognised(lib, decoded.bags[i].value))
      && SelectKey(s2, Some(id)).0.store.selected != Some(s2.store.bags[k])
  {
    hide Recognised, Inv;
    Loaded(lib, s, password, decoded, i);
    var s1 := Login(lib, s, password, decoded).0;
    Loaded(lib, s1, password, decoded, i);
    var s2 := Login(lib, s1, password, decoded).0;
    InvIsSound(s2);
    var j, k := |s.store.bags| + i, |s1.store.bags| + i;
    assert s2.store.bags[j] == s1.store.bags[j];
    SameIdsAnywhere(lib, s.store.nextAddress + i, s1.store.nextAddress + i, decoded.bags[i].value);
    hide KeyBag, Login, SelectKey, Sound;
    CopyIsNeverSelected(s2, j, k, id);
  }

  /** A key that is recognised and has an id, and is selected by none: the copy of a file read twice. */
  lemma RecognisedCopyIsNotSelected(id: bytes)
    ensures var lib := SampleLibrary();
      var decoded := Decoded(RetOk, [BagData(KEY, [5])], false);
      var s1 := Login(lib, Opened(false, false), Some("x"), decoded).0;
      var s2 := Login(lib, s1, Some("x"), decoded).0;
      && |s2.store.bags| == 2 && AnswersTo(s2.store.bags[1], [1, 5])
      && SelectKey(s2, Some(id)).0.store.selected != Some(s2.store.bags[1])
  {
    var lib, decoded := SampleLibrary(), Decoded(RetOk, [BagData(KEY, [5])], false);
    SampleRecognises([5]);
    EcIsNotDstu();
    assert [1] + [5] == [1 as byte, 5];
    assert KeyBag(lib, 1, [5]).keyId == [1, 5];
    hide KeyBag, SampleLibrary, SelectKey, Recognised;
    SecondLoginHidesCopies(lib, Opened(false, false), Some("x"), decoded, 0, id);
  }

  lemma SameIdsAnywhere(lib: Library, a: nat, b: nat, value: bytes)
    ensures KeyBag(lib, a, value).(address := b) == KeyBag(lib, b, value)
  {
  }

  // ---------- ids across reloading ----------

  /** The id given when a key was made still selects a key after the file is read again: that key, unless one before it
      has the id. */
  lemma MadeKeyIsFoundAgain(lib: Library, request: KeyRequest, random: nat, s: SessionState, password: Option<string>,
                            decoded: Decoded, i: nat)
    requires Lawful(lib) && MakeKey(lib, request, random).Ok?
    requires Loads(s, password, decoded) && i < |decoded.bags|
    requires decoded.bags[i] == BagData(KEY, MakeKey(lib, request, random).value.value)
    ensures var id := MakeKey(lib, request, random).value.localKeyId;
      var s1 := Login(lib, s, password, decoded).0;
      var k := |s.store.bags| + i;
      && k < |s1.store.bags| && SelectKey(s1, Some(id)).1 == RetOk
      && (SelectKey(s1, Some(id)).0.store.selected == Some(s1.store.bags[k]) <==> !TakenBefore(s1.store.bags, k, id))
  {
    var made := MakeKey(lib, request, random).value;
    MadeIsRecognised(lib, request, random);
    MadeIdAnswers(lib, request, random, s.store.nextAddress + i);
    hide MakeKey, Lawful, Recognised, KeyBag, EqualKeyId, Inv;
    Loaded(lib, s, password, decoded, i);
    FileKeySelectableIff(lib, s, password, decoded, i, made.localKeyId);
    hide Login;
    FirstKeyFinds(Login(lib, s, password, decoded).0.store.bags, made.localKeyId);
  }

  /** By the mechanism: DSTU 7564 keys answer through their second id, all others through their own. */
  lemma MadeIdAnswers(lib: Library, request: KeyRequest, random: nat, address: nat)
    requires Lawful(lib) && MakeKey(lib, request, random).Ok?
    ensures var made := MakeKey(lib, request, random).value;
      AnswersTo(KeyBag(lib, address, made.value), made.localKeyId)
  {
    var made := MakeKey(lib, request, random).value;
    MadeIsRecognised(lib, request, random);
    MadeAlgorithm(lib, request, random);
    hide Generate, OidIsParent, SubjectKey, Recognised;
  }

  /** What a key made on request decodes to, as far as its ids depend on it. */
  lemma MadeAlgorithm(lib: Library, request: KeyRequest, random: nat)
    requires Lawful(lib) && MakeKey(lib, request, random).Ok?
    ensures var made := MakeKey(lib, request, random).value;
      && lib.decodeKey(made.value).Some?
      && (IsDstu(lib.decodeKey(made.value).value.algo) <==> IsDstu(request.mechanism))
      && KeyIdBy(lib, NewIdHash(request.mechanism), made.value) == Some(made.localKeyId)
      && made.localKeyId != []
  {
    var algo := if OidIsParent(OID_DSTU4145_WITH_DSTU7564, request.mechanism) then OID_DSTU4145_PARAM_PB_LE
                else request.mechanism;
    assert ReadsBack(lib, Generate(lib, algo, request.parameter, random));
    GeneratedIsDstuIff(lib, algo, request.parameter, random);
    assert IsDstu(OID_DSTU4145_PARAM_PB_LE) by { PbLeIsDstu(); }
    hide Generate, OidIsParent, SubjectKey;
  }

  // ---------- the ids of the creating session ----------

  /** Whatever selects a new key in the session that made it selects it after reloading. The other way, its own id
      does so exactly if the mechanism is not a DSTU 7564 one, or the two digests agree. */
  lemma CreatedIdsIff(lib: Library, request: KeyRequest, random: nat, a: nat, b: nat)
    requires Lawful(lib) && MakeKey(lib, request, random).Ok?
    ensures var made := MakeKey(lib, request, random).value;
      && (forall id :: AnswersTo(NewKeyBag(lib, a, made), id) ==> AnswersTo(KeyBag(lib, b, made.value), id))
      && (AnswersTo(NewKeyBag(lib, a, made), KeyBag(lib, b, made.value).keyId)
          <==> !OidIsParent(OID_DSTU4145_WITH_DSTU7564, request.mechanism)
               || KeyIdBy(lib, Gost34311, made.value) == KeyIdBy(lib, Dstu7564, made.value))
  {
    var made := MakeKey(lib, request, random).value;
    MadeIsRecognised(lib, request, random);
    MadeIdAnswers(lib, request, random, b);
    MadeAlgorithm(lib, request, random);
    hide MakeKey, OidIsParent, Recognised, KeyIdBy, Lawful;
  }
}
