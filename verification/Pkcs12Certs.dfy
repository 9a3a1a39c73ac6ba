/** Certificates added to a PKCS#12 session: twice, and under distinct key ids. */
module Pkcs12Certs {
  import opened Prelude
  import opened Pkcs12Keys
  import opened Pkcs12Store
  import opened Pkcs12Session
  import opened Pkcs12Runs

  // ---------- adding twice ----------

  /** The call gets as far as appending a bag. */
  predicate Adds(lib: Library, s: SessionState, cert: bytes, encoded: Ret) {
    && Refusal(s.store).None? && encoded == RetOk
    && CertKeyId(lib, cert).Some? && !HasCert(lib, s.store.bags, CertKeyId(lib, cert).value)
  }

  /** The search finds a certificate again by the id it was looked up with. */
  predicate FoundAgain(lib: Library, cert: bytes)
    requires lib.certKey(cert).Some?
  {
    var key := lib.certKey(cert).value;
    OidIsParent(OID_DSTU4145_WITH_DSTU7564, key.algo)
    ==> lib.hash(Sha1, key.publicKey) == lib.hash(Gost34311, key.publicKey)
  }

  /** Adding a certificate twice equals adding it once, except for keys hashed with DSTU 7564. */
  lemma AddTwiceIff(lib: Library, s: SessionState, cert: bytes, encoded: Ret, stored: Ret)
    ensures var once := AddCertificate(lib, s, Some(cert), encoded, stored).0;
      AddCertificate(lib, once, Some(cert), encoded, stored).0 == once
      <==> !Adds(lib, s, cert, encoded) || FoundAgain(lib, cert)
  {
    if Adds(lib, s, cert, encoded) {
      AgreesIff(lib, cert);
      hide CertContainKeyId, CertKeyId, FoundAgain;
      HasAppended(lib, s.store.bags, CertBag(s.store.nextAddress, cert), CertKeyId(lib, cert).value);
    }
  }

  lemma HasAppended(lib: Library, bags: seq<Bag>, bag: Bag, id: bytes)
    requires bag.kind == CERT
    ensures HasCert(lib, bags + [bag], id) <==> HasCert(lib, bags, id) || CertContainKeyId(lib, bag.value, id)
  {
    assert bag in bags + [bag];
    forall b ensures b in bags + [bag] <==> b in bags || b == bag {}
  }

  lemma TaggedIds()
    ensures CertKeyId(SampleLibrary(), [7]) == Some([2, 7])
    ensures !CertContainKeyId(SampleLibrary(), [7], [2, 7])
  {
    var lib, algo := SampleLibrary(), DSTU7564_KEY;
    assert OidIsParent(OID_DSTU4145_WITH_DSTU7564, algo);
    ParentsAreDisjoint(algo);
    assert lib.certKey([7]) == Some(CertKey(algo, [7]));
    assert [2] + [7] == [2, 7] && [1] + [7] == [1, 7];
  }

  lemma AddTwiceCanStoreTwice()
    ensures var lib, s := SampleLibrary(), Opened(true, false);
      var add := OpAddCertificate(Some([7]), RetOk, RetOk);
      var login := OpLogin(Some("x"), Decoded(RetOk, [], false));
      Run(lib, s, [login, add, add]).store.bags == [CertBag(0, [7]), CertBag(1, [7])]
  {
    var lib, s := SampleLibrary(), Opened(true, false);
    var add := OpAddCertificate(Some([7]), RetOk, RetOk);
    var login := OpLogin(Some("x"), Decoded(RetOk, [], false));
    var s1 := Step(lib, s, login);
    TaggedIds();
    var s2 := Step(lib, s1, add);
    assert s2.store.bags == [CertBag(0, [7])];
    var s3 := Step(lib, s2, add);
    assert s3.store.bags == [CertBag(0, [7]), CertBag(1, [7])];
    assert [login, add, add][1..] == [add, add] && [add, add][1..] == [add] && [add][1..] == [];
    assert Run(lib, s, [login, add, add]) == Run(lib, s1, [add, add]);
    assert Run(lib, s1, [add, add]) == Run(lib, s2, [add]);
    assert Run(lib, s2, [add]) == Run(lib, s3, []);
  }

  // ---------- distinct certificate ids ----------

  predicate DistinctIds(lib: Library, a: Bag, b: Bag) {
    a.kind == CERT && b.kind == CERT && CertKeyId(lib, a.value).Some? ==>
      CertKeyId(lib, a.value) != CertKeyId(lib, b.value)
  }

  predicate DistinctCertIds(lib: Library, bags: seq<Bag>) {
    forall i, j :: 0 <= i < j < |bags| ==> DistinctIds(lib, bags[i], bags[j])
  }

  predicate Refound(lib: Library, cert: bytes) {
    CertKeyId(lib, cert).Some? ==> FoundAgain(lib, cert)
  }

  predicate AllRefound(lib: Library, bags: seq<Bag>) {
    forall b :: b in bags && b.kind == CERT ==> Refound(lib, b.value)
  }

  /** Every certificate added is found again, and logins bring none of their own. */
  predicate AddsRefound(lib: Library, op: Op) {
    match op
    case OpLogin(password, decoded) => forall i :: 0 <= i < |decoded.bags| ==> decoded.bags[i].kind != CERT
    case OpAddCertificate(cert, encoded, stored) => cert.Some? ==> Refound(lib, cert.value)
    case _ => true
  }

  predicate CertIdsKept(lib: Library, bags: seq<Bag>) {
    DistinctCertIds(lib, bags) && AllRefound(lib, bags)
  }

  lemma {:induction false} WithoutKeepsDistinctIds(lib: Library, bags: seq<Bag>, gone: set<nat>)
    requires DistinctCertIds(lib, bags)
    ensures DistinctCertIds(lib, Without(bags, gone))
  {
    hide DistinctIds;
    if bags != [] {
      var rest, left := bags[1..], Without(bags[1..], gone);
      WithoutKeepsDistinctIds(lib, rest, gone);
      if bags[0].address !in gone {
        forall j | 0 <= j < |left| ensures DistinctIds(lib, bags[0], left[j]) {
          WithoutMembers(rest, gone, left[j]);
          var k :| 0 <= k < |rest| && rest[k] == left[j];
          assert bags[k + 1] == left[j];
        }
      }
    }
  }

  lemma WithoutKeepsIds(lib: Library, bags: seq<Bag>, gone: set<nat>)
    requires CertIdsKept(lib, bags)
    ensures CertIdsKept(lib, Without(bags, gone))
  {
    WithoutKeepsDistinctIds(lib, bags, gone);
    hide DistinctIds, Refound, Without;
    forall b | b in Without(bags, gone) ensures b in bags { WithoutMembers(bags, gone, b); }
  }

  /** A certificate whose id no stored one answers to has an id no stored one has. */
  lemma AppendKeepsIds(lib: Library, bags: seq<Bag>, bag: Bag)
    requires CertIdsKept(lib, bags)
    requires bag.kind == CERT ==>
      Refound(lib, bag.value) && CertKeyId(lib, bag.value).Some? && !HasCert(lib, bags, CertKeyId(lib, bag.value).value)
    ensures CertIdsKept(lib, bags + [bag])
  {
    forall i | 0 <= i < |bags| ensures DistinctIds(lib, bags[i], bag) {
      if bag.kind == CERT && bags[i].kind == CERT && CertKeyId(lib, bags[i].value).Some? {
        assert bags[i] in bags && Refound(lib, bags[i].value);
        AgreesIff(lib, bags[i].value);
      }
    }
  }

  lemma {:induction false} AppendPlainKeepsIds(lib: Library, bags: seq<Bag>, more: seq<Bag>)
    requires CertIdsKept(lib, bags) && forall i :: 0 <= i < |more| ==> more[i].kind != CERT
    ensures CertIdsKept(lib, bags + more)
    decreases |more|
  {
    hide CertIdsKept, CertKeyId, HasCert;
    if more == [] {
      assert bags + more == bags;
    } else {
      AppendKeepsIds(lib, bags, more[0]);
      AppendPlainKeepsIds(lib, bags + [more[0]], more[1..]);
      assert bags + more == bags + [more[0]] + more[1..];
    }
  }

  lemma StepKeepsCertIds(lib: Library, s: SessionState, op: Op)
    requires CertIdsKept(lib, s.store.bags) && AddsRefound(lib, op)
    ensures CertIdsKept(lib, Step(lib, s, op).store.bags)
  {
    hide CertIdsKept, CertKeyId, CertContainKeyId, HasCert, Without, RelatedCerts, FirstKey, MakeKey, Recognised;
    var bags := s.store.bags;
    match op
    case OpLogin(password, decoded) =>
      AppendPlainKeepsIds(lib, bags, Allocated(lib, s.store.nextAddress, decoded.bags));
    case OpCreateKey(request, drawn, encoded, stored) =>
      if request.Some? && MakeKey(lib, request.value, drawn).Ok? {
        AppendKeepsIds(lib, bags, NewKeyBag(lib, s.store.nextAddress, MakeKey(lib, request.value, drawn).value));
      }
    case OpDeleteKey(id, related, stored) =>
      if id.Some? && FirstKey(bags, id.value).Some? {
        WithoutKeepsIds(lib, bags, Doomed(lib, s.store, id.value, related));
      }
    case OpAddCertificate(cert, encoded, stored) =>
      if cert.Some? && CertKeyId(lib, cert.value).Some? && !HasCert(lib, bags, CertKeyId(lib, cert.value).value) {
        AppendKeepsIds(lib, bags, CertBag(s.store.nextAddress, cert.value));
      }
    case OpDeleteCertificate(id, stored) =>
      if id.Some? { WithoutKeepsIds(lib, bags, RelatedCerts(lib, bags, id.value)); }
    case _ =>
  }

  /** Over every run, no two certificates added through the session have one key id. */
  lemma {:induction false} RunKeepsCertIds(lib: Library, s: SessionState, ops: seq<Op>)
    requires CertIdsKept(lib, s.store.bags) && forall i :: 0 <= i < |ops| ==> AddsRefound(lib, ops[i])
    ensures DistinctCertIds(lib, Run(lib, s, ops).store.bags) && CertIdsKept(lib, Run(lib, s, ops).store.bags)
    decreases |ops|
  {
    hide Step, DistinctIds, AllRefound, AddsRefound;
    if ops != [] {
      StepKeepsCertIds(lib, s, ops[0]);
      RunKeepsCertIds(lib, Step(lib, s, ops[0]), ops[1..]);
    }
  }

  // ---------- exactly when ids repeat ----------

  /** A stored certificate has the id, whether or not the search would find it. */
  predicate IdTaken(lib: Library, bags: seq<Bag>, id: bytes) {
    exists b :: b in bags && b.kind == CERT && CertKeyId(lib, b.value) == Some(id)
  }

  /** A file brings a certificate whose id is stored already, or comes before it in the file. */
  predicate BringsDuplicate(lib: Library, bags: seq<Bag>, ds: seq<BagData>) {
    exists i :: 0 <= i < |ds| && RepeatsId(lib, bags, ds, i)
  }

  predicate RepeatsId(lib: Library, bags: seq<Bag>, ds: seq<BagData>, i: nat)
    requires i < |ds|
  {
    && ds[i].kind == CERT && CertKeyId(lib, ds[i].value).Some?
    && (IdTaken(lib, bags, CertKeyId(lib, ds[i].value).value)
        || exists j :: 0 <= j < i && ds[j].kind == CERT && CertKeyId(lib, ds[j].value) == CertKeyId(lib, ds[i].value))
  }

  /** The call appends a certificate under an id that a stored one has, which the search did not find. */
  predicate AddsDuplicate(lib: Library, s: SessionState, op: Op) {
    match op
    case OpLogin(password, decoded) =>
      password.Some? && password.value != "" && !s.store.isCreate && BringsDuplicate(lib, s.store.bags, decoded.bags)
    case OpAddCertificate(cert, encoded, stored) =>
      cert.Some? && Adds(lib, s, cert.value, encoded) && HidesId(lib, s.store.bags, CertKeyId(lib, cert.value).value)
    case _ => false
  }

  /** A stored certificate has the id and is not found again by it. */
  predicate HidesId(lib: Library, bags: seq<Bag>, id: bytes) {
    exists b :: b in bags && b.kind == CERT && CertKeyId(lib, b.value) == Some(id) && !FoundAgain(lib, b.value)
  }

  /** If the search finds nothing under an id, what has it cannot be found. */
  lemma TakenIsHidden(lib: Library, bags: seq<Bag>, id: bytes)
    requires !HasCert(lib, bags, id)
    ensures IdTaken(lib, bags, id) <==> HidesId(lib, bags, id)
  {
    hide CertKeyId, CertContainKeyId, FoundAgain;
    if b :| b in bags && b.kind == CERT && CertKeyId(lib, b.value) == Some(id) {
      FoundAgainIff(lib, b.value);
    }
  }

  lemma FoundAgainIff(lib: Library, cert: bytes)
    requires CertKeyId(lib, cert).Some?
    ensures lib.certKey(cert).Some?
    ensures FoundAgain(lib, cert) <==> CertContainKeyId(lib, cert, CertKeyId(lib, cert).value)
  {
    AgreesIff(lib, cert);
  }

  lemma AppendKeepsDistinctIff(lib: Library, bags: seq<Bag>, bag: Bag)
    requires DistinctCertIds(lib, bags)
    ensures DistinctCertIds(lib, bags + [bag])
      <==> !(bag.kind == CERT && CertKeyId(lib, bag.value).Some? && IdTaken(lib, bags, CertKeyId(lib, bag.value).value))
  {
    hide CertKeyId;
    var all := bags + [bag];
    if bag.kind == CERT && CertKeyId(lib, bag.value).Some? && IdTaken(lib, bags, CertKeyId(lib, bag.value).value) {
      var b :| b in bags && b.kind == CERT && CertKeyId(lib, b.value) == CertKeyId(lib, bag.value);
      var i :| 0 <= i < |bags| && bags[i] == b;
      assert !DistinctIds(lib, all[i], all[|bags|]);
    } else {
      forall i, j | 0 <= i < j < |all| ensures DistinctIds(lib, all[i], all[j]) {
        if j < |bags| {
          assert DistinctIds(lib, bags[i], bags[j]);
        } else {
          assert bags[i] in bags;
        }
      }
    }
  }

  /** The m-th bag of a file clashes with one before it exactly if it repeats an id. */
  lemma RepeatsIff(lib: Library, bags: seq<Bag>, ds: seq<BagData>, address: nat, m: nat)
    requires m < |ds|
    ensures var all := bags + Allocated(lib, address, ds);
      RepeatsId(lib, bags, ds, m) <==> exists i :: 0 <= i < |bags| + m && !DistinctIds(lib, all[i], all[|bags| + m])
  {
    AllocatedCerts(lib, address, ds);
    hide CertKeyId, Allocated;
    var more := Allocated(lib, address, ds);
    if RepeatsId(lib, bags, ds, m) { RepeatClashes(lib, bags, ds, more, m); }
    if i :| 0 <= i < |bags| + m && !DistinctIds(lib, (bags + more)[i], (bags + more)[|bags| + m]) {
      ClashRepeats(lib, bags, ds, more, m, i);
    }
  }

  /** Bags that hold just the certificates a file does. */
  predicate SameCerts(more: seq<Bag>, ds: seq<BagData>) {
    && |more| == |ds|
    && forall j :: 0 <= j < |ds| ==> more[j].value == ds[j].value && (more[j].kind == CERT <==> ds[j].kind == CERT)
  }

  lemma RepeatClashes(lib: Library, bags: seq<Bag>, ds: seq<BagData>, more: seq<Bag>, m: nat)
    requires m < |ds| && SameCerts(more, ds) && RepeatsId(lib, bags, ds, m)
    ensures exists i :: 0 <= i < |bags| + m && !DistinctIds(lib, (bags + more)[i], (bags + more)[|bags| + m])
  {
    hide CertKeyId;
    var all, n, id := bags + more, |bags|, CertKeyId(lib, ds[m].value);
    assert all[n + m] == more[m];
    if IdTaken(lib, bags, id.value) {
      var b :| b in bags && b.kind == CERT && CertKeyId(lib, b.value) == id;
      var i :| 0 <= i < n && bags[i] == b;
      assert all[i] == b && !DistinctIds(lib, all[i], all[n + m]);
    } else {
      var j :| 0 <= j < m && ds[j].kind == CERT && CertKeyId(lib, ds[j].value) == id;
      assert all[n + j] == more[j] && !DistinctIds(lib, all[n + j], all[n + m]);
    }
  }

  lemma ClashRepeats(lib: Library, bags: seq<Bag>, ds: seq<BagData>, more: seq<Bag>, m: nat, i: nat)
    requires m < |ds| && SameCerts(more, ds) && i < |bags| + m
    requires !DistinctIds(lib, (bags + more)[i], (bags + more)[|bags| + m])
    ensures RepeatsId(lib, bags, ds, m)
  {
    hide CertKeyId;
    assert (bags + more)[|bags| + m] == more[m];
    if i < |bags| {
      assert (bags + more)[i] == bags[i] && bags[i] in bags;
    } else {
      var j := i - |bags|;
      assert (bags + more)[i] == more[j];
    }
  }

  lemma AllocatedCerts(lib: Library, address: nat, ds: seq<BagData>)
    ensures SameCerts(Allocated(lib, address, ds), ds)
  {
    hide KeyBag, Recognised;
  }

  lemma FileKeepsDistinctIff(lib: Library, bags: seq<Bag>, ds: seq<BagData>, address: nat)
    requires DistinctCertIds(lib, bags)
    ensures DistinctCertIds(lib, bags + Allocated(lib, address, ds)) <==> !BringsDuplicate(lib, bags, ds)
  {
    hide DistinctIds, RepeatsId, Allocated;
    var all, n := bags + Allocated(lib, address, ds), |bags|;
    if m :| 0 <= m < |ds| && RepeatsId(lib, bags, ds, m) {
      RepeatsIff(lib, bags, ds, address, m);
      assert !DistinctCertIds(lib, all);
    }
    if !BringsDuplicate(lib, bags, ds) {
      forall i, j | 0 <= i < j < |all| ensures DistinctIds(lib, all[i], all[j]) {
        if j < n {
          assert DistinctIds(lib, bags[i], bags[j]);
        } else {
          RepeatsIff(lib, bags, ds, address, j - n);
          assert all[n + (j - n)] == all[j];
        }
      }
    }
  }

  /** From distinct ids, one step keeps them distinct exactly if it adds no duplicate. */
  lemma StepKeepsDistinctIff(lib: Library, s: SessionState, op: Op)
    requires DistinctCertIds(lib, s.store.bags)
    ensures DistinctCertIds(lib, Step(lib, s, op).store.bags) <==> !AddsDuplicate(lib, s, op)
  {
    hide DistinctCertIds, CertKeyId, CertContainKeyId, HasCert, Without, RelatedCerts, FirstKey, MakeKey, Recognised;
    hide IdTaken, HidesId, BringsDuplicate, Allocated;
    var bags := s.store.bags;
    match op
    case OpLogin(password, decoded) => FileKeepsDistinctIff(lib, bags, decoded.bags, s.store.nextAddress);
    case OpCreateKey(request, drawn, encoded, stored) =>
      if request.Some? && MakeKey(lib, request.value, drawn).Ok? {
        var made := MakeKey(lib, request.value, drawn).value;
        AppendKeepsDistinctIff(lib, bags, NewKeyBag(lib, s.store.nextAddress, made));
      }
    case OpDeleteKey(id, related, stored) =>
      if id.Some? && FirstKey(bags, id.value).Some? {
        WithoutKeepsDistinctIds(lib, bags, Doomed(lib, s.store, id.value, related));
      }
    case OpAddCertificate(cert, encoded, stored) =>
      if cert.Some? && Adds(lib, s, cert.value, encoded) {
        TakenIsHidden(lib, bags, CertKeyId(lib, cert.value).value);
        AppendKeepsDistinctIff(lib, bags, CertBag(s.store.nextAddress, cert.value));
      }
    case OpDeleteCertificate(id, stored) =>
      if id.Some? { WithoutKeepsDistinctIds(lib, bags, RelatedCerts(lib, bags, id.value)); }
    case _ =>
  }

  predicate DistinctThroughout(lib: Library, s: SessionState, ops: seq<Op>)
    decreases |ops|
  {
    DistinctCertIds(lib, s.store.bags) && (ops == [] || DistinctThroughout(lib, Step(lib, s, ops[0]), ops[1..]))
  }

  predicate NeverAddsDuplicate(lib: Library, s: SessionState, ops: seq<Op>)
    decreases |ops|
  {
    ops == [] || (!AddsDuplicate(lib, s, ops[0]) && NeverAddsDuplicate(lib, Step(lib, s, ops[0]), ops[1..]))
  }

  /** Over every run, certificate ids are distinct at every step exactly if no step adds a duplicate. */
  lemma {:induction false} DistinctThroughoutIff(lib: Library, s: SessionState, ops: seq<Op>)
    requires DistinctCertIds(lib, s.store.bags)
    ensures DistinctThroughout(lib, s, ops) <==> NeverAddsDuplicate(lib, s, ops)
    decreases |ops|
  {
    hide Step, AddsDuplicate, DistinctCertIds;
    if ops != [] {
      StepKeepsDistinctIff(lib, s, ops[0]);
      if !AddsDuplicate(lib, s, ops[0]) {
        DistinctThroughoutIff(lib, Step(lib, s, ops[0]), ops[1..]);
      } else {
        assert !DistinctThroughout(lib, Step(lib, s, ops[0]), ops[1..]);
      }
    }
  }

  /** From a session just opened. */
  lemma ReachableDistinctIff(lib: Library, isCreate: bool, readOnly: bool, ops: seq<Op>)
    ensures DistinctThroughout(lib, Opened(isCreate, readOnly), ops)
      <==> NeverAddsDuplicate(lib, Opened(isCreate, readOnly), ops)
  {
    DistinctThroughoutIff(lib, Opened(isCreate, readOnly), ops);
  }
}
