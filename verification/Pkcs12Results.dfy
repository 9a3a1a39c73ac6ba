/** What the results of PKCS#12 session operations tell, and when a session is open or read-only. */
module Pkcs12Results {
  import opened Prelude
  import opened Pkcs12Keys
  import opened Pkcs12Store
  import opened Pkcs12Session
  import opened Pkcs12Runs

  // ---------- open and read-only over runs ----------

  predicate HasPassword(password: Option<string>) { password.Some? && password.value != "" }

  /** A login that succeeds: a new store takes any password, a file is read to its end. */
  predicate Opens(isCreate: bool, op: Op) {
    op.OpLogin? && HasPassword(op.password) && (isCreate || op.decoded.ret == RetOk)
  }

  /** A successful login to a file whose format cannot be written. */
  predicate Locks(isCreate: bool, op: Op) {
    Opens(isCreate, op) && !isCreate && op.decoded.readOnly
  }

  lemma StepOpens(lib: Library, s: SessionState, op: Op)
    ensures var st := Step(lib, s, op).store;
      && st.isCreate == s.store.isCreate
      && (st.isOpen <==> s.store.isOpen || Opens(s.store.isCreate, op))
      && (st.readOnly <==> s.store.readOnly || Locks(s.store.isCreate, op))
  {
    hide HasCert, CertKeyId, CertContainKeyId, Without, RelatedCerts, FirstKey, MakeKey, Allocated;
  }

  lemma {:induction false} RunOpens(lib: Library, s: SessionState, ops: seq<Op>)
    ensures var st := Run(lib, s, ops).store;
      && st.isCreate == s.store.isCreate
      && (st.isOpen <==> s.store.isOpen || exists i :: 0 <= i < |ops| && Opens(s.store.isCreate, ops[i]))
      && (st.readOnly <==> s.store.readOnly || exists i :: 0 <= i < |ops| && Locks(s.store.isCreate, ops[i]))
    decreases |ops|
  {
    hide Step, Opens, Locks;
    if ops != [] {
      StepOpens(lib, s, ops[0]);
      RunOpens(lib, Step(lib, s, ops[0]), ops[1..]);
      var rest, c := ops[1..], s.store.isCreate;
      assert forall i :: 0 <= i < |rest| ==> rest[i] == ops[i + 1];
      if i :| 0 <= i < |ops| && Opens(c, ops[i]) { assert i == 0 || Opens(c, rest[i - 1]); }
      if i :| 0 <= i < |ops| && Locks(c, ops[i]) { assert i == 0 || Locks(c, rest[i - 1]); }
      if i :| 0 <= i < |rest| && Opens(c, rest[i]) { assert Opens(c, ops[i + 1]); }
      if i :| 0 <= i < |rest| && Locks(c, rest[i]) { assert Locks(c, ops[i + 1]); }
    }
  }

  /** A session is open exactly if some login of the run succeeded, and read-only exactly if it was opened so or
      some successful login read a file that cannot be written. */
  lemma ReachableOpenIff(lib: Library, isCreate: bool, readOnly: bool, ops: seq<Op>)
    ensures var st := Run(lib, Opened(isCreate, readOnly), ops).store;
      && (st.isOpen <==> exists i :: 0 <= i < |ops| && Opens(isCreate, ops[i]))
      && (st.readOnly <==> readOnly || exists i :: 0 <= i < |ops| && Locks(isCreate, ops[i]))
  {
    RunOpens(lib, Opened(isCreate, readOnly), ops);
  }

  // ---------- login and logout ----------

  /** The result is success exactly if the login is; whatever it is, what was read is there, and nothing is selected
      unless no password was given. */
  lemma LoginResult(lib: Library, s: SessionState, password: Option<string>, decoded: Decoded)
    ensures var (t, ret) := Login(lib, s, password, decoded);
      && (ret == RetOk <==> Opens(s.store.isCreate, OpLogin(password, decoded)))
      && (!HasPassword(password) ==> t == s && ret == InvalidParameter)
      && (HasPassword(password) ==> t.store.selected.None? && t.stream == s.stream)
      && (HasPassword(password) && !s.store.isCreate ==>
            ret == decoded.ret && t.store.bags == s.store.bags + Allocated(lib, s.store.nextAddress, decoded.bags))
      && (s.store.isCreate ==> t.store.bags == s.store.bags)
  {
  }

  /** A bag is what the file holds: certificates and data as they are, keys as they are recognised. */
  lemma BagsAsRead(lib: Library, address: nat, ds: seq<BagData>, i: nat)
    requires i < |ds|
    ensures var b := Allocated(lib, address, ds)[i];
      && b.value == ds[i].value && b.address == address + i
      && (b.kind == KEY <==> ds[i].kind == KEY && Recognised(lib, ds[i].value))
      && (b.kind == CERT <==> ds[i].kind == CERT)
  {
  }

  lemma LogoutOnlyUnselects(s: SessionState)
    ensures Logout(s).store.selected.None? && Logout(s).stream == s.stream
    ensures Logout(s).store.bags == s.store.bags && Logout(s).store.isOpen == s.store.isOpen
    ensures Logout(s).store.readOnly == s.store.readOnly
  {
  }

  // ---------- keys ----------

  /** Selecting: what is found is selected, and what was selected before is not, found or not. */
  lemma SelectKeyResult(s: SessionState, id: Option<bytes>)
    ensures var (t, ret) := SelectKey(s, id);
      && (ret == InvalidParameter <==> id.None?)
      && (ret == NotAuthorized <==> id.Some? && !s.store.isOpen)
      && (ret == RetOk || ret == KeyNotFound <==> id.Some? && s.store.isOpen)
      && (ret == RetOk ==> t.store.selected.Some? && t.store.selected.value in s.store.bags
                           && t.store.selected.value.kind == KEY && EqualKeyId(t.store.selected.value, id.value))
      && (ret == KeyNotFound ==> t.store.selected.None?)
      && (ret == KeyNotFound ==> forall b :: b in s.store.bags && b.kind == KEY ==> !EqualKeyId(b, id.value))
      && (ret != RetOk && ret != KeyNotFound ==> t == s)
      && t.stream == s.stream && t.store.bags == s.store.bags
  {
    hide EqualKeyId, FirstKey;
    if id.Some? { FirstKeyFinds(s.store.bags, id.value); }
  }

  /** The two ids of a key: the second counts only if there is one. */
  lemma EqualKeyIdIff(b: Bag, id: bytes)
    ensures EqualKeyId(b, b.keyId)
    ensures b.keyId2 != [] ==> EqualKeyId(b, b.keyId2)
    ensures EqualKeyId(b, id) ==> id == b.keyId || (id == b.keyId2 && id != [])
  {
  }

  /** With all else in order, creating fails for exactly these reasons, in this order. */
  lemma CreateKeyResult(lib: Library, s: SessionState, request: Option<KeyRequest>, random: nat)
    ensures var (t, ret) := CreateKey(lib, s, request, random, RetOk, RetOk);
      && (ret == RetOk <==>
            request.Some? && s.store.isOpen && !s.store.readOnly && MakeKey(lib, request.value, random).Ok?)
      && (request.None? ==> ret == InvalidParameter)
      && (request.Some? && !s.store.isOpen ==> ret == NotAuthorized)
      && (request.Some? && s.store.isOpen && s.store.readOnly ==> ret == ReadonlySession)
      && (ret != RetOk ==> t == s)
  {
    hide MakeKey;
  }

  /** A key that is made and encrypted is stored last and selected, whether or not the file can be written. */
  lemma CreatedIsStored(lib: Library, s: SessionState, request: Option<KeyRequest>, random: nat, encoded: Ret,
                        stored: Ret)
    requires request.Some? && Refusal(s.store).None? && MakeKey(lib, request.value, random).Ok?
    ensures var (t, ret) := CreateKey(lib, s, request, random, encoded, stored);
      var made := MakeKey(lib, request.value, random).value;
      if encoded != RetOk then t == s && ret == encoded
      else
        && ret == stored && |t.store.bags| == |s.store.bags| + 1 && s.store.bags <= t.store.bags
        && var b := t.store.bags[|s.store.bags|];
        && t.store.selected == Some(b) && b.value == made.value
        && (b.kind == KEY && made.localKeyId != [] ==> b.keyId == made.localKeyId)
        && t.stream == s.stream
  {
    hide MakeKey, Recognised;
  }

  /** What a request must say, and what stands in its way otherwise. */
  lemma MakeKeyResult(lib: Library, request: KeyRequest, random: nat)
    ensures request.BadJson? ==> MakeKey(lib, request, random) == Err(InvalidJson)
    ensures request.KeyRequest? && request.mechanism == "" ==> MakeKey(lib, request, random) == Err(InvalidParameter)
    ensures request.KeyRequest? && !request.labelEncodes ==> MakeKey(lib, request, random) == Err(InvalidParameter)
    ensures MakeKey(lib, request, random).Ok? ==>
      request.KeyRequest? && request.mechanism != "" && request.labelEncodes
  {
  }

  predicate HasKey(bags: seq<Bag>, id: bytes) {
    exists b :: b in bags && b.kind == KEY && EqualKeyId(b, id)
  }

  /** With the file written, deleting fails for exactly these reasons, in this order; a selection goes with its key. */
  lemma DeleteKeyResult(lib: Library, s: SessionState, id: Option<bytes>, related: bool)
    requires Inv(s)
    ensures var (t, ret) := DeleteKey(lib, s, id, related, RetOk);
      && (ret == InvalidParameter <==> id.None?)
      && (ret == NotAuthorized <==> id.Some? && !s.store.isOpen)
      && (ret == ReadonlySession <==> id.Some? && s.store.isOpen && s.store.readOnly)
      && (ret == RetOk <==> id.Some? && Refusal(s.store).None? && HasKey(s.store.bags, id.value))
      && (ret != RetOk ==> t == s)
      && (ret == RetOk && s.store.selected == FirstKey(s.store.bags, id.value) ==> t.store.selected.None?)
      && (ret == RetOk && s.store.selected != FirstKey(s.store.bags, id.value) ==> t.store.selected == s.store.selected)
      && t.stream == s.stream
  {
    hide EqualKeyId, FirstKey, Without, RelatedCerts, Sound;
    if id.Some? {
      FirstKeyFinds(s.store.bags, id.value);
      if FirstKey(s.store.bags, id.value).Some? && s.store.selected.Some?
         && s.store.selected.value.address == FirstKey(s.store.bags, id.value).value.address {
        SelectedIsFirst(s, FirstKey(s.store.bags, id.value).value);
      }
    }
  }

  lemma SelectedIsFirst(s: SessionState, b: Bag)
    requires Inv(s) && s.store.selected.Some? && b in s.store.bags && s.store.selected.value.address == b.address
    ensures s.store.selected.value == b
  {
    SameAddress(s.store.bags, s.store.selected.value, b);
  }

  // ---------- certificates ----------

  /** With the bag encoded and the file written, adding fails for exactly these reasons, in this order; afterwards
      the certificate is stored, or one that answers to its id was. */
  lemma AddCertificateResult(lib: Library, s: SessionState, cert: Option<bytes>)
    ensures var (t, ret) := AddCertificate(lib, s, cert, RetOk, RetOk);
      && (ret == InvalidParameter <==> cert.None?)
      && (ret == NotAuthorized <==> cert.Some? && !s.store.isOpen)
      && (ret == ReadonlySession <==> cert.Some? && s.store.isOpen && s.store.readOnly)
      && (ret == InvalidCertificate <==> cert.Some? && Refusal(s.store).None? && CertKeyId(lib, cert.value).None?)
      && (ret == RetOk <==> cert.Some? && Refusal(s.store).None? && CertKeyId(lib, cert.value).Some?)
      && (ret != RetOk ==> t == s)
      && (ret == RetOk ==>
            var n := |s.store.bags|;
            if HasCert(lib, s.store.bags, CertKeyId(lib, cert.value).value) then t == s
            else && |t.store.bags| == n + 1 && s.store.bags <= t.store.bags
                 && t.store.bags[n].kind == CERT && t.store.bags[n].value == cert.value
                 && t.store.selected == s.store.selected && t.stream == s.stream)
  {
    hide HasCert, CertKeyId;
  }

  /** When the bag cannot be encoded nothing is stored; when the file cannot be written the bag stays. */
  lemma AddCertificateFailures(lib: Library, s: SessionState, cert: bytes, encoded: Ret, stored: Ret)
    requires Refusal(s.store).None? && CertKeyId(lib, cert).Some?
    requires !HasCert(lib, s.store.bags, CertKeyId(lib, cert).value)
    ensures encoded != RetOk ==> AddCertificate(lib, s, Some(cert), encoded, stored) == (s, encoded)
    ensures encoded == RetOk ==>
      && AddCertificate(lib, s, Some(cert), encoded, stored).1 == stored
      && AddCertificate(lib, s, Some(cert), encoded, stored).0 == AddCertificate(lib, s, Some(cert), RetOk, RetOk).0
  {
    hide HasCert, CertKeyId;
  }

  /** A DSTU 4145 certificate with GOST 34.311 answers to two ids, any other to one. */
  lemma CertAnswersTo(lib: Library, cert: bytes, id: bytes)
    requires lib.certKey(cert).Some? && Lawful(lib)
    ensures var key := lib.certKey(cert).value;
      CertContainKeyId(lib, cert, id) <==>
        if OidIsParent("1.2.804.2.1.1.1.1.3.1", key.algo) then
          lib.hash(Gost34311, key.publicKey) == Some(id) || lib.hash(Dstu7564, key.publicKey) == Some(id)
        else lib.hash(Sha1, key.publicKey) == Some(id)
  {
    hide OidIsParent;
  }

  /** The id a certificate is looked up with: GOST 34.311 for both DSTU 4145 branches, SHA-1 for all else. */
  lemma CertIsLookedUpBy(lib: Library, cert: bytes)
    requires lib.certKey(cert).Some?
    ensures var key := lib.certKey(cert).value;
      CertKeyId(lib, cert) ==
        if OidIsParent("1.2.804.2.1.1.1.1.3.1", key.algo) || OidIsParent("1.2.804.2.1.1.1.1.3.6", key.algo)
        then lib.hash(Gost34311, key.publicKey) else lib.hash(Sha1, key.publicKey)
  {
    hide OidIsParent;
  }

  /** What oid_is_parent means, by arcs. */
  lemma OidIsParentIff(parent: string, oid: string)
    ensures OidIsParent(parent, oid) <==> oid == parent || (|oid| > |parent| && oid[..|parent| + 1] == parent + ".")
  {
    if |oid| > |parent| && oid[..|parent| + 1] == parent + "." {
      assert oid[..|parent|] == oid[..|parent| + 1][..|parent|] == parent;
      assert oid[|parent|] == oid[..|parent| + 1][|parent|] == '.';
    }
    if OidIsParent(parent, oid) && |oid| > |parent| {
      assert oid[..|parent| + 1] == oid[..|parent|] + [oid[|parent|]];
    }
  }

  /** With the file written, deleting certificates fails for exactly these reasons, in this order. */
  lemma DeleteCertificateResult(lib: Library, s: SessionState, id: Option<bytes>)
    ensures var (t, ret) := DeleteCertificate(lib, s, id, RetOk);
      && (ret == InvalidParameter <==> id.None?)
      && (ret == NotAuthorized <==> id.Some? && !s.store.isOpen)
      && (ret == ReadonlySession <==> id.Some? && s.store.isOpen && s.store.readOnly)
      && (ret == CertificateNotFound <==> id.Some? && Refusal(s.store).None? && !HasCert(lib, s.store.bags, id.value))
      && (ret == RetOk <==> id.Some? && Refusal(s.store).None? && HasCert(lib, s.store.bags, id.value))
      && (ret != RetOk ==> t == s)
      && t.store.selected == s.store.selected && t.stream == s.stream
  {
    hide HasCert, Without, RelatedCerts;
  }

  /** A failure to write the file changes the result and nothing else. */
  lemma StoreFailureOnlyTells(lib: Library, s: SessionState, id: Option<bytes>, related: bool, stored: Ret)
    ensures DeleteKey(lib, s, id, related, stored).0 == DeleteKey(lib, s, id, related, RetOk).0
    ensures DeleteKey(lib, s, id, related, RetOk).1 == RetOk ==> DeleteKey(lib, s, id, related, stored).1 == stored
    ensures DeleteCertificate(lib, s, id, stored).0 == DeleteCertificate(lib, s, id, RetOk).0
    ensures DeleteCertificate(lib, s, id, RetOk).1 == RetOk ==> DeleteCertificate(lib, s, id, stored).1 == stored
  {
    hide HasCert, Without, RelatedCerts, FirstKey;
  }

  // ---------- signing ----------

  /** The library signs hash by hash: as many signatures as hashes, each as if the hash stood alone. */
  ghost predicate SignsEach(lib: Library) {
    forall key: bytes, hashes: seq<bytes>, algo: string, params: Option<bytes>, random: nat ::
      lib.sign(key, hashes, algo, params, random).Ok? ==>
        SignedAlone(lib, key, hashes, algo, params, random, lib.sign(key, hashes, algo, params, random).value)
  }

  predicate SignedAlone(lib: Library, key: bytes, hashes: seq<bytes>, algo: string, params: Option<bytes>, random: nat,
                        signatures: seq<bytes>)
  {
    && |signatures| == |hashes|
    && forall i :: 0 <= i < |hashes| ==> lib.sign(key, [hashes[i]], algo, params, random + i) == Ok([signatures[i]])
  }

  /** The sample library does so. */
  lemma SampleSignsEach()
    ensures SignsEach(SampleLibrary())
  {
  }

  /** Signing at once fails for exactly these reasons, in this order; a success is a signature for every hash. */
  lemma SignResult(lib: Library, s: SessionState, algo: string, params: Option<bytes>, hashes: seq<bytes>, random: nat)
    requires SignsEach(lib)
    ensures var signed := Sign(lib, s, algo, params, hashes, random);
      && (hashes == [] ==> signed == Err(InvalidParameter))
      && (hashes != [] && !s.store.isOpen ==> signed == Err(NotAuthorized))
      && (hashes != [] && s.store.isOpen && s.store.selected.None? ==> signed == Err(KeyNotSelected))
      && (signed.Ok? ==> |signed.value| == |hashes|)
      && (signed.Ok? ==> forall i :: 0 <= i < |hashes| ==>
            Sign(lib, s, algo, params, [hashes[i]], random + i) == Ok([signed.value[i]]))
  {
    if hashes != [] && s.store.isOpen && s.store.selected.Some? {
      var key := s.store.selected.value.value;
      assert lib.sign(key, hashes, algo, params, random).Ok? ==>
        SignedAlone(lib, key, hashes, algo, params, random, lib.sign(key, hashes, algo, params, random).value);
    }
  }

  /** It is the selected key that signs, under the algorithm and parameters that were given. */
  lemma SelectedKeySigns(lib: Library, s: SessionState, algo: string, params: Option<bytes>, hash: bytes, random: nat)
    requires s.store.isOpen && s.store.selected.Some?
    ensures Sign(lib, s, algo, params, [hash], random)
         == lib.sign(s.store.selected.value.value, [hash], algo, params, random)
  {
  }

  /** Init fails for exactly these reasons, in this order. Behind the guards a failure leaves the stream idle, before
      them as it was; success leaves it empty, with the selected key and what was asked for. */
  lemma SignInitResult(lib: Library, s: SessionState, algo: Option<string>, params: Option<bytes>)
    ensures var (t, ret) := SignInit(lib, s, algo, params);
      var passed := algo.Some? && s.store.isOpen && s.store.selected.Some?;
      && (algo.None? ==> ret == InvalidParameter)
      && (algo.Some? && !s.store.isOpen ==> ret == NotAuthorized)
      && (algo.Some? && s.store.isOpen && s.store.selected.None? ==> ret == KeyNotSelected)
      && (!passed ==> t == s)
      && (passed && ret != RetOk ==> t.stream == IDLE)
      && (passed ==> (ret == RetOk <==>
            var checked := lib.signCheck(s.store.selected.value.value, algo.value, params);
            checked.Ok? && lib.hashSupported(checked.value)))
      && (ret == RetOk ==> passed && t.stream.activeBag == s.store.selected && t.stream.signParams == params)
      && (ret == RetOk ==> t.stream.signAlgo == algo.value && t.stream.ctxHash == Some(HashCtx(t.stream.hashAlgo, [])))
      && t.store == s.store
  {
  }

  /** Update and final fail for exactly these reasons, in this order, and then change nothing. */
  lemma StreamResult(lib: Library, s: SessionState, data: Option<bytes>, random: nat, memory: bytes)
    requires Inv(s)
    ensures var (t, ret) := SignUpdate(s, data);
      && (ret == InvalidParameter <==> data.None?)
      && (ret == NotAuthorized <==> data.Some? && !s.store.isOpen)
      && (ret == KeyNotSelected <==> data.Some? && s.store.isOpen && (s.store.selected.None? || s.stream == IDLE))
      && (ret == RetOk <==> data.Some? && s.store.isOpen && s.store.selected.Some? && s.stream != IDLE)
      && (ret != RetOk ==> t == s) && t.store == s.store
      && (ret == RetOk ==> t.stream.ctxHash.value.data == s.stream.ctxHash.value.data + data.value)
    ensures var (t, signature) := SignFinal(lib, s, random, memory);
      && (!s.store.isOpen ==> signature == Err(NotAuthorized) && t == s)
      && (s.store.isOpen && (s.store.selected.None? || s.stream == IDLE) ==> signature == Err(KeyNotSelected) && t == s)
      && (s.store.isOpen && s.store.selected.Some? ==> t.stream == IDLE) && t.store == s.store
  {
  }

  /** Idle means that nothing is remembered. */
  lemma IdleForgets()
    ensures IDLE.activeBag.None? && IDLE.ctxHash.None? && IDLE.hashAlgo == HashUndefined
    ensures IDLE.signAlgo == "" && IDLE.signParams.None?
  {
  }
}
