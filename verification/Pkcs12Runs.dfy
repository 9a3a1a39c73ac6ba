/** What every run of PKCS#12 session operations keeps. */
module Pkcs12Runs {
  import opened Prelude
  import opened Pkcs12Keys
  import opened Pkcs12Store
  import opened Pkcs12Session

  datatype Op =
    | OpLogin(password: Option<string>, decoded: Decoded)
    | OpLogout
    | OpSelectKey(id: Option<bytes>)
    | OpCreateKey(request: Option<KeyRequest>, drawn: nat, encoded: Ret, stored: Ret)
    | OpDeleteKey(id: Option<bytes>, related: bool, stored: Ret)
    | OpAddCertificate(cert: Option<bytes>, encoded: Ret, stored: Ret)
    | OpDeleteCertificate(id: Option<bytes>, stored: Ret)
    | OpSignInit(algo: Option<string>, params: Option<bytes>)
    | OpSignUpdate(data: Option<bytes>)
    | OpSignFinal(random: nat, memory: bytes)

  function Step(lib: Library, s: SessionState, op: Op): SessionState {
    match op
    case OpLogin(password, decoded) => Login(lib, s, password, decoded).0
    case OpLogout => Logout(s)
    case OpSelectKey(id) => SelectKey(s, id).0
    case OpCreateKey(request, drawn, encoded, stored) => CreateKey(lib, s, request, drawn, encoded, stored).0
    case OpDeleteKey(id, related, stored) => DeleteKey(lib, s, id, related, stored).0
    case OpAddCertificate(cert, encoded, stored) => AddCertificate(lib, s, cert, encoded, stored).0
    case OpDeleteCertificate(id, stored) => DeleteCertificate(lib, s, id, stored).0
    case OpSignInit(algo, params) => SignInit(lib, s, algo, params).0
    case OpSignUpdate(data) => SignUpdate(s, data).0
    case OpSignFinal(random, memory) => SignFinal(lib, s, random, memory).0
  }

  function Run(lib: Library, s: SessionState, ops: seq<Op>): SessionState
    decreases |ops|
  {
    if ops == [] then s else Run(lib, Step(lib, s, ops[0]), ops[1..])
  }

  function Opened(isCreate: bool, readOnly: bool): SessionState {
    SessionState(Storage(isCreate, false, readOnly, [], None, 0), IDLE)
  }

  // ---------- the invariant ----------

  predicate SelectionStored(st: Storage) {
    st.selected.Some? ==> st.selected.value in st.bags && st.selected.value.kind != CERT
  }

  /** A stream is idle in every field, or running with a key and a hash of one algorithm. */
  predicate StreamWhole(stream: Stream) {
    stream == IDLE
    || (stream.activeBag.Some? && stream.ctxHash.Some? && stream.hashAlgo == stream.ctxHash.value.alg)
  }

  predicate Inv(s: SessionState) {
    Sound(s.store) && SelectionStored(s.store) && StreamWhole(s.stream)
  }

  lemma StepKeepsInvariant(lib: Library, s: SessionState, op: Op)
    requires Inv(s)
    ensures Inv(Step(lib, s, op))
  {
    hide CertContainKeyId, CertKeyId, OfKind, Without, RelatedCerts, FirstKey, DistinctAddresses, MakeKey, Recognised;
    match op
    case OpLogin(password, decoded) => AllocatedIsSound(lib, s.store, decoded.bags);
    case OpSelectKey(id) => { if id.Some? { FirstKeyFinds(s.store.bags, id.value); } }
    case OpCreateKey(request, drawn, encoded, stored) =>
      if request.Some? && MakeKey(lib, request.value, drawn).Ok? {
        AppendIsSound(s.store, NewKeyBag(lib, s.store.nextAddress, MakeKey(lib, request.value, drawn).value));
      }
    case OpDeleteKey(id, related, stored) => DeleteKeyKeeps(lib, s, id, related, stored);
    case OpAddCertificate(cert, encoded, stored) =>
      if cert.Some? { AppendIsSound(s.store, CertBag(s.store.nextAddress, cert.value)); }
    case OpDeleteCertificate(id, stored) =>
      if id.Some? { WithoutKeepsSelection(lib, s.store, id.value, {}, RelatedCerts(lib, s.store.bags, id.value)); }
    case _ =>
  }

  lemma DeleteKeyKeeps(lib: Library, s: SessionState, id: Option<bytes>, related: bool, stored: Ret)
    requires Inv(s)
    ensures Inv(DeleteKey(lib, s, id, related, stored).0)
  {
    hide CertContainKeyId, CertKeyId, OfKind, Without, RelatedCerts, FirstKey, DistinctAddresses;
    if id.Some? && FirstKey(s.store.bags, id.value).Some? {
      var key := FirstKey(s.store.bags, id.value).value;
      WithoutKeepsSelection(lib, s.store, id.value, {key.address}, Doomed(lib, s.store, id.value, related));
    }
  }

  lemma AppendIsSound(st: Storage, bag: Bag)
    requires Sound(st) && bag.address == st.nextAddress
    ensures Sound(Appended(st, bag))
  {
  }

  lemma AllocatedIsSound(lib: Library, st: Storage, ds: seq<BagData>)
    requires Sound(st)
    ensures Sound(st.(bags := st.bags + Allocated(lib, st.nextAddress, ds), nextAddress := st.nextAddress + |ds|))
  {
    hide Recognised, KeyBag;
    var bags, next := st.bags + Allocated(lib, st.nextAddress, ds), st.nextAddress;
    forall i | 0 <= i < |bags|
      ensures bags[i].address < next + |ds| && (i >= |st.bags| ==> bags[i].address == next + i - |st.bags|)
    {
    }
  }

  /** Taking away certificates, and perhaps bags that are not selected, leaves the selection stored. */
  lemma WithoutKeepsSelection(lib: Library, st: Storage, id: bytes, keys: set<nat>, gone: set<nat>)
    requires Sound(st) && SelectionStored(st)
    requires gone <= keys + RelatedCerts(lib, st.bags, id)
    ensures Sound(st.(bags := Without(st.bags, gone)))
    ensures st.selected.Some? && st.selected.value.address !in keys ==> st.selected.value in Without(st.bags, gone)
  {
    WithoutIsSound(st, gone);
    if st.selected.Some? {
      RelatedMember(lib, st.bags, id, st.selected.value);
      WithoutMembers(st.bags, gone, st.selected.value);
    }
  }

  lemma WithoutIsSound(st: Storage, gone: set<nat>)
    requires Sound(st)
    ensures Sound(st.(bags := Without(st.bags, gone)))
  {
    WithoutKeepsDistinct(st.bags, gone);
    forall b ensures b in Without(st.bags, gone) <==> b in st.bags && b.address !in gone {
      WithoutMembers(st.bags, gone, b);
    }
  }

  lemma {:induction false} RunKeepsInvariant(lib: Library, s: SessionState, ops: seq<Op>)
    requires Inv(s)
    ensures Inv(Run(lib, s, ops))
    decreases |ops|
  {
    hide Inv, Step;
    if ops != [] {
      StepKeepsInvariant(lib, s, ops[0]);
      RunKeepsInvariant(lib, Step(lib, s, ops[0]), ops[1..]);
    }
  }

  /** In every reachable state a stream is wholly idle or wholly set, and what is selected is stored. */
  lemma ReachableSessions(lib: Library, isCreate: bool, readOnly: bool, ops: seq<Op>)
    ensures var s := Run(lib, Opened(isCreate, readOnly), ops);
      && Inv(s)
      && (s.stream.activeBag.Some? <==> s.stream.ctxHash.Some?)
      && (s.stream.activeBag.None? ==> s.stream == IDLE)
  {
    RunKeepsInvariant(lib, Opened(isCreate, readOnly), ops);
  }

  // ---------- locked sessions ----------

  lemma LockedStep(lib: Library, s: SessionState, op: Op)
    requires Refusal(s.store).Some? && !op.OpLogin?
    ensures Step(lib, s, op).store == s.store.(selected := Step(lib, s, op).store.selected)
  {
    hide CertContainKeyId, CertKeyId, OfKind, Without, RelatedCerts, FirstKey, MakeKey;
  }

  /** Until a login, a session that is not open or is read-only keeps its bag list over every run. */
  lemma {:induction false} LockedRunsKeepBags(lib: Library, s: SessionState, ops: seq<Op>)
    requires Refusal(s.store).Some? && forall i :: 0 <= i < |ops| ==> !ops[i].OpLogin?
    ensures Run(lib, s, ops).store.bags == s.store.bags && Refusal(Run(lib, s, ops).store) == Refusal(s.store)
    decreases |ops|
  {
    hide Step;
    if ops != [] {
      LockedStep(lib, s, ops[0]);
      LockedRunsKeepBags(lib, Step(lib, s, ops[0]), ops[1..]);
    }
  }

  /** Read-only sessions keep theirs whatever happens, logins adding what the file holds. */
  lemma {:induction false} ReadOnlyRunsOnlyAppend(lib: Library, s: SessionState, ops: seq<Op>)
    requires s.store.readOnly
    ensures Run(lib, s, ops).store.readOnly && s.store.bags <= Run(lib, s, ops).store.bags
    decreases |ops|
  {
    hide Step;
    if ops != [] {
      ReadOnlyStep(lib, s, ops[0]);
      ReadOnlyRunsOnlyAppend(lib, Step(lib, s, ops[0]), ops[1..]);
    }
  }

  lemma ReadOnlyStep(lib: Library, s: SessionState, op: Op)
    requires s.store.readOnly
    ensures Step(lib, s, op).store.readOnly && s.store.bags <= Step(lib, s, op).store.bags
  {
    hide CertContainKeyId, CertKeyId, OfKind, Without, RelatedCerts, FirstKey, Allocated;
    if !op.OpLogin? { LockedStep(lib, s, op); }
  }

  // ---------- deletion ----------

  /** Exactly the first key with the id goes, and with it, when asked, every certificate that answers to the id. */
  lemma DeleteKeyExactly(lib: Library, s: SessionState, id: bytes, related: bool, stored: Ret)
    requires Inv(s) && Refusal(s.store).None? && FirstKey(s.store.bags, id).Some?
    ensures var key := FirstKey(s.store.bags, id).value;
      var left := DeleteKey(lib, s, Some(id), related, stored).0.store.bags;
      && (forall b :: b in left <==>
           b in s.store.bags && b != key && !(related && b.kind == CERT && CertContainKeyId(lib, b.value, id)))
      && (forall a, b :: a in left && b in left ==> (Before(left, a, b) <==> Before(s.store.bags, a, b)))
  {
    hide CertContainKeyId, OfKind, Without, RelatedCerts, FirstKey, Before;
    var bags, key, gone := s.store.bags, FirstKey(s.store.bags, id).value, Doomed(lib, s.store, id, related);
    FirstKeyFinds(bags, id);
    forall b ensures b in Without(bags, gone) <==>
        b in bags && b != key && !(related && b.kind == CERT && CertContainKeyId(lib, b.value, id)) {
      WithoutMembers(bags, gone, b);
      if b in bags {
        RelatedMember(lib, bags, id, b);
        if b.address == key.address { SameAddress(bags, b, key); }
      }
    }
    OrderKept(bags, gone);
  }

  lemma OrderKept(bags: seq<Bag>, gone: set<nat>)
    ensures var left := Without(bags, gone);
      forall a, b :: a in left && b in left ==> (Before(left, a, b) <==> Before(bags, a, b))
  {
    var left := Without(bags, gone);
    forall a, b | a in left && b in left ensures Before(left, a, b) <==> Before(bags, a, b) {
      WithoutMembers(bags, gone, a);
      WithoutMembers(bags, gone, b);
      WithoutKeepsOrder(bags, gone, a, b);
    }
  }

  /** Exactly the certificates that answer to the id go; an error means that there are none. */
  lemma DeleteCertificateExactly(lib: Library, s: SessionState, id: bytes, stored: Ret)
    requires Inv(s) && Refusal(s.store).None?
    ensures var left := DeleteCertificate(lib, s, Some(id), stored).0.store.bags;
      && (forall b :: b in left <==> b in s.store.bags && !(b.kind == CERT && CertContainKeyId(lib, b.value, id)))
      && (forall a, b :: a in left && b in left ==> (Before(left, a, b) <==> Before(s.store.bags, a, b)))
    ensures !HasCert(lib, DeleteCertificate(lib, s, Some(id), stored).0.store.bags, id)
  {
    hide CertContainKeyId, OfKind, Without, RelatedCerts, Before;
    var bags, gone := s.store.bags, RelatedCerts(lib, s.store.bags, id);
    if HasCert(lib, bags, id) {
      forall b ensures b in Without(bags, gone) <==>
          b in bags && !(b.kind == CERT && CertContainKeyId(lib, b.value, id)) {
        WithoutMembers(bags, gone, b);
        if b in bags { RelatedMember(lib, bags, id, b); }
      }
      OrderKept(bags, gone);
    }
  }
}
