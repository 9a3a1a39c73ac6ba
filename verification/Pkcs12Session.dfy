/**
  A PKCS#12 session: cm-pkcs12-session.cpp (key and certificate management), cm-pkcs12-key.cpp
  (signing at once and as a stream) and cm-pkcs12-ctx.cpp (the stream's idle state).
 */
module Pkcs12Session {
  import opened Prelude
  import opened Pkcs12Keys
  import opened Pkcs12Store

  /** A running hash and what it has taken in so far. */
  datatype HashCtx = HashCtx(alg: HashAlg, data: bytes)

  datatype Stream = Stream(activeBag: Option<Bag>, ctxHash: Option<HashCtx>, hashAlgo: HashAlg,
                           signAlgo: string, signParams: Option<bytes>)

  const IDLE := Stream(None, None, HashUndefined, "", None)

  datatype SessionState = SessionState(store: Storage, stream: Stream)

  /** What is asked for when a key is made; a missing mechanism is an empty one. */
  datatype KeyRequest = BadJson | KeyRequest(mechanism: string, parameter: Option<string>, labelEncodes: bool)

  /** An encoded private key and the id written beside it. */
  datatype MadeKey = MadeKey(value: bytes, localKeyId: bytes)

  // ---------- what each operation does ----------

  function Logout(s: SessionState): SessionState {
    s.(store := s.store.(selected := None))
  }

  function Login(lib: Library, s: SessionState, password: Option<string>, decoded: Decoded): (SessionState, Ret) {
    if password.None? || password.value == "" then (s, InvalidParameter)
    else
      var st := Logout(s).store;
      if st.isCreate then (s.(store := st.(isOpen := true)), RetOk)
      else
        (s.(store := st.(bags := st.bags + Allocated(lib, st.nextAddress, decoded.bags),
                         nextAddress := st.nextAddress + |decoded.bags|,
                         isOpen := st.isOpen || decoded.ret == RetOk,
                         readOnly := st.readOnly || (decoded.ret == RetOk && decoded.readOnly))),
         decoded.ret)
  }

  function SelectKey(s: SessionState, id: Option<bytes>): (SessionState, Ret) {
    if id.None? then (s, InvalidParameter)
    else if !s.store.isOpen then (s, NotAuthorized)
    else
      var key := FirstKey(s.store.bags, id.value);
      (s.(store := s.store.(selected := key)), if key.None? then KeyNotFound else RetOk)
  }

  /** Why a change is refused. */
  function Refusal(st: Storage): Option<Ret> {
    if !st.isOpen then Some(NotAuthorized)
    else if st.readOnly then Some(ReadonlySession)
    else None
  }

  /** The hash of the id written beside a new key, by the mechanism that was asked for. */
  function NewIdHash(mechanism: string): HashAlg {
    if OidIsParent(OID_DSTU4145_WITH_DSTU7564, mechanism) then Dstu7564
    else if OidIsParent(OID_DSTU4145_WITH_GOST3411, mechanism) then Gost34311
    else Sha1
  }

  /** Generates a key; one whose public key or id cannot be computed is an error. */
  function MakeKey(lib: Library, request: KeyRequest, random: nat): Result<MadeKey, Error> {
    if request.BadJson? then Err(InvalidJson)
    else if request.mechanism == "" || !request.labelEncodes then Err(InvalidParameter)
    else
      var algo := if OidIsParent(OID_DSTU4145_WITH_DSTU7564, request.mechanism) then OID_DSTU4145_PARAM_PB_LE
                  else request.mechanism;
      match Generate(lib, algo, request.parameter, random)
      case Err(e) => Err(e)
      case Ok(key) =>
        var value := lib.encodeKey(key);
        match KeyIdBy(lib, NewIdHash(request.mechanism), value)
        case None => Err(GeneralError)
        case Some(id) => Ok(MadeKey(value, id))
  }

  /** The bag of a new key: the id written beside it takes the place of its own. */
  function NewKeyBag(lib: Library, address: nat, made: MadeKey): Bag {
    var bag := KeyBag(lib, address, made.value);
    if bag.kind == KEY && |made.localKeyId| > 0 then bag.(keyId := made.localKeyId) else bag
  }

  function CreateKey(lib: Library, s: SessionState, request: Option<KeyRequest>, random: nat, encoded: Ret, stored: Ret)
    : (SessionState, Ret)
  {
    if request.None? then (s, InvalidParameter)
    else if Refusal(s.store).Some? then (s, Refusal(s.store).value)
    else
      match MakeKey(lib, request.value, random)
      case Err(e) => (s, e)
      case Ok(made) => StoreKey(lib, s, made, encoded, stored)
  }

  function StoreKey(lib: Library, s: SessionState, made: MadeKey, encoded: Ret, stored: Ret): (SessionState, Ret) {
    if encoded != RetOk then (s, encoded)
    else
      var bag := NewKeyBag(lib, s.store.nextAddress, made);
      (s.(store := Appended(s.store, bag).(selected := Some(bag))), stored)
  }

  /** All that goes: the key, and the certificates that answer to the same id when asked for. */
  function Doomed(lib: Library, st: Storage, id: bytes, related: bool): set<nat>
    requires FirstKey(st.bags, id).Some?
  {
    {FirstKey(st.bags, id).value.address} + (if related then RelatedCerts(lib, st.bags, id) else {})
  }

  function DeleteKey(lib: Library, s: SessionState, id: Option<bytes>, related: bool, stored: Ret)
    : (SessionState, Ret)
  {
    if id.None? then (s, InvalidParameter)
    else if Refusal(s.store).Some? then (s, Refusal(s.store).value)
    else
      match FirstKey(s.store.bags, id.value)
      case None => (s, KeyNotFound)
      case Some(_) => (s.(store := DropKey(lib, s.store, id.value, related)), stored)
  }

  /** The store without what is doomed; a selection of the key is cleared. */
  function DropKey(lib: Library, st: Storage, id: bytes, related: bool): Storage
    requires FirstKey(st.bags, id).Some?
  {
    var address := FirstKey(st.bags, id).value.address;
    var selected := if st.selected.Some? && st.selected.value.address == address then None else st.selected;
    st.(bags := Without(st.bags, Doomed(lib, st, id, related)), selected := selected)
  }

  function CertBag(address: nat, cert: bytes): Bag { Bag(address, CERT, [], [], cert) }

  function AddCertificate(lib: Library, s: SessionState, cert: Option<bytes>, encoded: Ret, stored: Ret)
    : (SessionState, Ret)
  {
    if cert.None? then (s, InvalidParameter)
    else if Refusal(s.store).Some? then (s, Refusal(s.store).value)
    else
      match CertKeyId(lib, cert.value)
      case None => (s, InvalidCertificate)
      case Some(id) => StoreCert(lib, s, cert.value, id, encoded, stored)
  }

  function StoreCert(lib: Library, s: SessionState, cert: bytes, id: bytes, encoded: Ret, stored: Ret)
    : (SessionState, Ret)
  {
    if HasCert(lib, s.store.bags, id) then (s, RetOk)
    else if encoded != RetOk then (s, encoded)
    else (s.(store := Appended(s.store, CertBag(s.store.nextAddress, cert))), stored)
  }

  function DeleteCertificate(lib: Library, s: SessionState, id: Option<bytes>, stored: Ret): (SessionState, Ret) {
    if id.None? then (s, InvalidParameter)
    else if Refusal(s.store).Some? then (s, Refusal(s.store).value)
    else if !HasCert(lib, s.store.bags, id.value) then (s, CertificateNotFound)
    else (s.(store := s.store.(bags := Without(s.store.bags, RelatedCerts(lib, s.store.bags, id.value)))), stored)
  }

  function Sign(lib: Library, s: SessionState, algo: string, params: Option<bytes>, hashes: seq<bytes>, random: nat)
    : Result<seq<bytes>, Ret>
  {
    if hashes == [] then Err(InvalidParameter)
    else if !s.store.isOpen then Err(NotAuthorized)
    else if s.store.selected.None? then Err(KeyNotSelected)
    else lib.sign(s.store.selected.value.value, hashes, algo, params, random)
  }

  function SignInit(lib: Library, s: SessionState, algo: Option<string>, params: Option<bytes>): (SessionState, Ret) {
    if algo.None? then (s, InvalidParameter)
    else if !s.store.isOpen then (s, NotAuthorized)
    else if s.store.selected.None? then (s, KeyNotSelected)
    else
      match lib.signCheck(s.store.selected.value.value, algo.value, params)
      case Err(e) => (s.(stream := IDLE), e)
      case Ok(alg) =>
        if !lib.hashSupported(alg) then (s.(stream := IDLE), Unsupported)
        else (s.(stream := Stream(s.store.selected, Some(HashCtx(alg, [])), alg, algo.value, params)), RetOk)
  }

  /** Why a running stream cannot be used now. */
  function StreamRefusal(s: SessionState): Option<Ret> {
    if !s.store.isOpen then Some(NotAuthorized)
    else if s.store.selected.None? || s.stream.activeBag.None? || s.stream.ctxHash.None? then Some(KeyNotSelected)
    else None
  }

  function SignUpdate(s: SessionState, data: Option<bytes>): (SessionState, Ret) {
    if data.None? then (s, InvalidParameter)
    else if StreamRefusal(s).Some? then (s, StreamRefusal(s).value)
    else
      var ctx := s.stream.ctxHash.value;
      (s.(stream := s.stream.(ctxHash := Some(ctx.(data := ctx.data + data.value)))), RetOk)
  }

  /** private_key_sign_single: one hash, one signature. */
  function SignSingle(lib: Library, key: bytes, algo: string, params: Option<bytes>, hash: bytes, random: nat)
    : Result<bytes, Ret>
  {
    if hash == [] then Err(InvalidParameter) else FirstSignature(lib.sign(key, [hash], algo, params, random))
  }

  function FirstSignature(signed: Result<seq<bytes>, Ret>): Result<bytes, Ret> {
    match signed
    case Err(e) => Err(e)
    case Ok(signatures) => if signatures == [] then Err(LibraryError(0)) else Ok(signatures[0])
  }

  /** The key a stream signs with: the bag it remembers, or what is left in memory of one that was freed. */
  function ActiveKey(s: SessionState, memory: bytes): bytes
    requires s.stream.activeBag.Some?
  {
    if s.stream.activeBag.value in s.store.bags then s.stream.activeBag.value.value else memory
  }

  function SignFinal(lib: Library, s: SessionState, random: nat, memory: bytes): (SessionState, Result<bytes, Ret>) {
    if StreamRefusal(s).Some? then (s, Err(StreamRefusal(s).value))
    else
      (s.(stream := IDLE),
       match lib.hash(s.stream.ctxHash.value.alg, s.stream.ctxHash.value.data)
       case None => Err(LibraryError(0))
       case Some(hash) =>
         SignSingle(lib, ActiveKey(s, memory), s.stream.signAlgo, s.stream.signParams, hash, random))
  }

  // ---------- the code ----------

  class SessionPkcs12Context {
    const lib: Library
    const fileStorage: FileStorage
    var activeBag: Option<Bag>
    var ctxHash: Option<HashCtx>
    var hashAlgo: HashAlg
    var signAlgo: string
    var signParams: Option<bytes>

    function State(): SessionState
      reads this, fileStorage
    {
      SessionState(fileStorage.Fields(), Stream(activeBag, ctxHash, hashAlgo, signAlgo, signParams))
    }

    constructor (lib: Library, isCreate: bool, readOnly: bool)
      ensures this.lib == lib && fresh(fileStorage)
      ensures State() == SessionState(Storage(isCreate, false, readOnly, [], None, 0), IDLE)
    {
      this.lib := lib;
      fileStorage := new FileStorage(isCreate, readOnly);
      activeBag, ctxHash, hashAlgo, signAlgo, signParams := None, None, HashUndefined, "", None;
    }

    method ResetSignLong()
      modifies this
      ensures State() == old(State()).(stream := IDLE)
    {
      activeBag := None;
      if ctxHash.Some? {
        ctxHash := None;
      }
      hashAlgo := HashUndefined;
      signAlgo, signParams := "", None;
    }

    method LogoutSession() returns (ret: Ret)
      modifies fileStorage
      ensures ret == RetOk && State() == Logout(old(State()))
    {
      fileStorage.SelectKey(None);
      return RetOk;
    }

    method LoginSession(password: Option<string>, decoded: Decoded) returns (ret: Ret)
      modifies fileStorage
      ensures (State(), ret) == Login(lib, old(State()), password, decoded)
    {
      if password.None? || |password.value| == 0 {
        return InvalidParameter;
      }
      var _ := LogoutSession();
      ret := RetOk;
      if !fileStorage.m_IsCreate {
        ret := fileStorage.Decode(lib, decoded);
      } else {
        fileStorage.SetOpen();
      }
    }

    method SelectSessionKey(id: Option<bytes>) returns (ret: Ret)
      modifies fileStorage
      ensures (State(), ret) == SelectKey(old(State()), id)
    {
      if id.None? {
        return InvalidParameter;
      }
      if !fileStorage.m_IsOpen {
        return NotAuthorized;
      }
      fileStorage.SelectKey(None);
      var key := fileStorage.FindKey(id.value);
      if key.Some? {
        fileStorage.SelectKey(key);
      }
      return if fileStorage.m_SelectedKey.None? then KeyNotFound else RetOk;
    }

    /** The guards every change begins with. */
    method CheckWritable() returns (refused: Option<Ret>)
      ensures refused == Refusal(State().store)
    {
      if !fileStorage.m_IsOpen {
        return Some(NotAuthorized);
      }
      if fileStorage.m_ReadOnly {
        return Some(ReadonlySession);
      }
      return None;
    }

    /** `encoded` is how encoding the attributes and encrypting the bag ended, `stored` how writing the file did. */
    method CreateSessionKey(request: Option<KeyRequest>, random: nat, encoded: Ret, stored: Ret) returns (ret: Ret)
      modifies fileStorage
      ensures (State(), ret) == CreateKey(lib, old(State()), request, random, encoded, stored)
    {
      hide Refusal, MakeKey, StoreKey;
      if request.None? {
        return InvalidParameter;
      }
      var refused := CheckWritable();
      if refused.Some? {
        return refused.value;
      }
      match MakeKey(lib, request.value, random)
      case Err(e) => ret := e;
      case Ok(made) =>
        ret := StoreMadeKey(made, encoded, stored);
    }

    method StoreMadeKey(made: MadeKey, encoded: Ret, stored: Ret) returns (ret: Ret)
      modifies fileStorage
      ensures (State(), ret) == StoreKey(lib, old(State()), made, encoded, stored)
    {
      hide KeyBag, Appended, Recognised;
      var bag := KeyBag(lib, fileStorage.m_NextAddress, made.value);
      if bag.kind == KEY && |made.localKeyId| > 0 {
        bag := bag.(keyId := made.localKeyId);
      }
      if encoded != RetOk {
        return encoded;
      }
      fileStorage.AddBag(bag);
      fileStorage.SelectKey(Some(bag));
      return stored;
    }

    method DeleteSessionKey(id: Option<bytes>, related: bool, stored: Ret) returns (ret: Ret)
      requires Sound(fileStorage.Fields())
      modifies fileStorage
      ensures (State(), ret) == DeleteKey(lib, old(State()), id, related, stored)
    {
      hide Refusal, DropKey, FirstKey;
      if id.None? {
        return InvalidParameter;
      }
      var refused := CheckWritable();
      if refused.Some? {
        return refused.value;
      }
      var key := fileStorage.FindKey(id.value);
      if key.None? {
        return KeyNotFound;
      }
      RemoveKey(key.value, id.value, related);
      return stored;
    }

    method RemoveKey(key: Bag, id: bytes, related: bool)
      requires Sound(fileStorage.Fields()) && FirstKey(fileStorage.m_SafeBags, id) == Some(key)
      modifies fileStorage
      ensures State() == old(State()).(store := DropKey(lib, old(fileStorage.Fields()), id, related))
    {
      hide Without, RelatedCerts, FirstKey, DistinctAddresses;
      RelatedOfRest(lib, fileStorage.m_SafeBags, id);
      if fileStorage.m_SelectedKey.Some? && fileStorage.m_SelectedKey.value.address == key.address {
        fileStorage.SelectKey(None);
      }
      fileStorage.DeleteBag(key);
      if related {
        var _ := fileStorage.DeleteCerts(lib, id);
      }
    }

    method AddSessionCertificate(cert: Option<bytes>, encoded: Ret, stored: Ret) returns (ret: Ret)
      modifies fileStorage
      ensures (State(), ret) == AddCertificate(lib, old(State()), cert, encoded, stored)
    {
      hide Refusal, CertKeyId, StoreCert;
      if cert.None? {
        return InvalidParameter;
      }
      var refused := CheckWritable();
      if refused.Some? {
        return refused.value;
      }
      match CertKeyId(lib, cert.value)
      case None => ret := InvalidCertificate;
      case Some(id) =>
        ret := StoreCertificate(cert.value, id, encoded, stored);
    }

    method StoreCertificate(cert: bytes, id: bytes, encoded: Ret, stored: Ret) returns (ret: Ret)
      modifies fileStorage
      ensures (State(), ret) == StoreCert(lib, old(State()), cert, id, encoded, stored)
    {
      hide HasCert, Appended;
      var found := fileStorage.FindCert(lib, id);
      if found {
        return RetOk;
      }
      var bag := CertBag(fileStorage.m_NextAddress, cert);
      if encoded != RetOk {
        return encoded;
      }
      fileStorage.AddBag(bag);
      return stored;
    }

    method DeleteSessionCertificate(id: Option<bytes>, stored: Ret) returns (ret: Ret)
      requires Sound(fileStorage.Fields())
      modifies fileStorage
      ensures (State(), ret) == DeleteCertificate(lib, old(State()), id, stored)
    {
      if id.None? {
        return InvalidParameter;
      }
      var refused := CheckWritable();
      if refused.Some? {
        return refused.value;
      }
      RelatedIffHas(lib, fileStorage.m_SafeBags, id.value);
      WithoutNone(fileStorage.m_SafeBags);
      var found := fileStorage.DeleteCerts(lib, id.value);
      return if !found then CertificateNotFound else stored;
    }

    method SignKey(algo: string, params: Option<bytes>, hashes: seq<bytes>, random: nat)
      returns (signed: Result<seq<bytes>, Ret>)
      ensures signed == Sign(lib, State(), algo, params, hashes, random)
    {
      if |hashes| == 0 {
        return Err(InvalidParameter);
      }
      if !fileStorage.m_IsOpen {
        return Err(NotAuthorized);
      }
      if fileStorage.m_SelectedKey.None? {
        return Err(KeyNotSelected);
      }
      return lib.sign(fileStorage.m_SelectedKey.value.value, hashes, algo, params, random);
    }

    method SignInitKey(algo: Option<string>, params: Option<bytes>) returns (ret: Ret)
      modifies this
      ensures (State(), ret) == SignInit(lib, old(State()), algo, params)
    {
      if algo.None? {
        return InvalidParameter;
      }
      if !fileStorage.m_IsOpen {
        return NotAuthorized;
      }
      var selected := fileStorage.m_SelectedKey;
      if selected.None? {
        return KeyNotSelected;
      }
      ResetSignLong();
      var checked := lib.signCheck(selected.value.value, algo.value, params);
      if checked.Err? {
        return checked.error;
      }
      if !lib.hashSupported(checked.value) {
        return Unsupported;
      }
      ctxHash := Some(HashCtx(checked.value, []));
      hashAlgo := checked.value;
      signAlgo, signParams := algo.value, params;
      activeBag := selected;
      return RetOk;
    }

    method SignUpdateKey(data: Option<bytes>) returns (ret: Ret)
      modifies this
      ensures (State(), ret) == SignUpdate(old(State()), data)
    {
      if data.None? {
        return InvalidParameter;
      }
      if !fileStorage.m_IsOpen {
        return NotAuthorized;
      }
      if fileStorage.m_SelectedKey.None? || activeBag.None? || ctxHash.None? {
        return KeyNotSelected;
      }
      ctxHash := Some(HashCtx(ctxHash.value.alg, ctxHash.value.data + data.value));
      return RetOk;
    }

    /** `memory` is what is found where the stream's key was, should it have been freed meanwhile. */
    method SignFinalKey(random: nat, memory: bytes) returns (signature: Result<bytes, Ret>)
      modifies this
      ensures (State(), signature) == SignFinal(lib, old(State()), random, memory)
    {
      if !fileStorage.m_IsOpen {
        return Err(NotAuthorized);
      }
      if fileStorage.m_SelectedKey.None? || activeBag.None? || ctxHash.None? {
        return Err(KeyNotSelected);
      }
      var hash := lib.hash(ctxHash.value.alg, ctxHash.value.data);
      if hash.Some? {
        var key := if activeBag.value in fileStorage.m_SafeBags then activeBag.value.value else memory;
        signature := SignSingle(lib, key, signAlgo, signParams, hash.value, random);
      } else {
        signature := Err(LibraryError(0));
      }
      ResetSignLong();
    }
  }

  // ---------- the loops ----------

  /** Taking the key away first makes no difference to which certificates go. */
  lemma RelatedOfRest(lib: Library, bags: seq<Bag>, id: bytes)
    requires DistinctAddresses(bags) && FirstKey(bags, id).Some?
    ensures var key := FirstKey(bags, id).value;
      && DistinctAddresses(Without(bags, {key.address}))
      && RelatedCerts(lib, Without(bags, {key.address}), id) == RelatedCerts(lib, bags, id)
      && Without(Without(bags, {key.address}), RelatedCerts(lib, bags, id))
           == Without(bags, {key.address} + RelatedCerts(lib, bags, id))
      && {key.address} + {} == {key.address}
  {
    var key := FirstKey(bags, id).value;
    FirstKeyFinds(bags, id);
    var rest := Without(bags, {key.address});
    WithoutKeepsDistinct(bags, {key.address});
    WithoutTwice(bags, {key.address}, RelatedCerts(lib, bags, id));
    forall b ensures b in OfKind(rest, CERT) <==> b in OfKind(bags, CERT) {
      OfKindMembers(rest, CERT, b);
      OfKindMembers(bags, CERT, b);
      WithoutMembers(bags, {key.address}, b);
    }
  }
}
