/**
  A PKCS #11 token as a session sees it: which sessions are live, who is logged in, and
  which search or signing operation each session has running.  The functions are the
  contract of PKCS #11 v2.40, sections 5.2, 5.6, 5.7 and 5.11, for calls that may also
  fail for reasons of the device's own; the class is one token that follows it.
 */
module Pkcs11Token {
  import opened Prelude

  type Handle = int

  /** What a wrapper holds before it has a session: (CK_SESSION_HANDLE)-1. */
  const NO_HANDLE: Handle := -1

  type ObjectHandle = nat

  /** Return codes the protocol itself gives rise to; a device's own failures are `Failed`. */
  datatype CkRv =
    | CkrOk
    | CryptokiNotInitialized
    | SlotIdInvalid
    | SessionParallelNotSupported
    | SessionCount
    | SessionHandleInvalid
    | SessionReadOnlyExists
    | SessionReadWriteSoExists
    | UserAlreadyLoggedIn
    | UserAnotherAlreadyLoggedIn
    | UserNotLoggedIn
    | OperationActive
    | OperationNotInitialized
    | BufferTooSmall
    | Failed(code: nat)

  /** How the device itself behaves in one call. */
  datatype Device = Works | Fails(code: nat)

  datatype Login = Nobody | User | SecurityOfficer

  datatype AttributeValue = Flag(on: bool) | Number(n: nat) | Raw(raw: bytes)

  type Attributes = map<nat, AttributeValue>

  datatype Attribute = Attribute(kind: nat, value: AttributeValue)

  type Template = seq<Attribute>

  const CKA_CLASS := 0x000
  const CKA_TOKEN := 0x001
  const CKA_PRIVATE := 0x002
  const CKA_LABEL := 0x003
  const CKA_APPLICATION := 0x010
  const CKA_ID := 0x102
  const CKO_PRIVATE_KEY := 0x003

  datatype TokenObject = TokenObject(handle: ObjectHandle, attributes: Attributes)

  /** One live session: its mode, the matches a running search still owes, and a running signature. */
  datatype LiveSession = LiveSession(readWrite: bool, search: Option<seq<ObjectHandle>>, signing: bool)

  datatype TokenState = TokenState(slot: nat, objects: seq<TokenObject>, live: map<Handle, LiveSession>, login: Login)

  /** What a token never violates. */
  predicate TokenOk(t: TokenState) {
    && NO_HANDLE !in t.live
    && (t.live == map[] ==> t.login.Nobody?)
    && (t.login.SecurityOfficer? ==> forall h :: h in t.live ==> t.live[h].readWrite)
  }

  // ---------- sessions and login ----------

  /** A new session gets the handle `unused`; a token that has none to spare refuses. */
  function OpenSession(t: TokenState, slot: nat, serial: bool, readWrite: bool, unused: Handle, device: Device)
    : (r: (TokenState, CkRv))
  {
    if slot != t.slot then (t, SlotIdInvalid)
    else if !serial then (t, SessionParallelNotSupported)
    else if device.Fails? then (t, Failed(device.code))
    else if !readWrite && t.login.SecurityOfficer? then (t, SessionReadWriteSoExists)
    else if unused == NO_HANDLE || unused in t.live then (t, SessionCount)
    else (t.(live := t.live[unused := LiveSession(readWrite, None, false)]), CkrOk)
  }

  /** Closing the last session logs the user out. */
  function CloseSession(t: TokenState, h: Handle, device: Device): (r: (TokenState, CkRv)) {
    if h !in t.live then (t, SessionHandleInvalid)
    else if device.Fails? then (t, Failed(device.code))
    else
      var live := t.live - {h};
      (t.(live := live, login := if live == map[] then Nobody else t.login), CkrOk)
  }

  /** A change of login may or may not end the operations that are running. */
  function Cancel(live: map<Handle, LiveSession>, cancels: bool): (r: map<Handle, LiveSession>)
    ensures r.Keys == live.Keys
    ensures forall h :: h in live ==> r[h].readWrite == live[h].readWrite
    ensures forall h :: h in live ==> r[h] == live[h] || (r[h].search.None? && !r[h].signing)
  {
    if cancels then map h | h in live :: LiveSession(live[h].readWrite, None, false) else live
  }

  function LoginCall(t: TokenState, h: Handle, who: Login, device: Device, cancels: bool): (r: (TokenState, CkRv))
    requires !who.Nobody?
  {
    if h !in t.live then (t, SessionHandleInvalid)
    else if t.login == who then (t, UserAlreadyLoggedIn)
    else if !t.login.Nobody? then (t, UserAnotherAlreadyLoggedIn)
    else if who.SecurityOfficer? && exists k :: k in t.live && !t.live[k].readWrite then (t, SessionReadOnlyExists)
    else if device.Fails? then (t, Failed(device.code))
    else (t.(login := who, live := Cancel(t.live, cancels)), CkrOk)
  }

  function LogoutCall(t: TokenState, h: Handle, device: Device, cancels: bool): (r: (TokenState, CkRv)) {
    if h !in t.live then (t, SessionHandleInvalid)
    else if t.login.Nobody? then (t, UserNotLoggedIn)
    else if device.Fails? then (t, Failed(device.code))
    else (t.(login := Nobody, live := Cancel(t.live, cancels)), CkrOk)
  }

  // ---------- searches ----------

  predicate Matches(o: TokenObject, template: Template) {
    forall a :: a in template ==> a.kind in o.attributes && o.attributes[a.kind] == a.value
  }

  /** Private objects show only while the user is logged in. */
  predicate Visible(t: TokenState, o: TokenObject) {
    CKA_PRIVATE in o.attributes && o.attributes[CKA_PRIVATE] == Flag(true) ==> t.login.User?
  }

  function MatchesIn(t: TokenState, objects: seq<TokenObject>, template: Template): (hs: seq<ObjectHandle>) {
    if objects == [] then []
    else
      (if Visible(t, objects[0]) && Matches(objects[0], template) then [objects[0].handle] else [])
      + MatchesIn(t, objects[1..], template)
  }

  /** The handles a search owes, in token order. */
  function MatchesOf(t: TokenState, template: Template): (hs: seq<ObjectHandle>) {
    MatchesIn(t, t.objects, template)
  }

  function SetSearch(t: TokenState, h: Handle, search: Option<seq<ObjectHandle>>): TokenState
    requires h in t.live
  {
    t.(live := t.live[h := t.live[h].(search := search)])
  }

  function FindInit(t: TokenState, h: Handle, template: Template, device: Device): (r: (TokenState, CkRv)) {
    if h !in t.live then (t, SessionHandleInvalid)
    else if t.live[h].search.Some? then (t, OperationActive)
    else if device.Fails? then (t, Failed(device.code))
    else (SetSearch(t, h, Some(MatchesOf(t, template))), CkrOk)
  }

  /** Delivers at most one match; none means the search is exhausted. */
  function FindNext(t: TokenState, h: Handle, device: Device): (r: (TokenState, CkRv, seq<ObjectHandle>))
    ensures |r.2| <= 1
  {
    if h !in t.live then (t, SessionHandleInvalid, [])
    else if t.live[h].search.None? then (t, OperationNotInitialized, [])
    else if device.Fails? then (t, Failed(device.code), [])
    else
      var owed := t.live[h].search.value;
      if owed == [] then (t, CkrOk, []) else (SetSearch(t, h, Some(owed[1..])), CkrOk, owed[..1])
  }

  function FindFinal(t: TokenState, h: Handle, device: Device): (r: (TokenState, CkRv)) {
    if h !in t.live then (t, SessionHandleInvalid)
    else if t.live[h].search.None? then (t, OperationNotInitialized)
    else if device.Fails? then (t, Failed(device.code))
    else (SetSearch(t, h, None), CkrOk)
  }

  // ---------- signatures ----------

  function SetSigning(t: TokenState, h: Handle, signing: bool): TokenState
    requires h in t.live
  {
    t.(live := t.live[h := t.live[h].(signing := signing)])
  }

  function SignInit(t: TokenState, h: Handle, device: Device): (r: (TokenState, CkRv)) {
    if h !in t.live then (t, SessionHandleInvalid)
    else if t.live[h].signing then (t, OperationActive)
    else if device.Fails? then (t, Failed(device.code))
    else (SetSigning(t, h, true), CkrOk)
  }

  /** Asks for the length of the signature; only a failure ends the operation. */
  function SignLength(t: TokenState, h: Handle, signature: bytes, device: Device): (r: (TokenState, CkRv, nat)) {
    if h !in t.live then (t, SessionHandleInvalid, 0)
    else if !t.live[h].signing then (t, OperationNotInitialized, 0)
    else if device.Fails? then (SetSigning(t, h, false), Failed(device.code), 0)
    else (t, CkrOk, |signature|)
  }

  /** Signs into a buffer of `room` bytes; only a buffer that is too small keeps the operation running. */
  function Sign(t: TokenState, h: Handle, room: nat, signature: bytes, device: Device): (r: (TokenState, CkRv, bytes))
    ensures |r.2| <= room
  {
    if h !in t.live then (t, SessionHandleInvalid, [])
    else if !t.live[h].signing then (t, OperationNotInitialized, [])
    else if device.Fails? then (SetSigning(t, h, false), Failed(device.code), [])
    else if room < |signature| then (t, BufferTooSmall, [])
    else (SetSigning(t, h, false), CkrOk, signature)
  }

  /** One token; every call does what the contract says. */
  class Token {
    var state: TokenState

    constructor (slot: nat, objects: seq<TokenObject>)
      ensures state == TokenState(slot, objects, map[], Nobody)
    {
      state := TokenState(slot, objects, map[], Nobody);
    }

    method C_OpenSession(slot: nat, serial: bool, readWrite: bool, unused: Handle, device: Device) returns (rv: CkRv)
      modifies this
      ensures (state, rv) == OpenSession(old(state), slot, serial, readWrite, unused, device)
    {
      var r := OpenSession(state, slot, serial, readWrite, unused, device);
      state, rv := r.0, r.1;
    }

    method C_CloseSession(h: Handle, device: Device) returns (rv: CkRv)
      modifies this
      ensures (state, rv) == CloseSession(old(state), h, device)
    {
      var r := CloseSession(state, h, device);
      state, rv := r.0, r.1;
    }

    method C_Login(h: Handle, who: Login, device: Device, cancels: bool) returns (rv: CkRv)
      requires !who.Nobody?
      modifies this
      ensures (state, rv) == LoginCall(old(state), h, who, device, cancels)
    {
      var r := LoginCall(state, h, who, device, cancels);
      state, rv := r.0, r.1;
    }

    method C_Logout(h: Handle, device: Device, cancels: bool) returns (rv: CkRv)
      modifies this
      ensures (state, rv) == LogoutCall(old(state), h, device, cancels)
    {
      var r := LogoutCall(state, h, device, cancels);
      state, rv := r.0, r.1;
    }

    method C_FindObjectsInit(h: Handle, template: Template, device: Device) returns (rv: CkRv)
      modifies this
      ensures (state, rv) == FindInit(old(state), h, template, device)
    {
      var r := FindInit(state, h, template, device);
      state, rv := r.0, r.1;
    }

    method C_FindObjects(h: Handle, device: Device) returns (rv: CkRv, found: seq<ObjectHandle>)
      modifies this
      ensures (state, rv, found) == FindNext(old(state), h, device)
    {
      var r := FindNext(state, h, device);
      state, rv, found := r.0, r.1, r.2;
    }

    method C_FindObjectsFinal(h: Handle, device: Device) returns (rv: CkRv)
      modifies this
      ensures (state, rv) == FindFinal(old(state), h, device)
    {
      var r := FindFinal(state, h, device);
      state, rv := r.0, r.1;
    }

    method C_SignInit(h: Handle, device: Device) returns (rv: CkRv)
      modifies this
      ensures (state, rv) == SignInit(old(state), h, device)
    {
      var r := SignInit(state, h, device);
      state, rv := r.0, r.1;
    }

    method C_SignLength(h: Handle, signature: bytes, device: Device) returns (rv: CkRv, length: nat)
      modifies this
      ensures (state, rv, length) == SignLength(old(state), h, signature, device)
    {
      var r := SignLength(state, h, signature, device);
      state, rv, length := r.0, r.1, r.2;
    }

    method C_Sign(h: Handle, room: nat, signature: bytes, device: Device) returns (rv: CkRv, written: bytes)
      modifies this
      ensures |written| <= room
      ensures (state, rv, written) == Sign(old(state), h, room, signature, device)
    {
      var r := Sign(state, h, room, signature, device);
      state, rv, written := r.0, r.1, r.2;
    }
  }
}
