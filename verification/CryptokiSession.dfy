/**
  Cryptoki::Session of cryptoki-helper.cpp: the state a wrapper keeps and what each of
  its operations makes of that state and of the token.  The functions say what happens
  to the pair (token, wrapper); the class is the code, statement by statement.
 */
module CryptokiSession {
  import opened Prelude
  import opened Pkcs11Token

  const NO_SLOT := -1

  datatype SessionState = SessionState(handle: Handle, slotId: int, isOpen: bool, isAuthorized: bool, lastResult: CkRv)

  const FRESH_SESSION := SessionState(NO_HANDLE, NO_SLOT, false, false, CkrOk)

  // How the device behaves in each call an operation may make.
  datatype LogoutEnv = LogoutEnv(logout: Device, cancels: bool)
  datatype CloseEnv = CloseEnv(logout: LogoutEnv, close: Device)
  datatype OpenEnv = OpenEnv(close: CloseEnv, open: Device, unused: Handle)
  datatype LoginEnv = LoginEnv(logout: LogoutEnv, login: Device, cancels: bool)
  datatype FindEnv = FindEnv(init: Device, next: seq<Device>, final: Device)
  // Whether an empty buffer has a null address is up to the caller's buffer and the C++ library.
  datatype SignEnv = SignEnv(init: Device, length: Device, sign: Device, announced: bytes, signature: bytes,
      emptyIsNull: bool)

  // ---------- what each operation does ----------

  function Logout(t: TokenState, s: SessionState, env: LogoutEnv): (r: (TokenState, SessionState)) {
    if s.isAuthorized then
      var (t1, rv) := LogoutCall(t, s.handle, env.logout, env.cancels);
      (t1, s.(lastResult := rv, isAuthorized := !rv.CkrOk?))
    else (t, s.(lastResult := CkrOk))
  }

  /** The part of closing that follows the logout, whose outcome is ignored. */
  function CloseHandle(t: TokenState, s: SessionState, device: Device): (r: (TokenState, SessionState)) {
    if s.isOpen then
      var (t1, rv) := CloseSession(t, s.handle, device);
      (t1, if rv.CkrOk? then FRESH_SESSION else s.(lastResult := rv))
    else (t, s.(lastResult := CkrOk))
  }

  function Close(t: TokenState, s: SessionState, env: CloseEnv): (r: (TokenState, SessionState)) {
    var (t1, s1) := Logout(t, s, env.logout);
    CloseHandle(t1, s1, env.close)
  }

  /** The part of opening that follows the close. */
  function OpenHandle(t: TokenState, s: SessionState, slot: nat, serial: bool, readWrite: bool, env: OpenEnv)
    : (r: (TokenState, SessionState))
  {
    if !s.lastResult.CkrOk? then (t, s)
    else
      var (t1, rv) := OpenSession(t, slot, serial, readWrite, env.unused, env.open);
      (t1, if rv.CkrOk? then s.(lastResult := rv, handle := env.unused, slotId := slot, isOpen := true)
           else s.(lastResult := rv))
  }

  function Open(t: TokenState, s: SessionState, slot: nat, serial: bool, readWrite: bool, env: OpenEnv)
    : (r: (TokenState, SessionState))
  {
    var (t1, s1) := Close(t, s, env.close);
    OpenHandle(t1, s1, slot, serial, readWrite, env)
  }

  /** The part of logging in that follows the logout. */
  function LoginHandle(t: TokenState, s: SessionState, who: Login, device: Device, cancels: bool)
    : (r: (TokenState, SessionState))
    requires !who.Nobody?
  {
    if !s.lastResult.CkrOk? then (t, s)
    else
      var (t1, rv) := LoginCall(t, s.handle, who, device, cancels);
      (t1, s.(lastResult := rv, isAuthorized := s.isAuthorized || rv.CkrOk?))
  }

  function LogIn(t: TokenState, s: SessionState, who: Login, env: LoginEnv): (r: (TokenState, SessionState))
    requires !who.Nobody?
  {
    var (t1, s1) := Logout(t, s, env.logout);
    LoginHandle(t1, s1, who, env.login, env.cancels)
  }

  /** Fetches one object at a time until none comes or a call fails. */
  function FetchAll(t: TokenState, h: Handle, next: seq<Device>): (r: (TokenState, seq<ObjectHandle>))
    requires h in t.live && t.live[h].search.Some?
    decreases |t.live[h].search.value|
  {
    var (t1, rv, found) := FindNext(t, h, First(next));
    if !rv.CkrOk? || found == [] then (t1, [])
    else
      var (t2, more) := FetchAll(t1, h, Rest(next));
      (t2, found + more)
  }

  lemma FetchStep(t: TokenState, h: Handle, next: seq<Device>)
    requires h in t.live && t.live[h].search.Some?
    ensures var (t1, rv, found) := FindNext(t, h, First(next));
      && h in t1.live && t1.live[h].search.Some?
      && (if !rv.CkrOk? || found == [] then t1 == t && FetchAll(t, h, next) == (t, [])
          else && |t1.live[h].search.value| < |t.live[h].search.value|
               && FetchAll(t, h, next) == (FetchAll(t1, h, Rest(next)).0, found + FetchAll(t1, h, Rest(next)).1))
  {
  }

  function First(next: seq<Device>): Device { if next == [] then Works else next[0] }

  function Rest(next: seq<Device>): seq<Device> { if next == [] then [] else next[1..] }

  /** The new token and wrapper, and what is appended to the caller's list. */
  function FindObjects(t: TokenState, s: SessionState, template: Template, env: FindEnv)
    : (r: (TokenState, SessionState, seq<ObjectHandle>))
  {
    var (t1, rv) := FindInit(t, s.handle, template, env.init);
    if !rv.CkrOk? then (t1, s.(lastResult := rv), [])
    else
      var (t2, found) := FetchAll(t1, s.handle, env.next);
      var (t3, last) := FindFinal(t2, s.handle, env.final);
      (t3, s.(lastResult := last), found)
  }

  function FileTemplate(isToken: bool, isPrivate: bool, objType: nat): Template {
    [Attribute(CKA_CLASS, Number(objType)), Attribute(CKA_TOKEN, Flag(isToken)), Attribute(CKA_PRIVATE,
        Flag(isPrivate))]
  }

  function IfPresent(kind: nat, value: bytes): Template {
    if value == [] then [] else [Attribute(kind, Raw(value))]
  }

  /** The narrower search; the application name is looked for among the labels. */
  function NamedFileTemplate(isToken: bool, isPrivate: bool, objType: nat, id: bytes, title: bytes, application: bytes)
    : Template
  {
    FileTemplate(isToken, isPrivate, objType)
    + IfPresent(CKA_ID, id) + IfPresent(CKA_LABEL, title) + IfPresent(CKA_LABEL, application)
  }

  function Zeros(n: nat): (z: bytes)
    ensures |z| == n && forall i :: 0 <= i < n ==> z[i] == 0
  {
    seq(n, _ => 0)
  }

  /** What a buffer of `room` bytes holds after `written` is put at its front. */
  function Overwritten(room: nat, written: bytes): (b: bytes)
    requires |written| <= room
    ensures |b| == room
  {
    written + Zeros(room - |written|)
  }

  /** The new token and wrapper, and the caller's signature buffer. */
  function SignHash(t: TokenState, s: SessionState, env: SignEnv): (r: (TokenState, SessionState, bytes)) {
    var (t1, rv1) := SignInit(t, s.handle, env.init);
    if !rv1.CkrOk? then (t1, s.(lastResult := rv1), [])
    else
      var (t2, rv2, room) := SignLength(t1, s.handle, env.announced, env.length);
      if !rv2.CkrOk? then (t2, s.(lastResult := rv2), [])
      else
        var (t3, rv3, written) := SignInto(t2, s.handle, room, env);
        (t3, s.(lastResult := rv3), Overwritten(room, written))
  }

  /** The second C_Sign: with a null buffer it only asks for the length again. */
  function SignInto(t: TokenState, h: Handle, room: nat, env: SignEnv): (r: (TokenState, CkRv, bytes))
    ensures |r.2| <= room
  {
    if room == 0 && env.emptyIsNull then
      var (t1, rv, _) := SignLength(t, h, env.signature, env.sign);
      (t1, rv, [])
    else Sign(t, h, room, env.signature, env.sign)
  }

  // ---------- the code ----------

  class Session {
    const token: Token
    var m_Handle: Handle
    var m_SlotId: int
    var m_LastResult: CkRv
    var m_IsAuthorized: bool
    var m_IsOpened: bool

    function State(): SessionState
      reads this
    {
      SessionState(m_Handle, m_SlotId, m_IsOpened, m_IsAuthorized, m_LastResult)
    }

    constructor (token: Token)
      ensures this.token == token && State() == FRESH_SESSION
    {
      this.token := token;
      m_Handle, m_SlotId := NO_HANDLE, NO_SLOT;
      m_LastResult := CkrOk;
      m_IsAuthorized, m_IsOpened := false, false;
    }

    method LogoutSession(env: LogoutEnv) returns (rv: CkRv)
      modifies this, token
      ensures (token.state, State()) == Logout(old(token.state), old(State()), env)
      ensures rv == m_LastResult
    {
      if m_IsAuthorized {
        m_LastResult := token.C_Logout(m_Handle, env.logout, env.cancels);
        if m_LastResult == CkrOk {
          m_IsAuthorized := false;
        }
      } else {
        m_LastResult := CkrOk;
      }
      rv := m_LastResult;
    }

    method Reset()
      modifies this
      ensures State() == FRESH_SESSION.(lastResult := old(m_LastResult))
    {
      m_Handle, m_SlotId := NO_HANDLE, NO_SLOT;
      m_IsAuthorized, m_IsOpened := false, false;
    }

    method CloseSession(env: CloseEnv) returns (rv: CkRv)
      modifies this, token
      ensures (token.state, State()) == Close(old(token.state), old(State()), env)
      ensures rv == m_LastResult
    {
      rv := LogoutSession(env.logout);
      if m_IsOpened {
        m_LastResult := token.C_CloseSession(m_Handle, env.close);
        if m_LastResult == CkrOk {
          Reset();
        }
      } else {
        m_LastResult := CkrOk;
      }
      rv := m_LastResult;
    }

    method OpenSession(initialized: bool, slotId: nat, serial: bool, readWrite: bool, env: OpenEnv) returns (rv: CkRv)
      modifies this, token
      ensures if initialized then (token.state, State()) == Open(old(token.state), old(State()), slotId, serial,
          readWrite, env)
              else token.state == old(token.state) && State() == old(State())
      ensures rv == if initialized then m_LastResult else CryptokiNotInitialized
    {
      if !initialized {
        return CryptokiNotInitialized;
      }
      rv := CloseSession(env.close);
      if m_LastResult != CkrOk {
        return m_LastResult;
      }
      m_LastResult := token.C_OpenSession(slotId, serial, readWrite, env.unused, env.open);
      if m_LastResult == CkrOk {
        m_Handle := env.unused;
        m_SlotId := slotId;
        m_IsOpened := true;
      }
      rv := m_LastResult;
    }

    method LoginSession(who: Login, env: LoginEnv) returns (rv: CkRv)
      requires !who.Nobody?
      modifies this, token
      ensures (token.state, State()) == LogIn(old(token.state), old(State()), who, env)
      ensures rv == m_LastResult
    {
      rv := LogoutSession(env.logout);
      if m_LastResult != CkrOk {
        return m_LastResult;
      }
      m_LastResult := token.C_Login(m_Handle, who, env.login, env.cancels);
      if m_LastResult == CkrOk {
        m_IsAuthorized := true;
      }
      rv := m_LastResult;
    }

    method FindObjectsSession(template: Template, objects: seq<ObjectHandle>, env: FindEnv)
      returns (rv: CkRv, result: seq<ObjectHandle>)
      modifies this, token
      ensures var r := FindObjects(old(token.state), old(State()), template, env);
        && token.state == r.0 && State() == r.1
        && result == objects + r.2
      ensures rv == m_LastResult
    {
      result := objects;
      m_LastResult := token.C_FindObjectsInit(m_Handle, template, env.init);
      if m_LastResult != CkrOk {
        return m_LastResult, result;
      }
      hide FetchAll, FindNext, FindInit;
      ghost var h := m_Handle;
      ghost var all := FetchAll(token.state, h, env.next);
      var next := env.next;
      var count := 1;
      while count > 0
        invariant State() == old(State()).(lastResult := m_LastResult)
        invariant h in token.state.live && token.state.live[h].search.Some?
        invariant count > 0 ==> FetchAll(token.state, h, next).0 == all.0
        invariant count > 0 ==> result + FetchAll(token.state, h, next).1 == objects + all.1
        invariant count <= 0 ==> token.state == all.0 && result == objects + all.1
        decreases |token.state.live[h].search.value| + if count > 0 then 1 else 0
      {
        FetchStep(token.state, h, next);
        ghost var more := FetchAll(token.state, h, next).1;
        var found;
        m_LastResult, found := token.C_FindObjects(m_Handle, First(next));
        if m_LastResult != CkrOk {
          break;
        }
        count := |found|;
        next := Rest(next);
        if count > 0 {
          assert result + more == (result + found) + FetchAll(token.state, h, next).1;
          result := result + found;
        }
      }
      m_LastResult := token.C_FindObjectsFinal(m_Handle, env.final);
      rv := m_LastResult;
    }

    method FindFiles(isToken: bool, isPrivate: bool, objType: nat, env: FindEnv)
      returns (rv: CkRv, objFiles: seq<ObjectHandle>)
      modifies this, token
      ensures (token.state, State(), objFiles)
           == FindObjects(old(token.state), old(State()), FileTemplate(isToken, isPrivate, objType), env)
      ensures rv == m_LastResult
    {
      hide FindObjects;
      ghost var r := FindObjects(token.state, State(), FileTemplate(isToken, isPrivate, objType), env);
      rv, objFiles := FindObjectsSession(FileTemplate(isToken, isPrivate, objType), [], env);
      assert [] + r.2 == r.2;
    }

    method FindNamedFiles(isToken: bool, isPrivate: bool, objType: nat, id: bytes, title: bytes, application: bytes,
        env: FindEnv)
      returns (rv: CkRv, objFiles: seq<ObjectHandle>)
      modifies this, token
      ensures (token.state, State(), objFiles)
           == FindObjects(old(token.state), old(State()),
                          NamedFileTemplate(isToken, isPrivate, objType, id, title, application), env)
      ensures rv == m_LastResult
    {
      var template := FileTemplate(isToken, isPrivate, objType);
      if |id| > 0 {
        template := template + [Attribute(CKA_ID, Raw(id))];
      }
      if |title| > 0 {
        template := template + [Attribute(CKA_LABEL, Raw(title))];
      }
      if |application| > 0 {
        template := template + [Attribute(CKA_LABEL, Raw(application))];
      }
      hide FindObjects;
      ghost var r := FindObjects(token.state, State(), template, env);
      assert template == NamedFileTemplate(isToken, isPrivate, objType, id, title, application);
      rv, objFiles := FindObjectsSession(template, [], env);
      assert [] + r.2 == r.2;
    }

    method FindKeys(env: FindEnv) returns (rv: CkRv, objKeys: seq<ObjectHandle>)
      modifies this, token
      ensures (token.state, State(), objKeys)
           == FindObjects(old(token.state), old(State()), FileTemplate(true, true, CKO_PRIVATE_KEY), env)
      ensures rv == m_LastResult
    {
      rv, objKeys := FindFiles(true, true, CKO_PRIVATE_KEY, env);
    }

    method SignHashSession(env: SignEnv) returns (rv: CkRv, signValue: bytes)
      modifies this, token
      ensures (token.state, State(), signValue) == SignHash(old(token.state), old(State()), env)
      ensures rv == m_LastResult
    {
      signValue := [];
      m_LastResult := token.C_SignInit(m_Handle, env.init);
      if m_LastResult != CkrOk {
        return m_LastResult, signValue;
      }
      var length;
      m_LastResult, length := token.C_SignLength(m_Handle, env.announced, env.length);
      if m_LastResult != CkrOk {
        return m_LastResult, signValue;
      }
      signValue := Zeros(length);
      var written := [];
      if length == 0 && env.emptyIsNull {
        m_LastResult, length := token.C_SignLength(m_Handle, env.signature, env.sign);
      } else {
        m_LastResult, written := token.C_Sign(m_Handle, length, env.signature, env.sign);
      }
      signValue := Overwritten(|signValue|, written);
      rv := m_LastResult;
    }
  }
}
