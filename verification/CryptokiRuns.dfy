/**
  What every run of any number of Cryptoki::Session objects on one token keeps, and what
  searches and signatures deliver.
 */
module CryptokiRuns {
  import opened Prelude
  import opened Pkcs11Token
  import opened CryptokiSession

  // ---------- runs ----------

  datatype World = World(token: TokenState, sessions: seq<SessionState>)

  datatype Op =
    | Construct
    | Destroy(i: nat, closeEnv: CloseEnv)
    | DoOpen(i: nat, slot: nat, serial: bool, readWrite: bool, openEnv: OpenEnv)
    | DoClose(i: nat, closeEnv: CloseEnv)
    | DoLogin(i: nat, asOfficer: bool, loginEnv: LoginEnv)
    | DoLogout(i: nat, logoutEnv: LogoutEnv)
    | DoFind(i: nat, template: Template, findEnv: FindEnv)
    | DoSign(i: nat, signEnv: SignEnv)

  function Put(w: World, i: nat, r: (TokenState, SessionState)): World
    requires i < |w.sessions|
  {
    World(r.0, w.sessions[i := r.1])
  }

  function Apply(w: World, op: Op): World {
    if op.Construct? then w.(sessions := w.sessions + [FRESH_SESSION])
    else if op.i >= |w.sessions| then w
    else
      var s := w.sessions[op.i];
      match op
      case Destroy(i, env) =>
        var r := Close(w.token, s, env);
        World(r.0, w.sessions[..i] + w.sessions[i + 1..])
      case DoOpen(i, slot, serial, readWrite, env) => Put(w, i, Open(w.token, s, slot, serial, readWrite, env))
      case DoClose(i, env) => Put(w, i, Close(w.token, s, env))
      case DoLogin(i, asOfficer, env) => Put(w, i, LogIn(w.token, s, if asOfficer then SecurityOfficer else User, env))
      case DoLogout(i, env) => Put(w, i, Logout(w.token, s, env))
      case DoFind(i, template, env) =>
        var r := FindObjects(w.token, s, template, env);
        Put(w, i, (r.0, r.1))
      case DoSign(i, env) =>
        var r := SignHash(w.token, s, env);
        Put(w, i, (r.0, r.1))
  }

  function Run(w: World, ops: seq<Op>): World
    decreases |ops|
  {
    if ops == [] then w else Run(Apply(w, ops[0]), ops[1..])
  }

  function Start(slot: nat, objects: seq<TokenObject>): World {
    World(TokenState(slot, objects, map[], Nobody), [])
  }

  // ---------- the invariant ----------

  predicate SessionOk(t: TokenState, s: SessionState) {
    && (s.isOpen ==> s.handle in t.live)
    && (!s.isOpen ==> s.handle == NO_HANDLE)
    && (s.isAuthorized ==> s.isOpen && !t.login.Nobody?)
  }

  predicate Inv(w: World) {
    && TokenOk(w.token)
    && (forall i :: 0 <= i < |w.sessions| ==> SessionOk(w.token, w.sessions[i]))
    && (forall i, j :: 0 <= i < j < |w.sessions| && w.sessions[i].isOpen && w.sessions[j].isOpen ==>
          w.sessions[i].handle != w.sessions[j].handle)
    && (forall i, j :: 0 <= i < j < |w.sessions| ==> !(w.sessions[i].isAuthorized && w.sessions[j].isAuthorized))
  }

  /** What one wrapper's step may do to the token and to itself without disturbing the others. */
  predicate Local(t: TokenState, s: SessionState, r: (TokenState, SessionState)) {
    && TokenOk(r.0) && SessionOk(r.0, r.1)
    && (forall h :: h in t.live && h != s.handle ==> h in r.0.live)
    && (r.1.isOpen ==> (s.isOpen && r.1.handle == s.handle) || r.1.handle !in t.live)
    && (!t.login.Nobody? && r.0.login.Nobody? ==> s.isAuthorized || t.live.Keys <= {s.handle})
    && (r.1.isAuthorized ==> s.isAuthorized || t.login.Nobody?)
  }

  lemma OthersStayOk(w: World, i: nat, k: nat, r: (TokenState, SessionState))
    requires Inv(w) && i < |w.sessions| && k < |w.sessions| && i != k
    requires Local(w.token, w.sessions[i], r)
    ensures SessionOk(r.0, w.sessions[k])
    ensures r.1.isOpen && w.sessions[k].isOpen ==> r.1.handle != w.sessions[k].handle
    ensures !(r.1.isAuthorized && w.sessions[k].isAuthorized)
  {
    var s, other := w.sessions[i], w.sessions[k];
    assert SessionOk(w.token, s) && SessionOk(w.token, other);
    if other.isOpen {
      assert other.handle in w.token.live;
      assert other.handle != s.handle;
      assert other.handle in r.0.live;
    }
  }

  lemma PutKeeps(w: World, i: nat, r: (TokenState, SessionState))
    requires Inv(w) && i < |w.sessions| && Local(w.token, w.sessions[i], r)
    ensures Inv(Put(w, i, r))
  {
    forall k | 0 <= k < |w.sessions| && k != i
      ensures SessionOk(r.0, w.sessions[k])
      ensures r.1.isOpen && w.sessions[k].isOpen ==> r.1.handle != w.sessions[k].handle
      ensures !(r.1.isAuthorized && w.sessions[k].isAuthorized)
    {
      OthersStayOk(w, i, k, r);
    }
  }

  lemma LogoutLocal(t: TokenState, s: SessionState, env: LogoutEnv)
    requires TokenOk(t) && SessionOk(t, s)
    ensures Local(t, s, Logout(t, s, env))
    ensures Logout(t, s, env).1.lastResult.CkrOk? ==> !Logout(t, s, env).1.isAuthorized
  {
  }

  lemma CloseHandleLocal(t: TokenState, s: SessionState, device: Device)
    requires TokenOk(t) && SessionOk(t, s)
    ensures Local(t, s, CloseHandle(t, s, device))
  {
    if s.isOpen {
      var t1 := CloseSession(t, s.handle, device).0;
      if t1.live == map[] {
        assert t.live.Keys <= t1.live.Keys + {s.handle};
      }
    }
  }

  lemma OpenHandleLocal(t: TokenState, s: SessionState, slot: nat, serial: bool, readWrite: bool, env: OpenEnv)
    requires TokenOk(t) && SessionOk(t, s)
    ensures Local(t, s, OpenHandle(t, s, slot, serial, readWrite, env))
  {
    var r := OpenHandle(t, s, slot, serial, readWrite, env);
    if r.0 != t {
      assert env.unused in r.0.live;
    }
  }

  lemma LoginHandleLocal(t: TokenState, s: SessionState, who: Login, device: Device, cancels: bool)
    requires TokenOk(t) && SessionOk(t, s) && !who.Nobody?
    ensures Local(t, s, LoginHandle(t, s, who, device, cancels))
  {
    var r := LoginHandle(t, s, who, device, cancels);
    if r.0.live == map[] {
      assert t.live.Keys == {};
    }
  }

  /** Only running operations differ. */
  predicate OperationsOnly(t: TokenState, t': TokenState) {
    && t'.live.Keys == t.live.Keys && t'.login == t.login
    && (forall h :: h in t.live ==> t'.live[h].readWrite == t.live[h].readWrite)
  }

  lemma OperationsOnlyLocal(t: TokenState, s: SessionState, t': TokenState, rv: CkRv)
    requires TokenOk(t) && SessionOk(t, s) && OperationsOnly(t, t')
    ensures Local(t, s, (t', s.(lastResult := rv)))
  {
    if t'.live == map[] {
      assert t.live.Keys == {};
    }
  }

  lemma {:induction false} FetchAllOperationsOnly(t: TokenState, h: Handle, next: seq<Device>)
    requires h in t.live && t.live[h].search.Some?
    ensures var (t1, found) := FetchAll(t, h, next);
      && OperationsOnly(t, t1)
      && t1 == SetSearch(t, h, t1.live[h].search) && t1.live[h].search.Some?
      && found == Delivered(t.live[h].search.value, next)
    decreases |t.live[h].search.value|
  {
    var (t1, rv, found) := FindNext(t, h, First(next));
    if rv.CkrOk? && found != [] {
      FetchAllOperationsOnly(t1, h, Rest(next));
    } else {
      assert t == SetSearch(t, h, t.live[h].search);
    }
  }

  lemma FindLocal(t: TokenState, s: SessionState, template: Template, env: FindEnv)
    requires TokenOk(t) && SessionOk(t, s)
    ensures var r := FindObjects(t, s, template, env); Local(t, s, (r.0, r.1))
  {
    var r := FindObjects(t, s, template, env);
    FindOperationsOnly(t, s, template, env);
    hide FindObjects, OperationsOnly, Local, TokenOk, SessionOk;
    OperationsOnlyLocal(t, s, r.0, r.1.lastResult);
  }

  lemma FindOperationsOnly(t: TokenState, s: SessionState, template: Template, env: FindEnv)
    ensures var r := FindObjects(t, s, template, env);
      OperationsOnly(t, r.0) && r.1 == s.(lastResult := r.1.lastResult)
  {
    var (t1, rv) := FindInit(t, s.handle, template, env.init);
    if rv.CkrOk? {
      FetchAllOperationsOnly(t1, s.handle, env.next);
    }
  }

  lemma SignLocal(t: TokenState, s: SessionState, env: SignEnv)
    requires TokenOk(t) && SessionOk(t, s)
    ensures var r := SignHash(t, s, env); Local(t, s, (r.0, r.1))
  {
    var r := SignHash(t, s, env);
    OperationsOnlyLocal(t, s, r.0, r.1.lastResult);
  }

  lemma CloseKeeps(w: World, i: nat, env: CloseEnv)
    requires Inv(w) && i < |w.sessions|
    ensures Inv(Put(w, i, Close(w.token, w.sessions[i], env)))
  {
    var (t1, s1) := Logout(w.token, w.sessions[i], env.logout);
    LogoutLocal(w.token, w.sessions[i], env.logout);
    PutKeeps(w, i, (t1, s1));
    var w1 := Put(w, i, (t1, s1));
    CloseHandleLocal(t1, s1, env.close);
    PutKeeps(w1, i, CloseHandle(t1, s1, env.close));
    assert Put(w1, i, CloseHandle(t1, s1, env.close)) == Put(w, i, Close(w.token, w.sessions[i], env));
  }

  lemma OpenKeeps(w: World, op: Op)
    requires Inv(w) && op.DoOpen? && op.i < |w.sessions|
    ensures Inv(Apply(w, op))
  {
    var i, env := op.i, op.openEnv;
    CloseKeeps(w, i, env.close);
    var (t1, s1) := Close(w.token, w.sessions[i], env.close);
    var w1 := Put(w, i, (t1, s1));
    assert SessionOk(w1.token, w1.sessions[i]);
    var r := OpenHandle(t1, s1, op.slot, op.serial, op.readWrite, env);
    OpenHandleLocal(t1, s1, op.slot, op.serial, op.readWrite, env);
    PutKeeps(w1, i, r);
    assert Put(w1, i, r) == Apply(w, op);
  }

  lemma LoginKeeps(w: World, op: Op)
    requires Inv(w) && op.DoLogin? && op.i < |w.sessions|
    ensures Inv(Apply(w, op))
  {
    var i, env := op.i, op.loginEnv;
    var who := if op.asOfficer then SecurityOfficer else User;
    var (t1, s1) := Logout(w.token, w.sessions[i], env.logout);
    LogoutLocal(w.token, w.sessions[i], env.logout);
    PutKeeps(w, i, (t1, s1));
    var w1 := Put(w, i, (t1, s1));
    var r := LoginHandle(t1, s1, who, env.login, env.cancels);
    LoginHandleLocal(t1, s1, who, env.login, env.cancels);
    PutKeeps(w1, i, r);
    assert Put(w1, i, r) == Apply(w, op);
  }

  lemma RemoveKeeps(w: World, i: nat)
    requires Inv(w) && i < |w.sessions|
    ensures Inv(w.(sessions := w.sessions[..i] + w.sessions[i + 1..]))
  {
    var rest := w.sessions[..i] + w.sessions[i + 1..];
    assert forall k :: 0 <= k < |rest| ==> rest[k] == w.sessions[if k < i then k else k + 1];
  }

  lemma ConstructKeeps(w: World)
    requires Inv(w)
    ensures Inv(w.(sessions := w.sessions + [FRESH_SESSION]))
  {
    var all := w.sessions + [FRESH_SESSION];
    assert forall k :: 0 <= k < |all| ==> all[k] == if k < |w.sessions| then w.sessions[k] else FRESH_SESSION;
  }

  lemma DestroyKeeps(w: World, i: nat, env: CloseEnv)
    requires Inv(w) && i < |w.sessions|
    ensures Inv(Apply(w, Destroy(i, env)))
  {
    CloseKeeps(w, i, env);
    hide Inv, Close;
    var w1 := Put(w, i, Close(w.token, w.sessions[i], env));
    RemoveKeeps(w1, i);
    assert w1.sessions[..i] + w1.sessions[i + 1..] == w.sessions[..i] + w.sessions[i + 1..];
  }

  lemma StepKeeps(w: World, op: Op)
    requires Inv(w)
    ensures Inv(Apply(w, op))
  {
    hide Open, Close, LogIn, Logout, FindObjects, SignHash;
    if op.Construct? {
      ConstructKeeps(w);
    } else if op.i < |w.sessions| {
      var s := w.sessions[op.i];
      match op
      case Destroy(i, env) => DestroyKeeps(w, i, env);
      case DoOpen(i, slot, serial, readWrite, env) => OpenKeeps(w, op);
      case DoClose(i, env) => CloseKeeps(w, i, env);
      case DoLogin(i, asOfficer, env) => LoginKeeps(w, op);
      case DoLogout(i, env) =>
        LogoutLocal(w.token, s, env);
        PutKeeps(w, i, Logout(w.token, s, env));
      case DoFind(i, template, env) =>
        var r := FindObjects(w.token, s, template, env);
        FindLocal(w.token, s, template, env);
        PutKeeps(w, i, (r.0, r.1));
      case DoSign(i, env) =>
        var r := SignHash(w.token, s, env);
        SignLocal(w.token, s, env);
        PutKeeps(w, i, (r.0, r.1));
    }
  }

  /** Whatever is done, in whatever order, by however many wrappers, on whatever the token answers. */
  lemma {:induction false} EveryRunKeepsInvariant(w: World, ops: seq<Op>)
    requires Inv(w)
    ensures Inv(Run(w, ops))
    decreases |ops|
  {
    if ops != [] {
      StepKeeps(w, ops[0]);
      EveryRunKeepsInvariant(Apply(w, ops[0]), ops[1..]);
    }
  }

  lemma ReachableWorlds(slot: nat, objects: seq<TokenObject>, ops: seq<Op>)
    ensures var w := Run(Start(slot, objects), ops);
      && (forall i :: 0 <= i < |w.sessions| && w.sessions[i].isOpen ==> w.sessions[i].handle in w.token.live)
      && (forall i :: 0 <= i < |w.sessions| && w.sessions[i].isAuthorized ==>
            w.sessions[i].isOpen && !w.token.login.Nobody?)
      && (forall i, j :: 0 <= i < j < |w.sessions| ==> !(w.sessions[i].isAuthorized && w.sessions[j].isAuthorized))
  {
    EveryRunKeepsInvariant(Start(slot, objects), ops);
    var w := Run(Start(slot, objects), ops);
    assert forall i :: 0 <= i < |w.sessions| ==> SessionOk(w.token, w.sessions[i]);
  }

  // ---------- no operation is left running ----------

  predicate Quiet(t: TokenState) {
    forall h :: h in t.live ==> t.live[h].search.None? && !t.live[h].signing
  }

  /** Ending a search succeeds and a signature is no longer than announced. */
  predicate Orderly(op: Op) {
    && (op.DoFind? ==> op.findEnv.final.Works?)
    && (op.DoSign? ==> FitsAnnounced(op.signEnv))
  }

  /** The signature is no longer than announced, and the buffer for an empty one is not null. */
  predicate FitsAnnounced(env: SignEnv) {
    |env.signature| <= |env.announced| && (env.announced == [] ==> !env.emptyIsNull)
  }

  /** The operation ran into one that was already active. */
  predicate MeetsActive(w: World, op: Op) {
    !op.Construct? && op.i < |w.sessions| &&
    var h := w.sessions[op.i].handle;
    match op
    case DoFind(_, template, env) => FindInit(w.token, h, template, env.init).1.OperationActive?
    case DoSign(_, env) => SignInit(w.token, h, env.init).1.OperationActive?
    case _ => false
  }

  lemma FindQuietIff(t: TokenState, s: SessionState, template: Template, env: FindEnv)
    requires Quiet(t) && s.handle in t.live
    ensures Quiet(FindObjects(t, s, template, env).0) <==> env.init.Fails? || env.final.Works?
  {
    var (t1, rv) := FindInit(t, s.handle, template, env.init);
    if rv.CkrOk? {
      FetchAllOperationsOnly(t1, s.handle, env.next);
      var t2 := FetchAll(t1, s.handle, env.next).0;
      var t3 := FindObjects(t, s, template, env).0;
      assert s.handle in t3.live;
      assert forall h :: h in t.live && h != s.handle ==> t3.live[h] == t.live[h];
    }
  }

  lemma SignQuietIff(t: TokenState, s: SessionState, env: SignEnv)
    requires Quiet(t) && s.handle in t.live
    ensures Quiet(SignHash(t, s, env).0)
      <==> env.init.Fails? || env.length.Fails? || env.sign.Fails? || FitsAnnounced(env)
  {
    var t3 := SignHash(t, s, env).0;
    assert s.handle in t3.live;
    assert forall h :: h in t.live && h != s.handle ==> t3.live[h] == t.live[h];
  }

  lemma LogoutQuiet(t: TokenState, s: SessionState, env: LogoutEnv)
    requires Quiet(t)
    ensures Quiet(Logout(t, s, env).0)
  {
  }

  lemma CloseQuiet(t: TokenState, s: SessionState, env: CloseEnv)
    requires Quiet(t)
    ensures Quiet(Close(t, s, env).0)
  {
    LogoutQuiet(t, s, env.logout);
  }

  lemma StepQuiet(w: World, op: Op)
    requires Inv(w) && Quiet(w.token) && Orderly(op)
    ensures Quiet(Apply(w, op).token) && !MeetsActive(w, op)
  {
    if !op.Construct? && op.i < |w.sessions| {
      var s := w.sessions[op.i];
      match op
      case Destroy(_, env) => CloseQuiet(w.token, s, env);
      case DoOpen(_, slot, serial, readWrite, env) => CloseQuiet(w.token, s, env.close);
      case DoClose(_, env) => CloseQuiet(w.token, s, env);
      case DoLogin(_, _, env) => LogoutQuiet(w.token, s, env.logout);
      case DoLogout(_, env) => LogoutQuiet(w.token, s, env);
      case DoFind(_, template, env) =>
        if s.handle in w.token.live {
          FindQuietIff(w.token, s, template, env);
        }
      case DoSign(_, env) =>
        if s.handle in w.token.live {
          SignQuietIff(w.token, s, env);
        }
    }
  }

  /** A wrapper opens and signs, the signature announced with no octets into a null buffer. */
  function NullBufferRun(): seq<Op> {
    var close := CloseEnv(LogoutEnv(Works, false), Works);
    [Construct, DoOpen(0, 0, true, true, OpenEnv(close, Works, 1)), DoSign(0, NullBufferSign())]
  }

  function NullBufferSign(): SignEnv { SignEnv(Works, Works, Works, [], [9], true) }

  /** Every call has succeeded, yet a signature is left active, and the next one meets it. */
  lemma SignatureCanBeLeftActive()
    ensures var w := Run(Start(0, []), NullBufferRun());
      && !Quiet(w.token) && |w.sessions| == 1 && w.sessions[0].lastResult.CkrOk?
      && MeetsActive(w, DoSign(0, NullBufferSign()))
  {
    var ops := NullBufferRun();
    var w0 := Start(0, []);
    var w1 := Apply(w0, ops[0]);
    var w2 := Apply(w1, ops[1]);
    var w3 := Apply(w2, ops[2]);
    assert w1 == World(w0.token, [FRESH_SESSION]);
    assert w2 == World(TokenState(0, [], map[1 := LiveSession(true, None, false)], Nobody),
                       [SessionState(1, 0, true, false, CkrOk)]);
    assert 1 in w3.token.live && w3.token.live[1].signing;
    assert w3.sessions == [SessionState(1, 0, true, false, CkrOk)];
    hide Apply;
    assert ops[1..][1..] == ops[2..] && ops[2..][1..] == [];
    assert Run(w1, ops[1..]) == Run(w2, ops[2..]);
    assert Run(w2, ops[2..]) == Run(w3, []);
  }

  predicate NeverMeetsActive(w: World, ops: seq<Op>)
    decreases |ops|
  {
    ops == [] || (!MeetsActive(w, ops[0]) && NeverMeetsActive(Apply(w, ops[0]), ops[1..]))
  }

  /** Between calls nothing is left running, failing paths included. */
  lemma {:induction false} OrderlyRunsStayQuiet(w: World, ops: seq<Op>)
    requires Inv(w) && Quiet(w.token)
    requires forall op :: op in ops ==> Orderly(op)
    ensures Quiet(Run(w, ops).token) && NeverMeetsActive(w, ops)
    decreases |ops|
  {
    if ops != [] {
      StepQuiet(w, ops[0]);
      StepKeeps(w, ops[0]);
      OrderlyRunsStayQuiet(Apply(w, ops[0]), ops[1..]);
    }
  }

  // ---------- what a search delivers ----------

  /** The matches that arrive before the first call that fails. */
  function Delivered(matches: seq<ObjectHandle>, next: seq<Device>): (d: seq<ObjectHandle>)
    ensures d <= matches
    decreases |matches|
  {
    if matches == [] || First(next).Fails? then [] else [matches[0]] + Delivered(matches[1..], Rest(next))
  }

  /** The first `n` calls work, as far as they are made at all. */
  predicate WorkThrough(next: seq<Device>, n: nat) {
    forall i :: 0 <= i < |next| && i < n ==> next[i].Works?
  }

  lemma WorkStep(next: seq<Device>, n: nat)
    ensures WorkThrough(next, n + 1) <==> First(next).Works? && WorkThrough(Rest(next), n)
  {
    if next != [] {
      if WorkThrough(next, n + 1) {
        forall i | 0 <= i < |Rest(next)| && i < n ensures Rest(next)[i].Works? { assert next[i + 1].Works?; }
      }
      if First(next).Works? && WorkThrough(Rest(next), n) {
        forall i | 0 <= i < |next| && i < n + 1 ensures next[i].Works? {
          if i > 0 { assert Rest(next)[i - 1].Works?; }
        }
      }
    }
  }

  lemma {:induction false} DeliveredAllIff(matches: seq<ObjectHandle>, next: seq<Device>)
    ensures Delivered(matches, next) == matches <==> WorkThrough(next, |matches|)
    decreases |matches|
  {
    if matches != [] {
      hide WorkThrough;
      DeliveredAllIff(matches[1..], Rest(next));
      WorkStep(next, |matches| - 1);
      assert matches == [matches[0]] + matches[1..];
      assert Delivered(matches, next) == matches ==> Delivered(matches, next)[1..] == matches[1..];
    }
  }

  /** A search appends the matches delivered before a failure and reports only how it ended. */
  lemma SearchResult(t: TokenState, s: SessionState, template: Template, env: FindEnv)
    requires s.handle in t.live && t.live[s.handle].search.None?
    ensures var (_, s', found) := FindObjects(t, s, template, env);
      && found == (if env.init.Fails? then [] else Delivered(MatchesOf(t, template), env.next))
      && (s'.lastResult.CkrOk? <==> env.init.Works? && env.final.Works?)
  {
    var (t1, rv) := FindInit(t, s.handle, template, env.init);
    if rv.CkrOk? {
      FetchAllOperationsOnly(t1, s.handle, env.next);
    }
  }

  /** CKR_OK comes with the complete list exactly when no call failed before the list was complete. */
  lemma OkSearchCompleteIff(t: TokenState, s: SessionState, template: Template, env: FindEnv)
    requires s.handle in t.live && t.live[s.handle].search.None?
    requires FindObjects(t, s, template, env).1.lastResult.CkrOk?
    ensures FindObjects(t, s, template, env).2 == MatchesOf(t, template)
      <==> WorkThrough(env.next, |MatchesOf(t, template)|)
  {
    SearchResult(t, s, template, env);
    DeliveredAllIff(MatchesOf(t, template), env.next);
  }

  /** An interrupted search that still reports CKR_OK. */
  lemma OkSearchCanBeIncomplete()
    ensures exists t, s, template, env ::
              && TokenOk(t) && SessionOk(t, s)
              && FindObjects(t, s, template, env).1.lastResult.CkrOk?
              && FindObjects(t, s, template, env).2 != MatchesOf(t, template)
  {
    var t := TokenState(0, [TokenObject(7, map[])], map[1 := LiveSession(false, None, false)], Nobody);
    var s := SessionState(1, 0, true, false, CkrOk);
    var env := FindEnv(Works, [Fails(5)], Works);
    assert t.objects[1..] == [];
    assert Matches(t.objects[0], []) && Visible(t, t.objects[0]);
    assert MatchesOf(t, []) == [7];
    SearchResult(t, s, [], env);
    assert FindObjects(t, s, [], env).2 == [];
  }

  /** The object `h` stands for shows and has what is asked for. */
  predicate Matched(t: TokenState, o: TokenObject, template: Template, h: ObjectHandle) {
    o.handle == h && Visible(t, o) && Matches(o, template)
  }

  lemma {:induction false} MatchesMembers(t: TokenState, objects: seq<TokenObject>, template: Template, h: ObjectHandle)
    ensures h in MatchesIn(t, objects, template)
      <==> exists k :: 0 <= k < |objects| && Matched(t, objects[k], template, h)
  {
    if objects != [] {
      MatchesMembers(t, objects[1..], template, h);
      assert forall k :: 1 <= k < |objects| ==> objects[1..][k - 1] == objects[k];
      if h in MatchesIn(t, objects[1..], template) {
        var k :| 0 <= k < |objects[1..]| && Matched(t, objects[1..][k], template, h);
        assert Matched(t, objects[k + 1], template, h);
      }
    }
  }

  /** Matches come in token order. */
  lemma {:induction false} MatchesInOrder(t: TokenState, before: seq<TokenObject>, after: seq<TokenObject>,
      template: Template)
    ensures MatchesIn(t, before + after, template) == MatchesIn(t, before, template) + MatchesIn(t, after, template)
  {
    if before == [] {
      assert before + after == after;
    } else {
      assert (before + after)[1..] == before[1..] + after;
      MatchesInOrder(t, before[1..], after, template);
    }
  }

  /** Asked for a label and a different application name, a search by name finds nothing on any token. */
  lemma LabelAndApplicationExclude(t: TokenState, isToken: bool, isPrivate: bool, objType: nat,
                                   id: bytes, title: bytes, application: bytes)
    requires title != [] && application != [] && title != application
    ensures MatchesOf(t, NamedFileTemplate(isToken, isPrivate, objType, id, title, application)) == []
  {
    var template := NamedFileTemplate(isToken, isPrivate, objType, id, title, application);
    var a, b := Attribute(CKA_LABEL, Raw(title)), Attribute(CKA_LABEL, Raw(application));
    assert IfPresent(CKA_LABEL, title)[0] == a && IfPresent(CKA_LABEL, application)[0] == b;
    assert a in template && b in template;
    NothingMatches(t, t.objects, template, a, b);
  }

  lemma {:induction false} NothingMatches(t: TokenState, objects: seq<TokenObject>, template: Template, a: Attribute,
      b: Attribute)
    requires a in template && b in template && a.kind == b.kind && a.value != b.value
    ensures MatchesIn(t, objects, template) == []
  {
    if objects != [] {
      NothingMatches(t, objects[1..], template, a, b);
    }
  }

  /** Some token holds an object the search by name finds, unless a label and another application name are asked for. */
  lemma NamedSearchSucceedsIff(isToken: bool, isPrivate: bool, objType: nat, id: bytes, title: bytes,
      application: bytes)
    ensures var template := NamedFileTemplate(isToken, isPrivate, objType, id, title, application);
      (exists t :: TokenOk(t) && MatchesOf(t, template) != [])
      <==> title == [] || application == [] || title == application
  {
    var template := NamedFileTemplate(isToken, isPrivate, objType, id, title, application);
    if title == [] || application == [] || title == application {
      var named := if title == [] then application else title;
      var attributes := FileAttributes(isToken, isPrivate, objType)[CKA_ID := Raw(id)][CKA_LABEL := Raw(named)];
      NamedMatchIff(TokenObject(7, attributes), isToken, isPrivate, objType, id, title, application);
      OnlyObject(attributes, template);
      assert TokenOk(TokenWith(attributes));
    } else {
      forall t ensures MatchesOf(t, template) == [] {
        LabelAndApplicationExclude(t, isToken, isPrivate, objType, id, title, application);
      }
    }
  }

  function FileAttributes(isToken: bool, isPrivate: bool, objType: nat): Attributes {
    map[CKA_CLASS := Number(objType), CKA_TOKEN := Flag(isToken), CKA_PRIVATE := Flag(isPrivate)]
  }

  /** A token with the user logged in and one object. */
  function TokenWith(attributes: Attributes): (t: TokenState)
    ensures TokenOk(t) && t.objects == [TokenObject(7, attributes)] && t.login.User?
  {
    var live := map[1 := LiveSession(false, None, false)];
    assert 1 in live;
    TokenState(0, [TokenObject(7, attributes)], live, User)
  }

  lemma OnlyObject(attributes: Attributes, template: Template)
    ensures MatchesOf(TokenWith(attributes), template)
         == if Matches(TokenObject(7, attributes), template) then [7] else []
  {
    var t := TokenWith(attributes);
    assert MatchesIn(t, t.objects[1..], template) == [];
    assert t.objects[0] == TokenObject(7, attributes);
  }

  predicate Has(o: TokenObject, kind: nat, value: AttributeValue) {
    kind in o.attributes && o.attributes[kind] == value
  }

  /** What a caller asks for: the file, with the id, label and application name that are given. */
  predicate Asked(o: TokenObject, isToken: bool, isPrivate: bool, objType: nat, id: bytes, title: bytes,
      application: bytes) {
    && Has(o, CKA_CLASS, Number(objType)) && Has(o, CKA_TOKEN, Flag(isToken)) && Has(o, CKA_PRIVATE, Flag(isPrivate))
    && (id != [] ==> Has(o, CKA_ID, Raw(id)))
    && (title != [] ==> Has(o, CKA_LABEL, Raw(title)))
    && (application != [] ==> Has(o, CKA_APPLICATION, Raw(application)))
  }

  /** An object that is just what was asked for is delivered exactly if no application was named,
      or its label is the application's name. */
  lemma AskedIsFoundIff(t: TokenState, k: nat, isToken: bool, isPrivate: bool, objType: nat,
                        id: bytes, title: bytes, application: bytes)
    requires k < |t.objects| && Visible(t, t.objects[k])
    requires forall i :: 0 <= i < |t.objects| && t.objects[i].handle == t.objects[k].handle ==> i == k
    requires Asked(t.objects[k], isToken, isPrivate, objType, id, title, application)
    ensures t.objects[k].handle in MatchesOf(t, NamedFileTemplate(isToken, isPrivate, objType, id, title, application))
      <==> application == [] || Has(t.objects[k], CKA_LABEL, Raw(application))
  {
    hide NamedFileTemplate, Matches, Visible;
    MatchesMembers(t, t.objects, NamedFileTemplate(isToken, isPrivate, objType, id, title, application),
        t.objects[k].handle);
    NamedMatchIff(t.objects[k], isToken, isPrivate, objType, id, title, application);
  }

  lemma NamedMatchIff(o: TokenObject, isToken: bool, isPrivate: bool, objType: nat, id: bytes, title: bytes,
      application: bytes)
    ensures Matches(o, NamedFileTemplate(isToken, isPrivate, objType, id, title, application)) <==>
      && Has(o, CKA_CLASS, Number(objType)) && Has(o, CKA_TOKEN, Flag(isToken)) && Has(o, CKA_PRIVATE, Flag(isPrivate))
      && (id != [] ==> Has(o, CKA_ID, Raw(id)))
      && (title != [] ==> Has(o, CKA_LABEL, Raw(title)))
      && (application != [] ==> Has(o, CKA_LABEL, Raw(application)))
  {
    var file := FileTemplate(isToken, isPrivate, objType);
    MatchesJoin(o, file + IfPresent(CKA_ID, id) + IfPresent(CKA_LABEL, title), IfPresent(CKA_LABEL, application));
    MatchesJoin(o, file + IfPresent(CKA_ID, id), IfPresent(CKA_LABEL, title));
    MatchesJoin(o, file, IfPresent(CKA_ID, id));
    assert file[0] in file && file[1] in file && file[2] in file;
    MatchesPresent(o, CKA_ID, id);
    MatchesPresent(o, CKA_LABEL, title);
    MatchesPresent(o, CKA_LABEL, application);
  }

  lemma MatchesJoin(o: TokenObject, a: Template, b: Template)
    ensures Matches(o, a + b) <==> Matches(o, a) && Matches(o, b)
  {
    if Matches(o, a + b) {
      forall x | x in a || x in b ensures Has(o, x.kind, x.value) { assert x in a + b; }
    }
  }

  lemma MatchesPresent(o: TokenObject, kind: nat, value: bytes)
    ensures Matches(o, IfPresent(kind, value)) <==> (value != [] ==> Has(o, kind, Raw(value)))
  {
    if value != [] { assert IfPresent(kind, value)[0] == Attribute(kind, Raw(value)); }
  }

  /** The only object on a token, carrying exactly the application asked for, and no match. */
  lemma SearchByApplicationCanMiss()
    ensures exists t, application: bytes ::
              && TokenOk(t) && |t.objects| == 1 && Visible(t, t.objects[0])
              && Asked(t.objects[0], true, true, CKO_PRIVATE_KEY, [], [], application)
              && MatchesOf(t, NamedFileTemplate(true, true, CKO_PRIVATE_KEY, [], [], application)) == []
  {
    var attributes := FileAttributes(true, true, CKO_PRIVATE_KEY)[CKA_APPLICATION := Raw([9])];
    var t := TokenWith(attributes);
    NamedMatchIff(t.objects[0], true, true, CKO_PRIVATE_KEY, [], [], [9]);
    OnlyObject(attributes, NamedFileTemplate(true, true, CKO_PRIVATE_KEY, [], [], [9]));
    assert Asked(t.objects[0], true, true, CKO_PRIVATE_KEY, [], [], [9]);
  }

  /** The signature buffer holds the signature itself exactly when its length was announced. */
  lemma SignatureExactIff(t: TokenState, s: SessionState, env: SignEnv)
    requires s.handle in t.live && !t.live[s.handle].signing
    requires SignHash(t, s, env).1.lastResult.CkrOk?
    ensures SignHash(t, s, env).2 == env.signature <==> |env.signature| == |env.announced|
    ensures env.signature <= SignHash(t, s, env).2 <==> env.signature == [] || env.announced != [] || !env.emptyIsNull
  {
  }
}
