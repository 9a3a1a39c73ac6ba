/**
  Who is logged in, over every run of Cryptoki::Session objects on one token, and what the result
  of each of their operations tells.
 */
module CryptokiLogins {
  import opened Prelude
  import opened Pkcs11Token
  import opened CryptokiSession
  import opened CryptokiRuns

  /** Somebody is logged in on the token exactly if some wrapper is authorised. */
  predicate WhoIsIn(w: World) {
    !w.token.login.Nobody? <==> SomeAuthorized(w)
  }

  predicate SomeAuthorized(w: World) {
    exists i :: 0 <= i < |w.sessions| && w.sessions[i].isAuthorized
  }

  /** An authorised wrapper is closed although its logout fails, while the token has other sessions. */
  predicate ClosesLoggedIn(t: TokenState, s: SessionState, env: CloseEnv) {
    s.isAuthorized && env.logout.logout.Fails? && env.close.Works? && t.live.Keys != {s.handle}
  }

  /** Nothing that is authorised is left to log out. A destroyed wrapper cannot even be asked again. */
  predicate Abandons(w: World, op: Op) {
    !op.Construct? && op.i < |w.sessions| &&
    var s := w.sessions[op.i];
    match op
    case Destroy(_, env) =>
      s.isAuthorized && env.logout.logout.Fails? && !(env.close.Works? && w.token.live.Keys == {s.handle})
    case DoOpen(_, _, _, _, env) => ClosesLoggedIn(w.token, s, env.close)
    case DoClose(_, env) => ClosesLoggedIn(w.token, s, env)
    case _ => false
  }

  // ---------- one wrapper ----------

  /** How a wrapper's step moves the login of the token; `kept` says whether the two still agree. */
  predicate Moves(t: TokenState, s: SessionState, r: (TokenState, SessionState), kept: bool) {
    && (t.login.Nobody? && !r.0.login.Nobody? ==> r.1.isAuthorized)
    && (s.isAuthorized ==> ((r.1.isAuthorized <==> !r.0.login.Nobody?) <==> kept))
    && (!s.isAuthorized ==> kept)
  }

  lemma CloseMoves(t: TokenState, s: SessionState, env: CloseEnv)
    requires TokenOk(t) && SessionOk(t, s)
    ensures Moves(t, s, Close(t, s, env), !ClosesLoggedIn(t, s, env))
    ensures var r := Close(t, s, env); r.1.isAuthorized ==> r.1.isOpen && s.isAuthorized
  {
    if s.isAuthorized && env.logout.logout.Fails? {
      assert t.live.Keys - {s.handle} == {} <==> t.live.Keys == {s.handle};
      assert (t.live - {s.handle}).Keys == t.live.Keys - {s.handle};
      assert (t.live - {s.handle}) == map[] <==> (t.live - {s.handle}).Keys == {};
    }
  }

  lemma OpenMoves(t: TokenState, s: SessionState, slot: nat, serial: bool, readWrite: bool, env: OpenEnv)
    requires TokenOk(t) && SessionOk(t, s)
    ensures Moves(t, s, Open(t, s, slot, serial, readWrite, env), !ClosesLoggedIn(t, s, env.close))
  {
    CloseMoves(t, s, env.close);
    hide Close;
  }

  lemma LoginMoves(t: TokenState, s: SessionState, who: Login, env: LoginEnv)
    requires TokenOk(t) && SessionOk(t, s) && !who.Nobody?
    ensures Moves(t, s, LogIn(t, s, who, env), true)
  {
  }

  lemma LogoutMoves(t: TokenState, s: SessionState, env: LogoutEnv)
    requires TokenOk(t) && SessionOk(t, s)
    ensures Moves(t, s, Logout(t, s, env), true)
  {
  }

  // ---------- all wrappers ----------

  lemma PutWhoIff(w: World, i: nat, r: (TokenState, SessionState), kept: bool)
    requires Inv(w) && WhoIsIn(w) && i < |w.sessions|
    requires Inv(Put(w, i, r)) && Moves(w.token, w.sessions[i], r, kept)
    ensures WhoIsIn(Put(w, i, r)) <==> kept
  {
    var s, w1 := w.sessions[i], Put(w, i, r);
    assert w1.sessions[i] == r.1;
    assert SessionOk(w.token, s);
    if k :| 0 <= k < |w.sessions| && k != i && w.sessions[k].isAuthorized {
      assert w1.sessions[k].isAuthorized && SessionOk(w1.token, w1.sessions[k]);
      assert i < k || k < i;
    } else {
      assert SomeAuthorized(w) <==> s.isAuthorized by {
        if SomeAuthorized(w) {
          var j :| 0 <= j < |w.sessions| && w.sessions[j].isAuthorized;
          assert j == i;
        }
      }
      assert SomeAuthorized(w1) <==> r.1.isAuthorized by {
        if SomeAuthorized(w1) {
          var j :| 0 <= j < |w1.sessions| && w1.sessions[j].isAuthorized;
          assert j == i;
        }
      }
    }
  }

  lemma DestroyWhoIff(w: World, i: nat, env: CloseEnv)
    requires Inv(w) && WhoIsIn(w) && i < |w.sessions|
    ensures WhoIsIn(Apply(w, Destroy(i, env))) <==> !Abandons(w, Destroy(i, env))
  {
    var s := w.sessions[i];
    var r := Close(w.token, s, env);
    CloseKeeps(w, i, env);
    assert SessionOk(w.token, s);
    CloseMoves(w.token, s, env);
    CloseLoginIff(w.token, s, env);
    PutWhoIff(w, i, r, !ClosesLoggedIn(w.token, s, env));
    var w1 := Put(w, i, r);
    RemovedAuthorized(w1, i);
    assert w1.sessions[..i] + w1.sessions[i + 1..] == w.sessions[..i] + w.sessions[i + 1..];
    hide Close, Inv, SomeAuthorized;
    if OtherAuthorized(w1, i) {
      var k :| 0 <= k < |w1.sessions| && k != i && w1.sessions[k].isAuthorized;
      assert w.sessions[k].isAuthorized;
      OnlyOneAuthorized(w, i, k);
    }
    SomeIsOther(w1, i);
  }

  predicate OtherAuthorized(w: World, i: nat) {
    exists k :: 0 <= k < |w.sessions| && k != i && w.sessions[k].isAuthorized
  }

  lemma SomeIsOther(w: World, i: nat)
    requires i < |w.sessions|
    ensures SomeAuthorized(w) <==> w.sessions[i].isAuthorized || OtherAuthorized(w, i)
  {
  }

  lemma RemovedAuthorized(w: World, i: nat)
    requires i < |w.sessions|
    ensures SomeAuthorized(w.(sessions := w.sessions[..i] + w.sessions[i + 1..])) <==> OtherAuthorized(w, i)
  {
    var rest := w.sessions[..i] + w.sessions[i + 1..];
    assert forall k :: 0 <= k < |rest| ==> rest[k] == w.sessions[if k < i then k else k + 1];
    if k :| 0 <= k < |w.sessions| && k != i && w.sessions[k].isAuthorized {
      assert rest[if k < i then k else k - 1].isAuthorized;
    }
  }

  lemma OnlyOneAuthorized(w: World, i: nat, j: nat)
    requires Inv(w) && i < |w.sessions| && j < |w.sessions| && i != j && w.sessions[j].isAuthorized
    ensures !w.sessions[i].isAuthorized && !w.token.login.Nobody?
  {
    assert SessionOk(w.token, w.sessions[j]);
    assert i < j || j < i;
  }

  /** What is left of an authorised wrapper's login when it is closed. */
  lemma CloseLoginIff(t: TokenState, s: SessionState, env: CloseEnv)
    requires TokenOk(t) && SessionOk(t, s)
    ensures s.isAuthorized ==>
      (Close(t, s, env).0.login.Nobody? <==>
         env.logout.logout.Works? || (env.close.Works? && t.live.Keys == {s.handle}))
  {
    CloseMoves(t, s, env);
  }

  /** One step keeps token and wrappers agreed about who is logged in, exactly if it abandons no login. */
  lemma StepWhoIff(w: World, op: Op)
    requires Inv(w) && WhoIsIn(w)
    ensures WhoIsIn(Apply(w, op)) <==> !Abandons(w, op)
  {
    StepKeeps(w, op);
    if op.Construct? {
      ConstructWho(w);
    } else if op.i < |w.sessions| {
      var s := w.sessions[op.i];
      assert SessionOk(w.token, s);
      hide Open, Close, LogIn, Logout, FindObjects, SignHash, Inv, SomeAuthorized;
      TokenIsOk(w);
      match op
      case Destroy(i, env) => DestroyWhoIff(w, i, env);
      case DoOpen(i, slot, serial, readWrite, env) =>
        OpenMoves(w.token, s, slot, serial, readWrite, env);
        PutWhoIff(w, i, Open(w.token, s, slot, serial, readWrite, env), !ClosesLoggedIn(w.token, s, env.close));
      case DoClose(i, env) =>
        CloseMoves(w.token, s, env);
        PutWhoIff(w, i, Close(w.token, s, env), !ClosesLoggedIn(w.token, s, env));
      case DoLogin(i, asOfficer, env) =>
        var who := if asOfficer then SecurityOfficer else User;
        LoginMoves(w.token, s, who, env);
        PutWhoIff(w, i, LogIn(w.token, s, who, env), true);
      case DoLogout(i, env) =>
        LogoutMoves(w.token, s, env);
        PutWhoIff(w, i, Logout(w.token, s, env), true);
      case DoFind(i, template, env) =>
        var r := FindObjects(w.token, s, template, env);
        FindOperationsOnly(w.token, s, template, env);
        PutWhoIff(w, i, (r.0, r.1), true);
      case DoSign(i, env) =>
        var r := SignHash(w.token, s, env);
        SignOperationsOnly(w.token, s, env);
        PutWhoIff(w, i, (r.0, r.1), true);
    }
  }

  lemma TokenIsOk(w: World)
    requires Inv(w)
    ensures TokenOk(w.token)
  {
  }

  lemma ConstructWho(w: World)
    requires WhoIsIn(w)
    ensures WhoIsIn(w.(sessions := w.sessions + [FRESH_SESSION]))
  {
    var w1 := w.(sessions := w.sessions + [FRESH_SESSION]);
    if i :| 0 <= i < |w.sessions| && w.sessions[i].isAuthorized { assert w1.sessions[i].isAuthorized; }
    if i :| 0 <= i < |w1.sessions| && w1.sessions[i].isAuthorized { assert w.sessions[i].isAuthorized; }
  }

  lemma SignOperationsOnly(t: TokenState, s: SessionState, env: SignEnv)
    ensures var r := SignHash(t, s, env);
      OperationsOnly(t, r.0) && r.1 == s.(lastResult := r.1.lastResult)
  {
  }

  // ---------- runs ----------

  predicate WhoIsInThroughout(w: World, ops: seq<Op>)
    decreases |ops|
  {
    WhoIsIn(w) && (ops == [] || WhoIsInThroughout(Apply(w, ops[0]), ops[1..]))
  }

  predicate NeverAbandons(w: World, ops: seq<Op>)
    decreases |ops|
  {
    ops == [] || (!Abandons(w, ops[0]) && NeverAbandons(Apply(w, ops[0]), ops[1..]))
  }

  lemma {:induction false} WhoIsInThroughoutIff(w: World, ops: seq<Op>)
    requires Inv(w) && WhoIsIn(w)
    ensures WhoIsInThroughout(w, ops) <==> NeverAbandons(w, ops)
    decreases |ops|
  {
    hide Inv, Apply, WhoIsIn, Abandons;
    if ops != [] {
      StepKeeps(w, ops[0]);
      StepWhoIff(w, ops[0]);
      if !Abandons(w, ops[0]) {
        WhoIsInThroughoutIff(Apply(w, ops[0]), ops[1..]);
      } else {
        assert !WhoIsInThroughout(Apply(w, ops[0]), ops[1..]);
      }
    }
  }

  /** Over every run: somebody is logged in exactly if some wrapper is authorised, at every step, if and only if
      no step abandons a login. */
  lemma ReachableWhoIff(slot: nat, objects: seq<TokenObject>, ops: seq<Op>)
    ensures WhoIsInThroughout(Start(slot, objects), ops) <==> NeverAbandons(Start(slot, objects), ops)
  {
    WhoIsInThroughoutIff(Start(slot, objects), ops);
  }

  /** The logout an operation may make does not fail. */
  predicate LogoutWorks(op: Op) {
    match op
    case Destroy(_, env) => env.logout.logout.Works?
    case DoOpen(_, _, _, _, env) => env.close.logout.logout.Works?
    case DoClose(_, env) => env.logout.logout.Works?
    case DoLogin(_, _, env) => env.logout.logout.Works?
    case DoLogout(_, env) => env.logout.Works?
    case _ => true
  }

  /** While no logout fails, somebody is logged in exactly if some wrapper is authorised. */
  lemma {:induction false} LoggedInIffAuthorized(w: World, ops: seq<Op>)
    requires Inv(w) && WhoIsIn(w) && forall i :: 0 <= i < |ops| ==> LogoutWorks(ops[i])
    ensures WhoIsIn(Run(w, ops))
    decreases |ops|
  {
    hide Inv, Apply, WhoIsIn;
    if ops != [] {
      StepKeeps(w, ops[0]);
      StepWhoIff(w, ops[0]);
      assert LogoutWorks(ops[0]);
      LoggedInIffAuthorized(Apply(w, ops[0]), ops[1..]);
    }
  }

  /** Two wrappers, one logged in, and closed although its logout fails. */
  function AbandoningRun(): seq<Op> {
    var plain := CloseEnv(LogoutEnv(Works, false), Works);
    [Construct, Construct, DoOpen(0, 0, true, true, OpenEnv(plain, Works, 1)),
     DoOpen(1, 0, true, true, OpenEnv(plain, Works, 2)),
     DoLogin(0, false, LoginEnv(LogoutEnv(Works, false), Works, false)),
     DoClose(0, CloseEnv(LogoutEnv(Fails(5), false), Works))]
  }

  function AbandonedToken(): TokenState { TokenState(0, [], map[2 := LiveSession(true, None, false)], User) }

  /** The states of the run, one before each operation. */
  function Stage(n: nat): World
    requires n < 7
  {
    var live := LiveSession(true, None, false);
    var open1, open2 := SessionState(1, 0, true, false, CkrOk), SessionState(2, 0, true, false, CkrOk);
    var both := TokenState(0, [], map[1 := live, 2 := live], Nobody);
    if n == 0 then Start(0, [])
    else if n == 1 then World(Start(0, []).token, [FRESH_SESSION])
    else if n == 2 then World(Start(0, []).token, [FRESH_SESSION, FRESH_SESSION])
    else if n == 3 then World(TokenState(0, [], map[1 := live], Nobody), [open1, FRESH_SESSION])
    else if n == 4 then World(both, [open1, open2])
    else if n == 5 then World(both.(login := User), [open1.(isAuthorized := true), open2])
    else World(AbandonedToken(), [FRESH_SESSION, open2])
  }

  lemma StageStarts(n: nat)
    requires n < 4
    ensures Apply(Stage(n), AbandoningRun()[n]) == Stage(n + 1)
  {
  }

  lemma StageLogsIn()
    ensures Apply(Stage(4), AbandoningRun()[4]) == Stage(5)
  {
  }

  lemma StageCloses()
    ensures Apply(Stage(5), AbandoningRun()[5]) == Stage(6)
  {
    assert Stage(5).token.live - {1} == AbandonedToken().live;
    assert 2 in AbandonedToken().live;
  }

  /** The user stays logged in, and no wrapper is left that would log out. */
  lemma LoginCanBeAbandoned()
    ensures var w := Run(Start(0, []), AbandoningRun());
      !w.token.login.Nobody? && !SomeAuthorized(w)
  {
    AbandoningRunEnds();
    hide Run, AbandoningRun, Start;
  }

  lemma AbandoningRunEnds()
    ensures Run(Start(0, []), AbandoningRun()) == Stage(6)
  {
    var ops := AbandoningRun();
    assert |ops| == 6 && Stage(0) == Start(0, []);
    hide Apply, AbandoningRun, Stage, Start;
    StageStarts(0);
    StageStarts(1);
    StageStarts(2);
    StageStarts(3);
    StageLogsIn();
    StageCloses();
    RunStep(Stage(0), ops, 0);
    RunStep(Stage(1), ops, 1);
    RunStep(Stage(2), ops, 2);
    RunStep(Stage(3), ops, 3);
    RunStep(Stage(4), ops, 4);
    RunStep(Stage(5), ops, 5);
    assert ops[0..] == ops && ops[6..] == [];
  }

  lemma RunStep(w: World, ops: seq<Op>, i: nat)
    requires i < |ops|
    ensures Run(w, ops[i..]) == Run(Apply(w, ops[i]), ops[i + 1..])
  {
    hide Apply;
    assert ops[i..][1..] == ops[i + 1..];
  }

  // ---------- what results tell ----------

  /** Logging in succeeds exactly if the token logs in whom it was asked to, on this wrapper's session. */
  lemma LoginResultIff(t: TokenState, s: SessionState, who: Login, env: LoginEnv)
    requires TokenOk(t) && SessionOk(t, s) && !who.Nobody?
    ensures var r := LogIn(t, s, who, env);
      && (r.1.lastResult.CkrOk? ==> r.1.isAuthorized && r.1.isOpen && r.0.login == who)
      && (!r.1.lastResult.CkrOk? ==> r.1.isAuthorized == (s.isAuthorized && env.logout.logout.Fails?))
      && r.1.handle == s.handle && r.1.slotId == s.slotId && r.1.isOpen == s.isOpen
  {
  }

  /** It succeeds exactly if the wrapper is open, a logout before it works, nobody else is logged in, the sessions
      are fit for an officer if one is to log in, and the device works. */
  lemma LoginSucceedsIff(t: TokenState, s: SessionState, who: Login, env: LoginEnv)
    requires TokenOk(t) && SessionOk(t, s) && !who.Nobody?
    ensures LogIn(t, s, who, env).1.lastResult.CkrOk? <==>
      && s.isOpen && env.login.Works? && (if s.isAuthorized then env.logout.logout.Works? else t.login.Nobody?)
      && (who.SecurityOfficer? ==> forall h :: h in t.live ==> t.live[h].readWrite)
  {
  }

  /** Logging out succeeds exactly if the wrapper is then not authorised; the token follows one that was. */
  lemma LogoutResultIff(t: TokenState, s: SessionState, env: LogoutEnv)
    requires TokenOk(t) && SessionOk(t, s)
    ensures var r := Logout(t, s, env);
      && (r.1.lastResult.CkrOk? <==> !r.1.isAuthorized)
      && (r.1.isAuthorized <==> s.isAuthorized && env.logout.Fails?)
      && (r.0.login.Nobody? <==> t.login.Nobody? || (s.isAuthorized && env.logout.Works?))
      && r.1 == s.(lastResult := r.1.lastResult, isAuthorized := r.1.isAuthorized)
  {
  }

  /** Closing succeeds exactly if the wrapper is then as new, its session gone. */
  lemma CloseResultIff(t: TokenState, s: SessionState, env: CloseEnv)
    requires TokenOk(t) && SessionOk(t, s)
    ensures var r := Close(t, s, env);
      && (r.1.lastResult.CkrOk? <==> !r.1.isOpen)
      && (r.1.lastResult.CkrOk? && s.isOpen ==> r.1 == FRESH_SESSION && s.handle !in r.0.live)
      && (r.1.isOpen <==> s.isOpen && env.close.Fails?)
      && (forall h :: h in t.live && h != s.handle ==> h in r.0.live)
  {
  }

  /** Opening succeeds exactly if the wrapper then holds a session that was not there before, on that slot and of
      that kind. */
  lemma OpenResultIff(t: TokenState, s: SessionState, slot: nat, serial: bool, readWrite: bool, env: OpenEnv)
    requires TokenOk(t) && SessionOk(t, s)
    ensures var r := Open(t, s, slot, serial, readWrite, env);
      && (r.1.lastResult.CkrOk? ==>
            && r.1.isOpen && !r.1.isAuthorized && r.1.slotId == slot == t.slot && r.1.handle in r.0.live
            && r.0.live[r.1.handle] == LiveSession(readWrite, None, false)
            && (r.1.handle == s.handle || r.1.handle !in t.live))
      && (!r.1.lastResult.CkrOk? ==> r.1.isOpen == (s.isOpen && env.close.close.Fails?))
  {
    hide Logout;
    CloseResultIff(t, s, env.close);
    CloseMoves(t, s, env.close);
    CloseOkThen(t, s, env.close);
    hide Close;
  }

  lemma CloseOkThen(t: TokenState, s: SessionState, env: CloseEnv)
    requires TokenOk(t) && SessionOk(t, s)
    ensures var r := Close(t, s, env); r.0.slot == t.slot && r.0.live.Keys <= t.live.Keys
    ensures var r := Close(t, s, env); r.1.lastResult.CkrOk? && !s.isOpen ==> !r.1.isAuthorized
  {
  }

  /** A wrapper that is not open can be opened exactly on the token's slot, as a serial session, with a handle to
      spare, and not read-only beside an officer. */
  lemma OpenSucceedsIff(t: TokenState, s: SessionState, slot: nat, serial: bool, readWrite: bool, env: OpenEnv)
    requires TokenOk(t) && SessionOk(t, s) && !s.isOpen
    ensures Open(t, s, slot, serial, readWrite, env).1.lastResult.CkrOk? <==>
      && slot == t.slot && serial && env.open.Works? && (readWrite || !t.login.SecurityOfficer?)
      && env.unused != NO_HANDLE && env.unused !in t.live
  {
  }

  /** Private objects show to the user alone, all others to everybody. */
  lemma ShowsIff(t: TokenState, o: TokenObject)
    ensures Visible(t, o) <==> !Has(o, CKA_PRIVATE, Flag(true)) || t.login.User?
  {
  }
}
