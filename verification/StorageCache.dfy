/**
  The storage cache of cm-cryptoki.cpp.  Tokens may be inserted, removed and swapped
  between calls; a `View` is what the providers' libraries answer during one call.
 */
module StorageCache {
  import opened Prelude

  datatype TokenInfo = TokenInfo(serialNumber: string, manufacturerId: string, model: string, title: string)

  /** One provider's answers during one call. */
  datatype View = View(slots: Result<seq<nat>, nat>, tokens: map<nat, Result<TokenInfo, nat>>)

  const SLOT_ID_INVALID := 3

  function InfoAt(v: View, slot: nat): Result<TokenInfo, nat> {
    if slot in v.tokens then v.tokens[slot] else Err(SLOT_ID_INVALID)
  }

  // CryptokiProviderId
  const UNDEFINED := 0
  const SIS_P11 := 1
  const AVEST_KEY := 2
  const AVTOR_STOKEN33X := 3
  const IIT_ALMAZ1C := 4
  const IIT_GRYADA := 5
  const SOFTHSM2 := 6
  const UNKNOWN := 100

  datatype Provider = Provider(id: nat, initialized: bool)

  datatype DetectedStorage = DetectedStorage(provider: nat, storageId: string, slotId: nat, tokenInfo: TokenInfo)

  datatype CacheState = CacheState(providers: seq<Provider>, detected: seq<DetectedStorage>)

  datatype CmError = InvalidParameter | LibraryNotLoaded | StorageNotFound | StorageNotOpen | TokenError(rv: nat)

  datatype OpenMode = ReadOnly | ReadWrite | Create | Other

  /** The slot a call ended up with and what its token reported in that call. */
  datatype Access = Access(provider: nat, slot: nat, info: TokenInfo)

  // ---------- detection ----------

  function IdByModel(info: TokenInfo): (id: nat)
    ensures id <= SOFTHSM2
  {
    if info.manufacturerId == "SPECINFOSYSTEMS LLC" || info.model == "DIAMOND 1000" || info.model == "DIAMOND 2000"
       || info.model == "DIAMOND 3000" || info.model == "DIAMOND 4000" || info.model == "OLYMP HSM"
       || info.model == "OLYMP mini HSM" then SIS_P11
    else if info.manufacturerId == "AvestUA" || info.model == "AvestKey" then AVEST_KEY
    else if info.manufacturerId == "AVTOR LLC" || info.model == "CC-337 RSA DSTU"
            || info.model == "ST-338" then AVTOR_STOKEN33X
    else if info.model == "E.key_Almaz-1C" then IIT_ALMAZ1C
    else if info.model == "NCM_Gryada301" then IIT_GRYADA
    else if info.manufacturerId == "SoftHSM project" || info.model == "SoftHSM v2" then SOFTHSM2
    else UNDEFINED
  }

  function Identify(p: Provider, i: nat, info: TokenInfo): Provider {
    if p.id != UNDEFINED then p
    else
      var id := IdByModel(info);
      p.(id := if id == UNDEFINED then UNKNOWN + i else id)
  }

  predicate Usable(r: Result<TokenInfo, nat>) {
    r.Ok? && r.value.serialNumber != ""
  }

  function ScanSlots(p: Provider, i: nat, v: View, slots: seq<nat>): (r: (Provider, seq<DetectedStorage>))
    decreases |slots|
  {
    if slots == [] then (p, [])
    else
      var answer := InfoAt(v, slots[0]);
      if !Usable(answer) then ScanSlots(p, i, v, slots[1..])
      else
        var (p1, more) := ScanSlots(Identify(p, i, answer.value), i, v, slots[1..]);
        (p1, [DetectedStorage(i, answer.value.serialNumber, slots[0], answer.value)] + more)
  }

  function ScanProvider(p: Provider, i: nat, v: View): (r: (Provider, seq<DetectedStorage>)) {
    if !p.initialized || v.slots.Err? then (p, []) else ScanSlots(p, i, v, v.slots.value)
  }

  function ScanAll(ps: seq<Provider>, vs: seq<View>, n: nat): (r: (seq<Provider>, seq<DetectedStorage>))
    requires n <= |ps| == |vs|
    ensures |r.0| == n
  {
    if n == 0 then ([], [])
    else
      var (done, found) := ScanAll(ps, vs, n - 1);
      var (p, more) := ScanProvider(ps[n - 1], n - 1, vs[n - 1]);
      (done + [p], found + more)
  }

  function Detect(c: CacheState, vs: seq<View>): (r: CacheState)
    requires |vs| == |c.providers|
    ensures |r.providers| == |c.providers|
  {
    var (ps, found) := ScanAll(c.providers, vs, |vs|);
    CacheState(ps, found)
  }

  function Initialized(ps: seq<Provider>): nat {
    if ps == [] then 0 else Initialized(ps[..|ps| - 1]) + if ps[|ps| - 1].initialized then 1 else 0
  }

  // ---------- lookup ----------

  /** The first entry with that identifier, or the length of the list. */
  function FirstWithId(ds: seq<DetectedStorage>, id: string): (k: nat)
    ensures k <= |ds|
    ensures forall j :: 0 <= j < k ==> ds[j].storageId != id
    ensures k < |ds| ==> ds[k].storageId == id
  {
    if ds == [] || ds[0].storageId == id then 0 else FirstWithId(ds[1..], id) + 1
  }

  predicate CacheOk(c: CacheState) {
    && (forall d :: d in c.detected ==> d.provider < |c.providers|)
    && (forall i :: 0 <= i < |c.providers| ==> var id := c.providers[i].id; id <= SOFTHSM2 || id == UNKNOWN + i)
  }

  /** Finds a slot for the token `id`, trusting nothing that was not reported in this call. */
  function Locate(c: CacheState, vs: seq<View>, id: string): (r: (CacheState, Result<Access, CmError>))
    requires CacheOk(c) && |vs| == |c.providers|
  {
    var k := FirstWithId(c.detected, id);
    if k < |c.detected| then
      var d := c.detected[k];
      match InfoAt(vs[d.provider], d.slotId)
      case Err(rv) => (c, Err(TokenError(rv)))
      case Ok(info) =>
        if info.serialNumber != id then (c, Err(StorageNotFound))
        else (c.(detected := c.detected[k := d.(tokenInfo := info)]), Ok(Access(d.provider, d.slotId, info)))
    else
      var c1 := Detect(c, vs);
      var k1 := FirstWithId(c1.detected, id);
      if k1 >= |c1.detected| then (c1, Err(StorageNotFound))
      else (c1, Ok(Access(c1.detected[k1].provider, c1.detected[k1].slotId, c1.detected[k1].tokenInfo)))
  }

  // ---------- the code ----------

  class CmCryptoki {
    var m_CryptokiProviders: seq<Provider>
    var m_DetectedStorages: seq<DetectedStorage>

    function State(): CacheState
      reads this
    {
      CacheState(m_CryptokiProviders, m_DetectedStorages)
    }

    constructor (providers: seq<Provider>)
      ensures State() == CacheState(providers, [])
    {
      m_CryptokiProviders, m_DetectedStorages := providers, [];
    }

    method DetectStorages(vs: seq<View>) returns (count: nat)
      requires |vs| == |m_CryptokiProviders|
      modifies this
      ensures State() == Detect(old(State()), vs)
      ensures count == Initialized(old(m_CryptokiProviders))
    {
      hide ScanSlots;
      ghost var ps := m_CryptokiProviders;
      m_DetectedStorages := [];
      count := 0;
      for i := 0 to |m_CryptokiProviders|
        invariant |m_CryptokiProviders| == |ps|
        invariant m_CryptokiProviders[..i] == ScanAll(ps, vs, i).0 && m_CryptokiProviders[i..] == ps[i..]
        invariant m_DetectedStorages == ScanAll(ps, vs, i).1
        invariant count == Initialized(ps[..i])
      {
        assert m_CryptokiProviders[i] == m_CryptokiProviders[i..][0] == ps[i];
        assert ps[..i + 1][..i] == ps[..i];
        ghost var before := m_CryptokiProviders;
        if m_CryptokiProviders[i].initialized {
          count := count + 1;
          if vs[i].slots.Ok? {
            ScanSlotsOf(i, vs[i], vs[i].slots.value);
          }
        }
        ghost var p := ScanProvider(ps[i], i, vs[i]).0;
        assert m_CryptokiProviders == before[i := p];
        assert m_CryptokiProviders[..i + 1] == before[..i] + [p];
        assert m_CryptokiProviders[i + 1..] == before[i..][1..];
      }
      assert ps[..|ps|] == ps && m_CryptokiProviders[..|ps|] == m_CryptokiProviders;
    }

    /** The inner loop of detection. */
    method ScanSlotsOf(i: nat, v: View, slots: seq<nat>)
      requires i < |m_CryptokiProviders|
      modifies this
      ensures var (p, found) := ScanSlots(old(m_CryptokiProviders[i]), i, v, slots);
        && m_CryptokiProviders == old(m_CryptokiProviders)[i := p]
        && m_DetectedStorages == old(m_DetectedStorages) + found
    {
      ghost var all := ScanSlots(m_CryptokiProviders[i], i, v, slots);
      ghost var before := m_DetectedStorages;
      for j := 0 to |slots|
        invariant |m_CryptokiProviders| == |old(m_CryptokiProviders)|
        invariant m_CryptokiProviders == old(m_CryptokiProviders)[i := m_CryptokiProviders[i]]
        invariant ScanSlots(m_CryptokiProviders[i], i, v, slots[j..]).0 == all.0
        invariant m_DetectedStorages + ScanSlots(m_CryptokiProviders[i], i, v, slots[j..]).1 == before + all.1
      {
        var slot := slots[j];
        var answer := InfoAt(v, slot);
        assert slots[j..][1..] == slots[j + 1..];
        if answer.Err? || answer.value.serialNumber == "" {
          continue;
        }
        var info := answer.value;
        var p := m_CryptokiProviders[i];
        if p.id == UNDEFINED {
          var id := IdByModel(info);
          if id == UNDEFINED {
            id := UNKNOWN + i;
          }
          p := p.(id := id);
        }
        assert p == Identify(m_CryptokiProviders[i], i, info);
        ghost var more := ScanSlots(p, i, v, slots[j + 1..]).1;
        var d := DetectedStorage(i, info.serialNumber, slot, info);
        assert m_DetectedStorages + ([d] + more) == (m_DetectedStorages + [d]) + more;
        m_CryptokiProviders := m_CryptokiProviders[i := p];
        m_DetectedStorages := m_DetectedStorages + [d];
      }
    }

    method FoundStorage(id: string) returns (k: nat)
      ensures k == FirstWithId(m_DetectedStorages, id)
    {
      k := 0;
      while k < |m_DetectedStorages|
        invariant k <= |m_DetectedStorages|
        invariant FirstWithId(m_DetectedStorages, id) == k + FirstWithId(m_DetectedStorages[k..], id)
      {
        if m_DetectedStorages[k].storageId == id {
          return;
        }
        k := k + 1;
      }
    }

    /** The lookup that `storageInfo` and `open` share. */
    method LocateStorage(vs: seq<View>, id: string) returns (r: Result<Access, CmError>)
      requires CacheOk(State()) && |vs| == |m_CryptokiProviders|
      modifies this
      ensures (State(), r) == Locate(old(State()), vs, id)
    {
      var k := FoundStorage(id);
      if k < |m_DetectedStorages| {
        var d := m_DetectedStorages[k];
        var answer := InfoAt(vs[d.provider], d.slotId);
        if answer.Err? {
          return Err(TokenError(answer.error));
        }
        if answer.value.serialNumber != id {
          return Err(StorageNotFound);
        }
        m_DetectedStorages := m_DetectedStorages[k := d.(tokenInfo := answer.value)];
        return Ok(Access(d.provider, d.slotId, answer.value));
      }
      var count := DetectStorages(vs);
      k := FoundStorage(id);
      if k == |m_DetectedStorages| {
        return Err(StorageNotFound);
      }
      var d := m_DetectedStorages[k];
      return Ok(Access(d.provider, d.slotId, d.tokenInfo));
    }

    method StorageInfo(vs: seq<View>, id: string) returns (r: Result<TokenInfo, CmError>)
      requires CacheOk(State()) && |vs| == |m_CryptokiProviders|
      modifies this
      ensures State() == Locate(old(State()), vs, id).0
      ensures r == match Locate(old(State()), vs, id).1 case Ok(a) => Ok(a.info) case Err(e) => Err(e)
    {
      hide Locate;
      var a := LocateStorage(vs, id);
      r := match a case Ok(access) => Ok(access.info) case Err(e) => Err(e);
    }

    /** `opens` tells whether the slot's own session can be opened. */
    method Open(vs: seq<View>, id: string, mode: OpenMode, opens: bool) returns (r: Result<Access, CmError>)
      requires CacheOk(State()) && |vs| == |m_CryptokiProviders|
      modifies this
      ensures State() == if mode.Other? then old(State()) else Locate(old(State()), vs, id).0
      ensures r == if mode.Other? then Err(InvalidParameter)
                   else if Locate(old(State()), vs, id).1.Ok? && !opens then Err(StorageNotOpen)
                   else Locate(old(State()), vs, id).1
    {
      hide Locate;
      if mode.Other? {
        return Err(InvalidParameter);
      }
      r := LocateStorage(vs, id);
      if r.Ok? && !opens {
        return Err(StorageNotOpen);
      }
    }

    method ListStorages(vs: seq<View>, wanted: bool) returns (r: Result<seq<TokenInfo>, CmError>)
      requires |vs| == |m_CryptokiProviders|
      modifies this
      ensures State() == if wanted then Detect(old(State()), vs) else old(State()).(detected := [])
      ensures r == if !wanted then Err(InvalidParameter)
                   else if Initialized(old(m_CryptokiProviders)) == 0 then Err(LibraryNotLoaded)
                   else Ok(Infos(m_DetectedStorages))
    {
      hide Detect, Initialized;
      m_DetectedStorages := [];
      if !wanted {
        return Err(InvalidParameter);
      }
      DetectIgnoresCache(old(State()), State(), vs);
      var count := DetectStorages(vs);
      if count == 0 {
        return Err(LibraryNotLoaded);
      }
      return Ok(Infos(m_DetectedStorages));
    }
  }

  function Infos(ds: seq<DetectedStorage>): seq<TokenInfo> {
    seq(|ds|, i requires 0 <= i < |ds| => ds[i].tokenInfo)
  }

  // ---------- laws ----------

  lemma DetectIgnoresCache(a: CacheState, b: CacheState, vs: seq<View>)
    requires a.providers == b.providers && |vs| == |a.providers|
    ensures Detect(a, vs) == Detect(b, vs)
  {
  }

  /** The j-th slot of provider i holds a token that detection reports as `d`. */
  predicate Reports(ps: seq<Provider>, vs: seq<View>, i: nat, j: nat, d: DetectedStorage)
    requires |ps| == |vs|
  {
    && i < |ps| && ps[i].initialized && vs[i].slots.Ok? && j < |vs[i].slots.value|
    && var slot := vs[i].slots.value[j];
       && Usable(InfoAt(vs[i], slot))
       && d == DetectedStorage(i, InfoAt(vs[i], slot).value.serialNumber, slot, InfoAt(vs[i], slot).value)
  }

  lemma {:induction false} ScanSlotsMembers(p: Provider, i: nat, v: View, slots: seq<nat>, d: DetectedStorage)
    ensures d in ScanSlots(p, i, v, slots).1
      <==> exists j :: 0 <= j < |slots| && Usable(InfoAt(v, slots[j]))
              && d == DetectedStorage(i, InfoAt(v, slots[j]).value.serialNumber, slots[j], InfoAt(v, slots[j]).value)
    decreases |slots|
  {
    if slots != [] {
      var answer := InfoAt(v, slots[0]);
      var rest := slots[1..];
      ScanSlotsMembers(if Usable(answer) then Identify(p, i, answer.value) else p, i, v, rest, d);
      assert forall j :: 0 <= j < |rest| ==> rest[j] == slots[j + 1];
      if j :| 0 <= j < |rest| && Usable(InfoAt(v, rest[j]))
              && d == DetectedStorage(i, InfoAt(v, rest[j]).value.serialNumber, rest[j], InfoAt(v, rest[j]).value) {
        assert slots[j + 1] == rest[j];
      }
    }
  }

  lemma {:induction false} ScanAllMembers(ps: seq<Provider>, vs: seq<View>, n: nat, d: DetectedStorage)
    requires n <= |ps| == |vs|
    ensures d in ScanAll(ps, vs, n).1 <==> exists i, j :: 0 <= i < n && 0 <= j && Reports(ps, vs, i, j, d)
  {
    if n > 0 {
      ScanAllMembers(ps, vs, n - 1, d);
      var m := n - 1;
      var p, v := ps[m], vs[m];
      if p.initialized && v.slots.Ok? {
        var slots := v.slots.value;
        ScanSlotsMembers(p, m, v, slots, d);
        if d in ScanSlots(p, m, v, slots).1 {
          var j :| 0 <= j < |slots| && Usable(InfoAt(v, slots[j]))
              && d == DetectedStorage(m, InfoAt(v, slots[j]).value.serialNumber, slots[j], InfoAt(v, slots[j]).value);
          assert Reports(ps, vs, m, j, d);
        }
        if j :| 0 <= j && Reports(ps, vs, m, j, d) {
          assert d in ScanSlots(p, m, v, slots).1;
        }
      }
    }
  }

  /** Detection lists exactly the readable tokens with a serial number. */
  lemma DetectsExactly(c: CacheState, vs: seq<View>, d: DetectedStorage)
    requires |vs| == |c.providers|
    ensures d in Detect(c, vs).detected <==> exists i, j :: 0 <= i < |vs| && 0 <= j && Reports(c.providers, vs, i, j, d)
  {
    ScanAllMembers(c.providers, vs, |vs|, d);
  }

  lemma {:induction false} ScanSlotsInOrder(p: Provider, i: nat, v: View, a: seq<nat>, b: seq<nat>)
    ensures ScanSlots(p, i, v, a + b).1
         == ScanSlots(p, i, v, a).1 + ScanSlots(ScanSlots(p, i, v, a).0, i, v, b).1
    decreases |a|
  {
    if a == [] {
      assert a + b == b;
    } else {
      assert (a + b)[1..] == a[1..] + b && (a + b)[0] == a[0];
      var answer := InfoAt(v, a[0]);
      ScanSlotsInOrder(if Usable(answer) then Identify(p, i, answer.value) else p, i, v, a[1..], b);
    }
  }

  lemma {:induction false} ScanSlotsOneProvider(p: Provider, i: nat, v: View, slots: seq<nat>)
    ensures forall k :: 0 <= k < |ScanSlots(p, i, v, slots).1| ==> ScanSlots(p, i, v, slots).1[k].provider == i
    decreases |slots|
  {
    if slots != [] {
      var answer := InfoAt(v, slots[0]);
      ScanSlotsOneProvider(if Usable(answer) then Identify(p, i, answer.value) else p, i, v, slots[1..]);
    }
  }

  /** Entries of providers below `n`, in the order of their providers. */
  predicate InProviderOrder(ds: seq<DetectedStorage>, n: nat) {
    && (forall k :: 0 <= k < |ds| ==> ds[k].provider < n)
    && (forall k, l :: 0 <= k < l < |ds| ==> ds[k].provider <= ds[l].provider)
  }

  lemma NextProviderInOrder(found: seq<DetectedStorage>, more: seq<DetectedStorage>, m: nat)
    requires InProviderOrder(found, m) && forall k :: 0 <= k < |more| ==> more[k].provider == m
    ensures InProviderOrder(found + more, m + 1)
  {
  }

  lemma {:induction false} DetectsInProviderOrder(ps: seq<Provider>, vs: seq<View>, n: nat)
    requires n <= |ps| == |vs|
    ensures InProviderOrder(ScanAll(ps, vs, n).1, n)
  {
    if n > 0 {
      var m := n - 1;
      DetectsInProviderOrder(ps, vs, m);
      if ps[m].initialized && vs[m].slots.Ok? {
        ScanSlotsOneProvider(ps[m], m, vs[m], vs[m].slots.value);
      }
      NextProviderInOrder(ScanAll(ps, vs, m).1, ScanProvider(ps[m], m, vs[m]).1, m);
    }
  }

  /** Whatever a call uses reported the requested serial number during that very call. */
  lemma LocateIsSound(c: CacheState, vs: seq<View>, id: string)
    requires CacheOk(c) && |vs| == |c.providers|
    ensures var r := Locate(c, vs, id).1;
      r.Ok? ==> && r.value.provider < |vs|
                && InfoAt(vs[r.value.provider], r.value.slot) == Ok(r.value.info)
                && r.value.info.serialNumber == id
  {
    if FirstWithId(c.detected, id) == |c.detected| {
      var ds := Detect(c, vs).detected;
      var k := FirstWithId(ds, id);
      if k < |ds| {
        DetectsExactly(c, vs, ds[k]);
      }
    }
  }

  /** A token with that serial number sits in some slot that detection reaches. */
  ghost predicate Present(c: CacheState, vs: seq<View>, id: string)
    requires |vs| == |c.providers|
  {
    exists i, j :: 0 <= i < |vs| && 0 <= j && SlotHolds(c, vs, i, j, id)
  }

  predicate SlotHolds(c: CacheState, vs: seq<View>, i: nat, j: nat, id: string)
    requires |vs| == |c.providers| && i < |vs|
  {
    && c.providers[i].initialized && vs[i].slots.Ok? && j < |vs[i].slots.value|
    && Usable(InfoAt(vs[i], vs[i].slots.value[j]))
    && InfoAt(vs[i], vs[i].slots.value[j]).value.serialNumber == id
  }

  /** A remembered token is found exactly if it still reports from its remembered slot;
      a token that is not remembered, exactly if it is present. */
  lemma LocateSucceedsIff(c: CacheState, vs: seq<View>, id: string)
    requires CacheOk(c) && |vs| == |c.providers|
    ensures var k := FirstWithId(c.detected, id);
      Locate(c, vs, id).1.Ok? <==>
        if k < |c.detected| then
          var answer := InfoAt(vs[c.detected[k].provider], c.detected[k].slotId);
          answer.Ok? && answer.value.serialNumber == id
        else Present(c, vs, id)
  {
    var k := FirstWithId(c.detected, id);
    if k == |c.detected| {
      var ds := Detect(c, vs).detected;
      var k1 := FirstWithId(ds, id);
      if k1 < |ds| {
        DetectsExactly(c, vs, ds[k1]);
        var i, j :| 0 <= i < |vs| && 0 <= j && Reports(c.providers, vs, i, j, ds[k1]);
        assert SlotHolds(c, vs, i, j, id);
      }
      if Present(c, vs, id) {
        var i, j :| 0 <= i < |vs| && 0 <= j && SlotHolds(c, vs, i, j, id);
        var slot := vs[i].slots.value[j];
        var d := DetectedStorage(i, id, slot, InfoAt(vs[i], slot).value);
        DetectsExactly(c, vs, d);
        assert Reports(c.providers, vs, i, j, d);
      }
    }
  }

  /** A present token can be missed: it is remembered in the slot it has left.  Listing again finds it. */
  lemma MovedTokenIsMissed()
    ensures exists c, vs, id ::
              && CacheOk(c) && |vs| == |c.providers| && Present(c, vs, id)
              && Locate(c, vs, id).1.Err?
              && CacheOk(Detect(c, vs)) && Locate(Detect(c, vs), vs, id).1.Ok?
  {
    var info := TokenInfo("42", "", "", "");
    var p := Provider(UNKNOWN, true);
    var c := CacheState([p], [DetectedStorage(0, "42", 1, info)]);
    var v := View(Ok([2]), map[2 := Ok(info)]);
    var vs := [v];
    assert SlotHolds(c, vs, 0, 0, "42");
    assert c.detected[0].storageId == "42" && SLOT_ID_INVALID != 0;
    assert InfoAt(v, 1).Err?;
    DetectKeepsCacheOk(c, vs);
    var d := DetectedStorage(0, "42", 2, info);
    assert [2 as nat][1..] == [];
    assert ScanSlots(p, 0, v, [2]).1 == [d] + ScanSlots(p, 0, v, []).1;
    assert ScanAll(c.providers, vs, 1).1 == ScanAll(c.providers, vs, 0).1 + ScanProvider(p, 0, v).1;
    assert Detect(c, vs).detected == [d];
    assert FirstWithId([d], "42") == 0;
    assert InfoAt(vs[0], 2) == Ok(info);
    assert Present(c, vs, "42");
    assert FirstWithId(c.detected, "42") == 0;
    assert Locate(c, vs, "42").1.Err?;
    assert Locate(Detect(c, vs), vs, "42").1.Ok?;
  }

  lemma {:induction false} ScanSlotsKeepsId(p: Provider, i: nat, v: View, slots: seq<nat>)
    ensures var p1 := ScanSlots(p, i, v, slots).0;
      && p1.initialized == p.initialized
      && (p.id != UNDEFINED ==> p1 == p)
      && (p.id == UNDEFINED ==> p1.id <= SOFTHSM2 || p1.id == UNKNOWN + i)
    decreases |slots|
  {
    if slots != [] {
      var answer := InfoAt(v, slots[0]);
      ScanSlotsKeepsId(if Usable(answer) then Identify(p, i, answer.value) else p, i, v, slots[1..]);
    }
  }

  lemma {:induction false} ScanAllKeepsIds(ps: seq<Provider>, vs: seq<View>, n: nat)
    requires n <= |ps| == |vs|
    ensures forall i :: 0 <= i < n ==> var p1 := ScanAll(ps, vs, n).0[i];
              && p1.initialized == ps[i].initialized
              && (ps[i].id != UNDEFINED ==> p1.id == ps[i].id)
              && (ps[i].id == UNDEFINED ==> p1.id <= SOFTHSM2 || p1.id == UNKNOWN + i)
  {
    if n > 0 {
      ScanAllKeepsIds(ps, vs, n - 1);
      if ps[n - 1].initialized && vs[n - 1].slots.Ok? {
        ScanSlotsKeepsId(ps[n - 1], n - 1, vs[n - 1], vs[n - 1].slots.value);
      }
    }
  }

  /** Ids once set stay. */
  predicate IdsKept(a: CacheState, b: CacheState) {
    && |b.providers| == |a.providers|
    && forall i :: 0 <= i < |a.providers| && a.providers[i].id != UNDEFINED ==> b.providers[i].id == a.providers[i].id
  }

  lemma DetectKeepsCacheOk(c: CacheState, vs: seq<View>)
    requires CacheOk(c) && |vs| == |c.providers|
    ensures CacheOk(Detect(c, vs)) && IdsKept(c, Detect(c, vs))
  {
    ScanAllKeepsIds(c.providers, vs, |vs|);
    DetectsInProviderOrder(c.providers, vs, |vs|);
    var ds := Detect(c, vs).detected;
    forall d | d in ds ensures d.provider < |c.providers| {
      var k :| 0 <= k < |ds| && ds[k] == d;
    }
  }

  lemma LocateKeepsCacheOk(c: CacheState, vs: seq<View>, id: string)
    requires CacheOk(c) && |vs| == |c.providers|
    ensures CacheOk(Locate(c, vs, id).0) && IdsKept(c, Locate(c, vs, id).0)
  {
    DetectKeepsCacheOk(c, vs);
    var k := FirstWithId(c.detected, id);
    if k < |c.detected| {
      var d := c.detected[k];
      assert d in c.detected;
    }
  }

  datatype Op =
    | List(listViews: seq<View>, wanted: bool)
    | Look(views: seq<View>, id: string)

  predicate Fits(n: nat, op: Op) {
    |if op.List? then op.listViews else op.views| == n
  }

  function Apply(c: CacheState, op: Op): CacheState
    requires CacheOk(c) && Fits(|c.providers|, op)
  {
    match op
    case List(vs, wanted) => if wanted then Detect(c, vs) else c.(detected := [])
    case Look(vs, id) => Locate(c, vs, id).0
  }

  lemma StepKeeps(c: CacheState, op: Op)
    requires CacheOk(c) && Fits(|c.providers|, op)
    ensures CacheOk(Apply(c, op)) && IdsKept(c, Apply(c, op))
  {
    match op
    case List(vs, wanted) => DetectKeepsCacheOk(c, vs);
    case Look(vs, id) => LocateKeepsCacheOk(c, vs, id);
  }

  ghost predicate Reaches(c: CacheState, ops: seq<Op>, last: CacheState)
    decreases |ops|
  {
    if ops == [] then last == c
    else CacheOk(c) && Fits(|c.providers|, ops[0]) && Reaches(Apply(c, ops[0]), ops[1..], last)
  }

  /** Over every run: the cache stays well formed, a provider's id never changes once set,
      and providers of unknown make have ids of their own. */
  lemma {:induction false} EveryRunKeepsIds(c: CacheState, ops: seq<Op>, last: CacheState)
    requires CacheOk(c) && Reaches(c, ops, last)
    ensures CacheOk(last) && IdsKept(c, last)
    ensures forall i, j :: 0 <= i < j < |last.providers| && last.providers[i].id >= UNKNOWN ==>
              last.providers[i].id != last.providers[j].id
    decreases |ops|
  {
    if ops != [] {
      StepKeeps(c, ops[0]);
      EveryRunKeepsIds(Apply(c, ops[0]), ops[1..], last);
    }
  }

  // ---------- what is listed, and by whom it was made ----------

  /** Every token listed is one some slot of an initialised provider reports, and all of these are listed. */
  lemma ListedIff(c: CacheState, vs: seq<View>, info: TokenInfo)
    requires |vs| == |c.providers|
    ensures info in Infos(Detect(c, vs).detected)
      <==> exists i, j, d :: 0 <= i < |vs| && 0 <= j && Reports(c.providers, vs, i, j, d) && d.tokenInfo == info
  {
    var ds := Detect(c, vs).detected;
    if info in Infos(ds) {
      var k :| 0 <= k < |ds| && Infos(ds)[k] == info;
      DetectsExactly(c, vs, ds[k]);
    }
    if i, j, d :| 0 <= i < |vs| && 0 <= j && Reports(c.providers, vs, i, j, d) && d.tokenInfo == info {
      DetectsExactly(c, vs, d);
      var k :| 0 <= k < |ds| && ds[k] == d;
      assert Infos(ds)[k] == info;
    }
  }

  /** They are listed in the order of detection. */
  lemma InfosInOrder(ds: seq<DetectedStorage>, more: seq<DetectedStorage>)
    ensures Infos(ds + more) == Infos(ds) + Infos(more)
  {
  }

  /** No library is loaded exactly if no provider is initialised; otherwise they are counted. */
  lemma {:induction false} InitializedIff(ps: seq<Provider>)
    ensures Initialized(ps) == 0 <==> forall i :: 0 <= i < |ps| ==> !ps[i].initialized
    ensures Initialized(ps) <= |ps|
    ensures Initialized(ps) == |ps| <==> forall i :: 0 <= i < |ps| ==> ps[i].initialized
  {
    if ps != [] { InitializedIff(ps[..|ps| - 1]); }
  }

  /** The makers and models of each kind of provider. */
  function Makers(id: nat): set<string> {
    if id == 1 then {"SPECINFOSYSTEMS LLC"} else if id == 2 then {"AvestUA"} else if id == 3 then {"AVTOR LLC"}
    else if id == 6 then {"SoftHSM project"} else {}
  }

  function Models(id: nat): set<string> {
    if id == 1 then {"DIAMOND 1000", "DIAMOND 2000", "DIAMOND 3000", "DIAMOND 4000", "OLYMP HSM", "OLYMP mini HSM"}
    else if id == 2 then {"AvestKey"} else if id == 3 then {"CC-337 RSA DSTU", "ST-338"}
    else if id == 4 then {"E.key_Almaz-1C"} else if id == 5 then {"NCM_Gryada301"}
    else if id == 6 then {"SoftHSM v2"} else {}
  }

  predicate IsKind(info: TokenInfo, id: nat) { info.manufacturerId in Makers(id) || info.model in Models(id) }

  /** A token is of the first kind its maker or model belongs to, and of none if they belong to none. */
  lemma KindIff(info: TokenInfo)
    ensures var id := IdByModel(info);
      && id <= 6 && (id != 0 ==> IsKind(info, id))
      && (id == 0 ==> forall k :: 1 <= k <= 6 ==> !IsKind(info, k))
      && (forall k :: 1 <= k < id ==> !IsKind(info, k))
  {
  }

  /** A provider takes its kind from the first token with a serial number, or a number of its own behind 100. */
  lemma ProviderKind(p: Provider, i: nat, info: TokenInfo)
    requires p.id == 0
    ensures Identify(p, i, info).id == if IdByModel(info) != 0 then IdByModel(info) else 100 + i
    ensures Identify(p, i, info).initialized == p.initialized
  {
  }

  // ---------- what a lookup leaves and tells ----------

  predicate Remembers(d: DetectedStorage, id: string, a: Access) {
    d.storageId == id && d.provider == a.provider && d.slotId == a.slot && d.tokenInfo == a.info
  }

  /** A token that does not answer, or another token. */
  function WhyNot(answer: Result<TokenInfo, nat>): CmError {
    match answer case Err(rv) => TokenError(rv) case Ok(_) => StorageNotFound
  }

  /** What was found is remembered as the token reported it in this call; a remembered token that fails tells why. */
  lemma LocateResult(c: CacheState, vs: seq<View>, id: string)
    requires CacheOk(c) && |vs| == |c.providers|
    ensures var (c1, r) := Locate(c, vs, id);
      var k := FirstWithId(c.detected, id);
      && (r.Ok? ==> exists j :: 0 <= j < |c1.detected| && Remembers(c1.detected[j], id, r.value))
      && (k == |c.detected| ==> c1 == Detect(c, vs) && (r.Err? ==> r.error == StorageNotFound))
      && (k < |c.detected| ==> c1.providers == c.providers && |c1.detected| == |c.detected|)
      && (k < |c.detected| && r.Err? ==>
            c1 == c && r.error == WhyNot(InfoAt(vs[c.detected[k].provider], c.detected[k].slotId)))
      && (forall j :: 0 <= j < |c1.detected| && k < |c.detected| && j != k ==> c1.detected[j] == c.detected[j])
  {
    hide Detect, InfoAt;
    var (c1, r) := Locate(c, vs, id);
    if r.Ok? {
      var j := FirstWithId(if FirstWithId(c.detected, id) < |c.detected| then c.detected else c1.detected, id);
      assert Remembers(c1.detected[j], id, r.value);
    }
  }

  /** A token that is not there answers with CKR_SLOT_ID_INVALID, 3. */
  lemma AbsentSlot(v: View, slot: nat)
    requires slot !in v.tokens
    ensures InfoAt(v, slot) == Err(3)
  {
  }
}
