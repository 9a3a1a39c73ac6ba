/** The bag list of a PKCS#12 file (file-storage.cpp) and how key ids match bags (store-bag.cpp). */
module Pkcs12Store {
  import opened Prelude
  import opened Pkcs12Keys

  /** How reading a key file ended, and the bags it added, which stay even when it failed. */
  datatype Decoded = Decoded(ret: Ret, bags: seq<BagData>, readOnly: bool)

  datatype BagData = BagData(kind: BagType, value: bytes)

  // ---------- key ids of certificates ----------

  /** The id add_certificate looks for before it adds (keyid_by_cert). */
  function CertKeyId(lib: Library, cert: bytes): Option<bytes> {
    match lib.certKey(cert)
    case None => None
    case Some(key) =>
      lib.hash(OwnHash(key.algo), key.publicKey)
  }

  /** The ids a stored certificate answers to (certContainKeyId). */
  predicate CertContainKeyId(lib: Library, cert: bytes, id: bytes) {
    match lib.certKey(cert)
    case None => false
    case Some(key) =>
      if OidIsParent(OID_DSTU4145_WITH_GOST3411, key.algo) then
        lib.hash(Gost34311, key.publicKey).Some?
        && (lib.hash(Gost34311, key.publicKey) == Some(id) || lib.hash(Dstu7564, key.publicKey) == Some(id))
      else lib.hash(Sha1, key.publicKey) == Some(id)
  }

  /** The two functions agree on a certificate unless its key is a DSTU 4145 key hashed with DSTU 7564. */
  lemma AgreesIff(lib: Library, cert: bytes)
    requires CertKeyId(lib, cert).Some?
    ensures CertContainKeyId(lib, cert, CertKeyId(lib, cert).value)
       <==> (var key := lib.certKey(cert).value;
             OidIsParent(OID_DSTU4145_WITH_DSTU7564, key.algo)
             ==> lib.hash(Sha1, key.publicKey) == lib.hash(Gost34311, key.publicKey))
  {
    ParentsAreDisjoint(lib.certKey(cert).value.algo);
  }

  // ---------- bags ----------

  datatype BagType = KEY | CERT | DATA

  /** A bag and where it lives: pointers to bags are compared, never their contents. */
  datatype Bag = Bag(address: nat, kind: BagType, keyId: bytes, keyId2: bytes, value: bytes)

  predicate EqualKeyId(bag: Bag, id: bytes) {
    (|bag.keyId2| > 0 && bag.keyId2 == id) || bag.keyId == id
  }

  predicate DistinctAddresses(bags: seq<Bag>) {
    forall i, j :: 0 <= i < j < |bags| ==> bags[i].address != bags[j].address
  }

  function OfKind(bags: seq<Bag>, kind: BagType): seq<Bag> {
    if bags == [] then []
    else (if bags[0].kind == kind then [bags[0]] else []) + OfKind(bags[1..], kind)
  }

  /** The other bags, in order. */
  function Without(bags: seq<Bag>, gone: set<nat>): seq<Bag> {
    if bags == [] then []
    else (if bags[0].address in gone then [] else [bags[0]]) + Without(bags[1..], gone)
  }

  function FirstEqual(keys: seq<Bag>, id: bytes): Option<Bag> {
    if keys == [] then None
    else if EqualKeyId(keys[0], id) then Some(keys[0])
    else FirstEqual(keys[1..], id)
  }

  function FirstKey(bags: seq<Bag>, id: bytes): Option<Bag> { FirstEqual(OfKind(bags, KEY), id) }

  function Matching(lib: Library, certs: seq<Bag>, id: bytes): set<nat> {
    set b | b in certs && CertContainKeyId(lib, b.value, id) :: b.address
  }

  /** Addresses of the certificates that answer to `id`. */
  function RelatedCerts(lib: Library, bags: seq<Bag>, id: bytes): set<nat> {
    Matching(lib, OfKind(bags, CERT), id)
  }

  /** Some stored certificate already answers to the id. */
  predicate HasCert(lib: Library, bags: seq<Bag>, id: bytes) {
    exists b :: b in bags && b.kind == CERT && CertContainKeyId(lib, b.value, id)
  }

  lemma {:induction false} OfKindMembers(bags: seq<Bag>, kind: BagType, b: Bag)
    ensures b in OfKind(bags, kind) <==> b in bags && b.kind == kind
  {
    if bags != [] { OfKindMembers(bags[1..], kind, b); }
  }

  lemma {:induction false} WithoutMembers(bags: seq<Bag>, gone: set<nat>, b: Bag)
    ensures b in Without(bags, gone) <==> b in bags && b.address !in gone
  {
    if bags != [] { WithoutMembers(bags[1..], gone, b); }
  }

  lemma {:induction false} WithoutNone(bags: seq<Bag>)
    ensures Without(bags, {}) == bags
  {
    if bags != [] { WithoutNone(bags[1..]); }
  }

  lemma {:induction false} WithoutTwice(bags: seq<Bag>, a: set<nat>, b: set<nat>)
    ensures Without(Without(bags, a), b) == Without(bags, a + b)
  {
    if bags != [] {
      WithoutTwice(bags[1..], a, b);
      var rest := Without(bags[1..], a);
      if bags[0].address !in a {
        assert ([bags[0]] + rest)[1..] == rest;
      } else {
        assert [] + rest == rest;
      }
    }
  }

  lemma {:induction false} WithoutAbsent(bags: seq<Bag>, address: nat)
    requires forall b :: b in bags ==> b.address != address
    ensures Without(bags, {address}) == bags
  {
    if bags != [] { WithoutAbsent(bags[1..], address); }
  }

  /** Erasing the bag a pointer leads to takes exactly that one away. */
  lemma {:induction false} WithoutOne(bags: seq<Bag>, i: nat)
    requires DistinctAddresses(bags) && i < |bags|
    ensures Without(bags, {bags[i].address}) == bags[..i] + bags[i + 1..]
  {
    if i == 0 {
      WithoutAbsent(bags[1..], bags[0].address);
    } else {
      WithoutOne(bags[1..], i - 1);
      Around(bags, i);
    }
  }

  lemma Around(bags: seq<Bag>, i: nat)
    requires 0 < i < |bags|
    ensures bags[..i] + bags[i + 1..] == [bags[0]] + (bags[1..][..i - 1] + bags[1..][i..])
  {
  }

  lemma {:induction false} WithoutKeepsDistinct(bags: seq<Bag>, gone: set<nat>)
    requires DistinctAddresses(bags)
    ensures DistinctAddresses(Without(bags, gone))
  {
    if bags != [] {
      WithoutKeepsDistinct(bags[1..], gone);
      forall b | b in Without(bags[1..], gone) ensures b.address != bags[0].address {
        WithoutMembers(bags[1..], gone, b);
      }
    }
  }

  lemma SameAddress(bags: seq<Bag>, a: Bag, b: Bag)
    requires DistinctAddresses(bags) && a in bags && b in bags && a.address == b.address
    ensures a == b
  {
    var i :| 0 <= i < |bags| && bags[i] == a;
    var j :| 0 <= j < |bags| && bags[j] == b;
    assert !(i < j) && !(j < i);
  }

  lemma RelatedMember(lib: Library, bags: seq<Bag>, id: bytes, b: Bag)
    requires DistinctAddresses(bags) && b in bags
    ensures b.address in RelatedCerts(lib, bags, id) <==> b.kind == CERT && CertContainKeyId(lib, b.value, id)
  {
    OfKindMembers(bags, CERT, b);
    if b.address in RelatedCerts(lib, bags, id) {
      var c :| c in OfKind(bags, CERT) && CertContainKeyId(lib, c.value, id) && c.address == b.address;
      OfKindMembers(bags, CERT, c);
      SameAddress(bags, b, c);
    }
  }

  predicate Before(bags: seq<Bag>, a: Bag, b: Bag) {
    exists i, j :: 0 <= i < j < |bags| && bags[i] == a && bags[j] == b
  }

  lemma BeforeFirst(bags: seq<Bag>, a: Bag, b: Bag)
    requires bags != []
    ensures Before(bags, a, b) <==> (bags[0] == a && b in bags[1..]) || Before(bags[1..], a, b)
  {
    var rest := bags[1..];
    if bags[0] == a && b in rest {
      var j :| 0 <= j < |rest| && rest[j] == b;
      assert bags[j + 1] == b;
    }
    if Before(rest, a, b) {
      var i, j :| 0 <= i < j < |rest| && rest[i] == a && rest[j] == b;
      assert bags[i + 1] == a && bags[j + 1] == b;
    }
    if Before(bags, a, b) {
      var i, j :| 0 <= i < j < |bags| && bags[i] == a && bags[j] == b;
      assert rest[j - 1] == b;
      if i > 0 { assert rest[i - 1] == a; }
    }
  }

  /** What is kept stays in order. */
  lemma {:induction false} WithoutKeepsOrder(bags: seq<Bag>, gone: set<nat>, a: Bag, b: Bag)
    requires a.address !in gone && b.address !in gone
    ensures Before(Without(bags, gone), a, b) <==> Before(bags, a, b)
  {
    if bags != [] {
      hide Before;
      WithoutKeepsOrder(bags[1..], gone, a, b);
      BeforeFirst(bags, a, b);
      if bags[0].address !in gone {
        BeforeFirst(Without(bags, gone), a, b);
        assert Without(bags, gone)[1..] == Without(bags[1..], gone);
        WithoutMembers(bags[1..], gone, b);
      } else {
        assert Without(bags, gone) == Without(bags[1..], gone);
      }
    } else {
      assert !Before([], a, b);
    }
  }

  /** The first key with an id: nothing before it is such a key. */
  lemma {:induction false} FirstKeyIsFirst(bags: seq<Bag>, id: bytes, i: nat)
    requires i < |bags|
    requires forall j :: 0 <= j < i ==> !(bags[j].kind == KEY && EqualKeyId(bags[j], id))
    requires bags[i].kind == KEY && EqualKeyId(bags[i], id)
    ensures FirstKey(bags, id) == Some(bags[i])
  {
    if i == 0 {
      assert OfKind(bags, KEY)[0] == bags[0];
    } else {
      FirstKeyIsFirst(bags[1..], id, i - 1);
      var rest := OfKind(bags[1..], KEY);
      assert !(bags[0].kind == KEY && EqualKeyId(bags[0], id));
      assert bags[0].kind == KEY ==> OfKind(bags, KEY)[1..] == rest;
      assert bags[0].kind != KEY ==> OfKind(bags, KEY) == rest;
    }
  }

  lemma {:induction false} FirstEqualMembers(keys: seq<Bag>, id: bytes)
    ensures FirstEqual(keys, id).Some?
        ==> FirstEqual(keys, id).value in keys && EqualKeyId(FirstEqual(keys, id).value, id)
    ensures FirstEqual(keys, id).None? ==> forall b :: b in keys ==> !EqualKeyId(b, id)
  {
    if keys != [] { FirstEqualMembers(keys[1..], id); }
  }

  /** Some key has the id exactly when one is found, and the one found is a stored key with it. */
  lemma FirstKeyFinds(bags: seq<Bag>, id: bytes)
    ensures FirstKey(bags, id).None? <==> forall b :: b in bags && b.kind == KEY ==> !EqualKeyId(b, id)
    ensures FirstKey(bags, id).Some? ==>
      var b := FirstKey(bags, id).value; b in bags && b.kind == KEY && EqualKeyId(b, id)
  {
    FirstEqualMembers(OfKind(bags, KEY), id);
    forall b ensures b in OfKind(bags, KEY) <==> b in bags && b.kind == KEY {
      OfKindMembers(bags, KEY, b);
    }
  }

  lemma HasCertListed(lib: Library, bags: seq<Bag>, id: bytes)
    ensures HasCert(lib, bags, id) <==> exists b :: b in OfKind(bags, CERT) && CertContainKeyId(lib, b.value, id)
  {
    forall b ensures b in OfKind(bags, CERT) <==> b in bags && b.kind == CERT {
      OfKindMembers(bags, CERT, b);
    }
  }

  lemma RelatedIffHas(lib: Library, bags: seq<Bag>, id: bytes)
    ensures RelatedCerts(lib, bags, id) != {} <==> HasCert(lib, bags, id)
  {
    HasCertListed(lib, bags, id);
    if b :| b in OfKind(bags, CERT) && CertContainKeyId(lib, b.value, id) {
      assert b.address in RelatedCerts(lib, bags, id);
    }
  }

  // ---------- the store ----------

  /** The fields of a store as a value. `nextAddress` is above every address in use. */
  datatype Storage = Storage(isCreate: bool, isOpen: bool, readOnly: bool, bags: seq<Bag>,
                             selected: Option<Bag>, nextAddress: nat)

  /** setData for a key: one that is not recognised becomes a data bag. DSTU keys get a second id. */
  function KeyBag(lib: Library, address: nat, value: bytes): (bag: Bag)
    ensures bag.address == address && bag.value == value && bag.kind == if Recognised(lib, value) then KEY else DATA
  {
    if !Recognised(lib, value) then Bag(address, DATA, [], [], value)
    else
      var algo := lib.decodeKey(value).value.algo;
      var second := if IsDstu(algo) then KeyIdBy(lib, Dstu7564, value) else None;
      Bag(address, KEY, KeyIdBy(lib, OwnHash(algo), value).value, if second.Some? then second.value else [], value)
  }

  function BagAt(lib: Library, address: nat, d: BagData): Bag {
    if d.kind == KEY then KeyBag(lib, address, d.value) else Bag(address, d.kind, [], [], d.value)
  }

  /** The bags as they are allocated one after another. */
  function Allocated(lib: Library, address: nat, ds: seq<BagData>): (bags: seq<Bag>)
    ensures |bags| == |ds|
    ensures forall i :: 0 <= i < |ds| ==> bags[i] == BagAt(lib, address + i, ds[i])
  {
    seq(|ds|, i requires 0 <= i < |ds| => BagAt(lib, address + i, ds[i]))
  }

  function Appended(s: Storage, bag: Bag): Storage {
    s.(bags := s.bags + [bag], nextAddress := s.nextAddress + 1)
  }

  predicate Sound(s: Storage) {
    DistinctAddresses(s.bags) && forall b :: b in s.bags ==> b.address < s.nextAddress
  }

  class FileStorage {
    var m_IsCreate: bool
    var m_IsOpen: bool
    var m_ReadOnly: bool
    var m_SafeBags: seq<Bag>
    var m_SelectedKey: Option<Bag>
    var m_NextAddress: nat

    function Fields(): Storage
      reads this
    {
      Storage(m_IsCreate, m_IsOpen, m_ReadOnly, m_SafeBags, m_SelectedKey, m_NextAddress)
    }

    constructor (isCreate: bool, readOnly: bool)
      ensures Fields() == Storage(isCreate, false, readOnly, [], None, 0)
    {
      m_IsCreate, m_IsOpen, m_ReadOnly := isCreate, false, readOnly;
      m_SafeBags, m_SelectedKey, m_NextAddress := [], None, 0;
    }

    method AddBag(bag: Bag)
      requires bag.address == m_NextAddress
      modifies this
      ensures Fields() == Appended(old(Fields()), bag)
    {
      m_SafeBags, m_NextAddress := m_SafeBags + [bag], m_NextAddress + 1;
    }

    method DeleteBag(bag: Bag)
      requires DistinctAddresses(m_SafeBags)
      modifies this
      ensures Fields() == old(Fields()).(bags := Without(old(m_SafeBags), {bag.address}))
    {
      hide Without;
      var i := 0;
      while i < |m_SafeBags|
        invariant 0 <= i <= |m_SafeBags|
        invariant Fields() == old(Fields())
        invariant forall j :: 0 <= j < i ==> m_SafeBags[j].address != bag.address
      {
        if m_SafeBags[i].address == bag.address {
          WithoutOne(m_SafeBags, i);
          m_SafeBags := m_SafeBags[..i] + m_SafeBags[i + 1..];
          return;
        }
        i := i + 1;
      }
      WithoutAbsent(m_SafeBags, bag.address);
    }

    method ListBags(kind: BagType) returns (list: seq<Bag>)
      ensures list == OfKind(m_SafeBags, kind)
    {
      list := [];
      assert m_SafeBags[0..] == m_SafeBags;
      for i := 0 to |m_SafeBags|
        invariant list + OfKind(m_SafeBags[i..], kind) == OfKind(m_SafeBags, kind)
      {
        assert m_SafeBags[i..][1..] == m_SafeBags[i + 1..];
        if m_SafeBags[i].kind == kind {
          list := list + [m_SafeBags[i]];
        }
      }
    }

    method SelectKey(key: Option<Bag>)
      modifies this
      ensures Fields() == old(Fields()).(selected := key)
    {
      m_SelectedKey := key;
    }

    method Decode(lib: Library, decoded: Decoded) returns (ret: Ret)
      modifies this
      ensures ret == decoded.ret
      ensures Fields() == old(Fields()).(bags := old(m_SafeBags) + Allocated(lib, old(m_NextAddress), decoded.bags),
        nextAddress := old(m_NextAddress) + |decoded.bags|,
        isOpen := old(m_IsOpen) || ret == RetOk,
        readOnly := old(m_ReadOnly) || (ret == RetOk && decoded.readOnly))
    {
      ret := decoded.ret;
      hide KeyBag;
      ghost var all := Allocated(lib, m_NextAddress, decoded.bags);
      for i := 0 to |decoded.bags|
        invariant Fields() == old(Fields()).(bags := old(m_SafeBags) + all[..i], nextAddress := old(m_NextAddress) + i)
      {
        assert all[..i + 1] == all[..i] + [all[i]];
        AddBag(BagAt(lib, m_NextAddress, decoded.bags[i]));
      }
      assert all[..|decoded.bags|] == all;
      if ret == RetOk {
        m_ReadOnly := m_ReadOnly || decoded.readOnly;
        SetOpen();
      }
    }

    method SetOpen()
      modifies this
      ensures Fields() == old(Fields()).(isOpen := true)
    {
      m_IsOpen := true;
    }

    /** The search select_key and delete_key share. */
    method FindKey(id: bytes) returns (key: Option<Bag>)
      ensures key == FirstKey(m_SafeBags, id)
    {
      var keys := ListBags(KEY);
      assert keys[0..] == keys;
      for i := 0 to |keys|
        invariant FirstEqual(keys[i..], id) == FirstEqual(keys, id)
      {
        if EqualKeyId(keys[i], id) {
          return Some(keys[i]);
        }
        assert keys[i..] != [] && keys[i..][1..] == keys[i + 1..];
      }
      return None;
    }

    method FindCert(lib: Library, id: bytes) returns (found: bool)
      ensures found <==> HasCert(lib, m_SafeBags, id)
    {
      hide CertContainKeyId, OfKind;
      var certs := ListBags(CERT);
      HasCertListed(lib, m_SafeBags, id);
      for i := 0 to |certs|
        invariant forall j :: 0 <= j < i ==> !CertContainKeyId(lib, certs[j].value, id)
      {
        if CertContainKeyId(lib, certs[i].value, id) {
          return true;
        }
      }
      return false;
    }

    /** The loop delete_key and delete_certificate share. */
    method DeleteCerts(lib: Library, id: bytes) returns (found: bool)
      requires DistinctAddresses(m_SafeBags)
      modifies this
      ensures Fields() == old(Fields()).(bags := Without(old(m_SafeBags), RelatedCerts(lib, old(m_SafeBags), id)))
      ensures found <==> RelatedCerts(lib, old(m_SafeBags), id) != {}
    {
      assert Matching(lib, [], id) == {};
      hide CertContainKeyId, Matching, Without, OfKind, DistinctAddresses;
      found := false;
      var certs := ListBags(CERT);
      ghost var before := m_SafeBags;
      WithoutNone(before);
      assert certs[..0] == [];
      for i := 0 to |certs|
        invariant m_SafeBags == Without(before, Matching(lib, certs[..i], id))
        invariant Fields() == old(Fields()).(bags := m_SafeBags)
        invariant found <==> Matching(lib, certs[..i], id) != {}
      {
        DeleteStep(lib, before, certs, i, id);
        if CertContainKeyId(lib, certs[i].value, id) {
          DeleteBag(certs[i]);
          found := true;
        }
      }
      assert certs[..|certs|] == certs;
    }
  }

  lemma DeleteStep(lib: Library, bags: seq<Bag>, certs: seq<Bag>, i: nat, id: bytes)
    requires i < |certs| && DistinctAddresses(bags)
    ensures var done := Without(bags, Matching(lib, certs[..i], id));
      && DistinctAddresses(done)
      && Without(bags, Matching(lib, certs[..i + 1], id))
           == if CertContainKeyId(lib, certs[i].value, id) then Without(done, {certs[i].address}) else done
    ensures Matching(lib, certs[..i + 1], id) != {}
       <==> Matching(lib, certs[..i], id) != {} || CertContainKeyId(lib, certs[i].value, id)
  {
    hide CertContainKeyId, Matching, Without, DistinctAddresses;
    MatchingStep(lib, certs, i, id);
    WithoutKeepsDistinct(bags, Matching(lib, certs[..i], id));
    WithoutTwice(bags, Matching(lib, certs[..i], id), {certs[i].address});
  }

  lemma MatchingStep(lib: Library, certs: seq<Bag>, i: nat, id: bytes)
    requires i < |certs|
    ensures CertContainKeyId(lib, certs[i].value, id) ==>
      Matching(lib, certs[..i + 1], id) == Matching(lib, certs[..i], id) + {certs[i].address}
          && Matching(lib, certs[..i + 1], id) != {}
    ensures !CertContainKeyId(lib, certs[i].value, id) ==>
      Matching(lib, certs[..i + 1], id) == Matching(lib, certs[..i], id)
  {
    assert certs[..i + 1] == certs[..i] + [certs[i]];
    if CertContainKeyId(lib, certs[i].value, id) {
      assert certs[i].address in Matching(lib, certs[..i + 1], id);
    }
  }
}
