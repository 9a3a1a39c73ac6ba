/**
  Private keys as PKCS#12 bags hold them: how they are generated, recognised and identified
  (private-key.c and oids.c), over the crypto and ASN.1 libraries as unknown functions.
 */
module Pkcs12Keys {
  import opened Prelude

  datatype HashAlg = HashUndefined | Sha1 | Gost34311 | Dstu7564 | OtherHash(id: nat)

  datatype Ret = RetOk | InvalidParameter | InvalidJson | GeneralError | NotAuthorized | ReadonlySession
               | KeyNotFound | KeyNotSelected | CertificateNotFound | InvalidCertificate | Unsupported
               | LibraryError(code: int)

  type Error = r: Ret | r != RetOk witness InvalidParameter

  datatype CertKey = CertKey(algo: string, publicKey: bytes)

  /** Curve parameters of a decoded key. Explicit ones are those that no standard curve spells out. */
  datatype KeyParams = NamedCurve(oid: string) | ExplicitCurve | NoCurve | Unreadable

  datatype PrivateKey = PrivateKey(algo: string, params: KeyParams, secret: bytes)

  /**
    What the libraries compute; `random` is the randomness a call consumes. `publicKey` is all that
    remains to be done for a public key once the algorithm and its parameters are settled.
   */
  datatype Library = Library(
    hash: (HashAlg, bytes) -> Option<bytes>,
    hashSupported: HashAlg -> bool,
    certKey: bytes -> Option<CertKey>,
    decodeKey: bytes -> Option<PrivateKey>,
    encodeKey: PrivateKey -> bytes,
    curveSupported: string -> bool,
    ecReadable: string -> bool,
    rsaModulus: bytes -> Option<nat>,
    publicKey: PrivateKey -> Option<bytes>,
    draw: (string, string, nat) -> Option<bytes>,
    signCheck: (bytes, string, Option<bytes>) -> Result<HashAlg, Error>,
    sign: (bytes, seq<bytes>, string, Option<bytes>, nat) -> Result<seq<bytes>, Error>)

  // ---------- algorithms ----------

  const OID_DSTU4145_WITH_GOST3411 := "1.2.804.2.1.1.1.1.3.1"
  const OID_DSTU4145_WITH_DSTU7564 := "1.2.804.2.1.1.1.1.3.6"
  const OID_DSTU4145_PARAM_PB_LE := "1.2.804.2.1.1.1.1.3.1.1"
  const OID_DSTU4145_PARAM_M257_PB := "1.2.804.2.1.1.1.1.3.1.1.2.6"
  const OID_EC_KEY := "1.2.840.10045.2.1"
  const OID_ECKCDSA := "1.0.14888.3.0.5"
  const OID_ECGDSA_STD := "1.3.36.3.3.2.5"
  const OID_ECGDSA_KEY := "1.3.36.3.3.2.5.2.1"
  const OID_GOST_KEY_3410_2012_256 := "1.2.643.7.1.1.1.1"
  const OID_GOST_KEY_3410_2012_512 := "1.2.643.7.1.1.1.2"
  const OID_SM2 := "1.0.14888.3.0.14"
  const OID_RSA := "1.2.840.113549.1.1.1"
  const OID_NIST_P256 := "1.2.840.10045.3.1.7"
  const OID_BRAINPOOL_P256R1 := "1.3.36.3.3.2.8.1.1.7"
  const OID_ECRDSA_256A := "1.2.643.7.1.2.1.1.1"
  const OID_ECRDSA_512A := "1.2.643.7.1.2.1.2.1"
  const OID_SM2DSA_P256 := "1.2.156.10197.1.301"

  /** `oid` is `parent` or lies below it. */
  predicate OidIsParent(parent: string, oid: string) {
    parent <= oid && (|oid| > |parent| ==> oid[|parent|] == '.')
  }

  predicate IsDstu(algo: string) {
    OidIsParent(OID_DSTU4145_WITH_GOST3411, algo) || OidIsParent(OID_DSTU4145_WITH_DSTU7564, algo)
  }

  predicate IsEc(algo: string) {
    || algo == OID_EC_KEY || algo == OID_ECKCDSA || OidIsParent(OID_ECGDSA_STD, algo)
    || algo == OID_GOST_KEY_3410_2012_256 || algo == OID_GOST_KEY_3410_2012_512 || algo == OID_SM2
  }

  lemma ParentsAreDisjoint(oid: string)
    ensures !(OidIsParent(OID_DSTU4145_WITH_GOST3411, oid) && OidIsParent(OID_DSTU4145_WITH_DSTU7564, oid))
  {
    var last := |OID_DSTU4145_WITH_GOST3411| - 1;
    assert OID_DSTU4145_WITH_GOST3411[last] != OID_DSTU4145_WITH_DSTU7564[last];
  }

  // ---------- reading keys ----------

  /** private_key_get_info names algorithm and parameter; the size of an RSA key has seven digits at most. */
  predicate InfoReadable(lib: Library, key: PrivateKey) {
    if IsDstu(key.algo) then key.params.NamedCurve?
    else if IsEc(key.algo) then key.params.NamedCurve? && lib.ecReadable(key.params.oid)
    else if key.algo == OID_RSA then
      lib.rsaModulus(key.secret).Some? && 8 * lib.rsaModulus(key.secret).value < 1000_0000
    else false
  }

  /** The subject public key private_key_get_spki arrives at. */
  function SubjectKey(lib: Library, key: PrivateKey): Option<bytes> {
    if IsDstu(key.algo) then
      if key.params.NamedCurve? || key.params.ExplicitCurve? then lib.publicKey(key) else None
    else if IsEc(key.algo) then
      if key.params.NamedCurve? && lib.ecReadable(key.params.oid) && key.algo != OID_ECKCDSA
         && (OidIsParent(OID_ECGDSA_STD, key.algo) ==> key.algo == OID_ECGDSA_KEY)
      then lib.publicKey(key) else None
    else if key.algo == OID_RSA && lib.rsaModulus(key.secret).Some? then lib.publicKey(key)
    else None
  }

  /** keyIdFromPrivKeyInfo: the digest of the subject public key under a given algorithm. */
  function KeyIdBy(lib: Library, alg: HashAlg, value: bytes): Option<bytes> {
    match lib.decodeKey(value)
    case None => None
    case Some(key) =>
      match SubjectKey(lib, key)
      case None => None
      case Some(public) => lib.hash(alg, public)
  }

  /** The hash a key's own id is made with, by the key's algorithm. */
  function OwnHash(algo: string): HashAlg { if IsDstu(algo) then Gost34311 else Sha1 }

  /** A key bag is recognised: it can be described and it has an id. */
  predicate Recognised(lib: Library, value: bytes) {
    && lib.decodeKey(value).Some? && InfoReadable(lib, lib.decodeKey(value).value)
    && KeyIdBy(lib, OwnHash(lib.decodeKey(value).value.algo), value).Some?
  }

  /** A key with a public key is described, except on an explicit curve or with an absurdly long modulus. */
  lemma InfoReadableIff(lib: Library, key: PrivateKey)
    requires SubjectKey(lib, key).Some?
    ensures InfoReadable(lib, key) <==>
      && (IsDstu(key.algo) ==> !key.params.ExplicitCurve?)
      && (!IsDstu(key.algo) && key.algo == OID_RSA ==> 8 * lib.rsaModulus(key.secret).value < 1000_0000)
  {
    RsaIsOther();
  }

  lemma RsaIsOther()
    ensures !IsDstu(OID_RSA) && !IsEc(OID_RSA)
  {
    var rsa := OID_RSA;
    assert rsa[2] == '2' && OID_ECKCDSA[2] == '0' && OID_SM2[2] == '0' && OID_ECGDSA_STD[2] == '3';
    assert rsa[4] == '8' && OID_GOST_KEY_3410_2012_256[4] == '6' && OID_GOST_KEY_3410_2012_512[4] == '6';
    assert rsa[5] == '4' && OID_DSTU4145_WITH_GOST3411[5] == '0' && OID_DSTU4145_WITH_DSTU7564[5] == '0';
    assert rsa[9] == '1' && OID_EC_KEY[9] == '0';
  }

  // ---------- generating keys ----------

  function Curve(param: Option<string>, default: string): string {
    if param.Some? then param.value else default
  }

  function Drawn(lib: Library, algo: string, curve: string, random: nat): Result<PrivateKey, Error> {
    if !lib.curveSupported(curve) then Err(LibraryError(1))
    else
      match lib.draw(algo, curve, random)
      case None => Err(LibraryError(2))
      case Some(secret) => Ok(PrivateKey(algo, NamedCurve(curve), secret))
  }

  function RsaSize(bits: string): nat {
    if bits == "1024" then 1024 else if bits == "1536" then 1536 else if bits == "2048" then 2048
    else if bits == "3072" then 3072 else if bits == "4096" then 4096 else if bits == "8192" then 8192 else 0
  }

  function DrawnRsa(lib: Library, bits: string, random: nat): Result<PrivateKey, Error> {
    if RsaSize(bits) == 0 then Err(LibraryError(3))
    else
      match lib.draw(OID_RSA, bits, random)
      case None => Err(LibraryError(2))
      case Some(secret) => Ok(PrivateKey(OID_RSA, NoCurve, secret))
  }

  /** private_key_generate */
  function Generate(lib: Library, algo: string, param: Option<string>, random: nat): Result<PrivateKey, Error> {
    if IsDstu(algo) then
      Drawn(lib, if algo == OID_DSTU4145_WITH_GOST3411 then OID_DSTU4145_PARAM_PB_LE else algo,
            Curve(param, OID_DSTU4145_PARAM_M257_PB), random)
    else if algo == OID_EC_KEY then Drawn(lib, OID_EC_KEY, Curve(param, OID_NIST_P256), random)
    else if algo == OID_ECKCDSA then Drawn(lib, OID_ECGDSA_KEY, Curve(param, OID_NIST_P256), random)
    else if OidIsParent(OID_ECGDSA_STD, algo) then Drawn(lib, OID_ECGDSA_KEY, Curve(param, OID_BRAINPOOL_P256R1),
        random)
    else if algo == OID_GOST_KEY_3410_2012_256 then Drawn(lib, algo, Curve(param, OID_ECRDSA_256A), random)
    else if algo == OID_GOST_KEY_3410_2012_512 then Drawn(lib, algo, Curve(param, OID_ECRDSA_512A), random)
    else if algo == OID_SM2 then Drawn(lib, OID_EC_KEY, Curve(param, OID_SM2DSA_P256), random)
    else if algo == OID_RSA then DrawnRsa(lib, Curve(param, "2048"), random)
    else Err(LibraryError(4))
  }

  /** A generated key decodes as it was encoded. */
  predicate ReadsBack(lib: Library, made: Result<PrivateKey, Error>) {
    made.Ok? ==> lib.decodeKey(lib.encodeKey(made.value)) == Some(made.value)
  }

  /** What the libraries promise: generated keys read back, digests exist and are not empty, and RSA moduli have
      the size asked for. */
  ghost predicate Lawful(lib: Library) {
    && (forall algo: string, param: Option<string>, random: nat :: ReadsBack(lib, Generate(lib, algo, param, random)))
    && (forall alg: HashAlg, data: bytes :: alg == Sha1 || alg == Gost34311 ==> lib.hash(alg, data).Some?)
    && (forall alg: HashAlg, data: bytes :: lib.hash(alg, data) != Some([]))
    && (forall bits: string, random: nat :: RsaSize(bits) > 0 && lib.draw(OID_RSA, bits, random).Some?
          ==> lib.rsaModulus(lib.draw(OID_RSA, bits, random).value) == Some(RsaSize(bits) / 8))
  }

  /** Every generated key with a public key is recognised: what is generated is never on an explicit curve. */
  lemma GeneratedIsRecognised(lib: Library, algo: string, param: Option<string>, random: nat)
    requires Lawful(lib)
    requires Generate(lib, algo, param, random).Ok?
    requires SubjectKey(lib, Generate(lib, algo, param, random).value).Some?
    ensures Recognised(lib, lib.encodeKey(Generate(lib, algo, param, random).value))
  {
    hide OidIsParent, IsEc;
    var key := Generate(lib, algo, param, random).value;
    GeneratedShape(lib, algo, param, random);
    InfoReadableIff(lib, key);
    assert ReadsBack(lib, Generate(lib, algo, param, random));
  }

  lemma GeneratedShape(lib: Library, algo: string, param: Option<string>, random: nat)
    requires Lawful(lib)
    requires Generate(lib, algo, param, random).Ok?
    ensures var key := Generate(lib, algo, param, random).value;
      if key.algo == OID_RSA && key.params.NoCurve? then
        lib.rsaModulus(key.secret).Some? && lib.rsaModulus(key.secret).value <= 1024
      else key.params.NamedCurve? && key.algo != OID_RSA
  {
    hide OidIsParent, IsEc;
    assert !IsDstu(OID_RSA) by { RsaIsOther(); }
  }

  lemma PbLeIsDstu()
    ensures OidIsParent(OID_DSTU4145_WITH_GOST3411, OID_DSTU4145_PARAM_PB_LE)
  {
    var n := |OID_DSTU4145_WITH_GOST3411|;
    assert OID_DSTU4145_PARAM_PB_LE[..n] == OID_DSTU4145_WITH_GOST3411 && OID_DSTU4145_PARAM_PB_LE[n] == '.';
  }

  lemma OthersAreNotDstu()
    ensures !IsDstu(OID_EC_KEY) && !IsDstu(OID_ECGDSA_KEY) && !IsDstu(OID_RSA)
    ensures !IsDstu(OID_GOST_KEY_3410_2012_256) && !IsDstu(OID_GOST_KEY_3410_2012_512)
  {
    assert OID_DSTU4145_WITH_GOST3411[..6] == "1.2.80" && OID_DSTU4145_WITH_DSTU7564[..6] == "1.2.80";
    assert OID_EC_KEY[5] == '4' && OID_RSA[5] == '4' && OID_ECGDSA_KEY[2] == '3';
    assert OID_GOST_KEY_3410_2012_256[4] == '6' && OID_GOST_KEY_3410_2012_512[4] == '6';
  }

  /** A generated key is a DSTU 4145 key exactly if one was asked for. */
  lemma GeneratedIsDstuIff(lib: Library, algo: string, param: Option<string>, random: nat)
    requires Generate(lib, algo, param, random).Ok?
    ensures IsDstu(Generate(lib, algo, param, random).value.algo) <==> IsDstu(algo)
  {
    OthersAreNotDstu();
    PbLeIsDstu();
    hide OidIsParent;
  }

  lemma EcIsNotDstu()
    ensures !IsDstu(OID_EC_KEY) && !OidIsParent(OID_ECGDSA_STD, OID_EC_KEY) && OID_EC_KEY != OID_ECKCDSA
  {
    var ec := OID_EC_KEY;
    assert ec[2] == '2' && OID_ECGDSA_STD[2] == '3' && OID_ECKCDSA[2] == '0';
    assert ec[5] == '4' && OID_DSTU4145_WITH_GOST3411[5] == '0' && OID_DSTU4145_WITH_DSTU7564[5] == '0';
  }

  lemma SampleRecognises(value: bytes)
    ensures Recognised(SampleLibrary(), value) && KeyIdBy(SampleLibrary(), Sha1, value) == Some([1] + value)
  {
    EcIsNotDstu();
    hide OidIsParent;
    assert SubjectKey(SampleLibrary(), PrivateKey(OID_EC_KEY, NamedCurve(OID_NIST_P256), value)) == Some(value);
  }

  const DSTU7564_KEY := "1.2.804.2.1.1.1.1.3.6.1"

  /**
    A small library: it makes keys on P-256 only, its digests begin with the algorithm, and its certificates
    hold keys hashed with DSTU 7564.
   */
  function SampleLibrary(): Library {
    Library((alg: HashAlg, data: bytes) => Some([if alg == Sha1 then 1 else 2] + data),
            (alg: HashAlg) => true,
            (cert: bytes) => Some(CertKey(DSTU7564_KEY, cert)),
            (value: bytes) => Some(PrivateKey(OID_EC_KEY, NamedCurve(OID_NIST_P256), value)),
            (key: PrivateKey) => key.secret,
            (curve: string) => curve == OID_NIST_P256,
            (curve: string) => curve == OID_NIST_P256,
            (secret: bytes) => None,
            (key: PrivateKey) => Some(key.secret),
            (algo: string, curve: string, random: nat) => if algo == OID_EC_KEY then Some([random % 0x100]) else None,
            (key: bytes, algo: string, params: Option<bytes>) => Ok(Sha1),
            (key: bytes, hashes: seq<bytes>, algo: string, params: Option<bytes>, random: nat) => Ok(hashes))
  }

  lemma SampleReadsBack(algo: string, param: Option<string>, random: nat)
    ensures ReadsBack(SampleLibrary(), Generate(SampleLibrary(), algo, param, random))
  {
    hide OidIsParent;
  }

  /** The promises can be kept. */
  lemma SampleLibraryIsLawful()
    ensures Lawful(SampleLibrary())
  {
    hide Generate;
    var lib := SampleLibrary();
    forall algo: string, param: Option<string>, random: nat
      ensures ReadsBack(lib, Generate(lib, algo, param, random))
    {
      SampleReadsBack(algo, param, random);
    }
    RsaIsNotEcKey();
  }

  lemma RsaIsNotEcKey()
    ensures OID_RSA != OID_EC_KEY
  {
    assert OID_RSA[9] == '1' && OID_EC_KEY[9] == '0';
  }

  // ---------- what is generated ----------

  predicate IsMade(lib: Library, mechanism: string, param: Option<string>, random: nat, algo: string, curve: string) {
    var made := Generate(lib, mechanism, param, random);
    made.Ok? ==> made.value.algo == algo && made.value.params == NamedCurve(if param.Some? then param.value else curve)
  }

  /** For each mechanism, the algorithm of the key and the curve it is on unless another is asked for. */
  lemma GeneratesAsAsked(lib: Library, param: Option<string>, random: nat)
    ensures IsMade(lib, "1.2.804.2.1.1.1.1.3.1", param, random,
                   "1.2.804.2.1.1.1.1.3.1.1", "1.2.804.2.1.1.1.1.3.1.1.2.6")
    ensures IsMade(lib, "1.2.804.2.1.1.1.1.3.1.1", param, random,
                   "1.2.804.2.1.1.1.1.3.1.1", "1.2.804.2.1.1.1.1.3.1.1.2.6")
    ensures IsMade(lib, "1.2.840.10045.2.1", param, random, "1.2.840.10045.2.1", "1.2.840.10045.3.1.7")
    ensures IsMade(lib, "1.0.14888.3.0.5", param, random, "1.3.36.3.3.2.5.2.1", "1.2.840.10045.3.1.7")
    ensures IsMade(lib, "1.3.36.3.3.2.5", param, random, "1.3.36.3.3.2.5.2.1", "1.3.36.3.3.2.8.1.1.7")
    ensures IsMade(lib, "1.2.643.7.1.1.1.1", param, random, "1.2.643.7.1.1.1.1", "1.2.643.7.1.2.1.1.1")
    ensures IsMade(lib, "1.2.643.7.1.1.1.2", param, random, "1.2.643.7.1.1.1.2", "1.2.643.7.1.2.1.2.1")
    ensures IsMade(lib, "1.0.14888.3.0.14", param, random, "1.2.840.10045.2.1", "1.2.156.10197.1.301")
  {
    PbLeIsDstu();
    OthersAreNotDstu();
    EcIsNotDstu();
    MechanismsDiffer();
    hide OidIsParent;
  }

  lemma MechanismsDiffer()
    ensures OidIsParent(OID_DSTU4145_WITH_GOST3411, OID_DSTU4145_WITH_GOST3411)
    ensures OidIsParent(OID_ECGDSA_STD, OID_ECGDSA_STD) && !IsDstu(OID_ECGDSA_STD)
    ensures !IsDstu(OID_ECKCDSA) && !OidIsParent(OID_ECGDSA_STD, OID_ECKCDSA)
    ensures !IsDstu(OID_SM2) && !OidIsParent(OID_ECGDSA_STD, OID_SM2)
    ensures !OidIsParent(OID_ECGDSA_STD, OID_GOST_KEY_3410_2012_256)
    ensures !OidIsParent(OID_ECGDSA_STD, OID_GOST_KEY_3410_2012_512)
  {
    assert OID_ECKCDSA[2] == '0' && OID_SM2[2] == '0' && OID_ECGDSA_STD[2] == '3';
    assert OID_DSTU4145_WITH_GOST3411[2] == '2' && OID_DSTU4145_WITH_DSTU7564[2] == '2';
    assert OID_GOST_KEY_3410_2012_256[2] == '2' && OID_GOST_KEY_3410_2012_512[2] == '2';
  }

  /** RSA keys have one of six sizes, 2048 bits unless another is asked for, and no curve. */
  lemma GeneratesRsa(lib: Library, param: Option<string>, random: nat)
    ensures var made := Generate(lib, OID_RSA, param, random);
      var bits := if param.Some? then param.value else "2048";
      && (made.Ok? ==> made.value.algo == "1.2.840.113549.1.1.1" && made.value.params == NoCurve)
      && (made.Ok? ==> lib.draw(OID_RSA, bits, random) == Some(made.value.secret))
      && (made.Ok? && param.Some? ==> param.value in {"1024", "1536", "2048", "3072", "4096", "8192"})
  {
    RsaIsOther();
    hide OidIsParent;
  }
}
