/**
  The hybrid KEM: key generation, encapsulation and decapsulation under any availability
  of the post-quantum library, and the layout of the encapsulation blob. X25519, ML-KEM
  and the key derivation are parameters.
 */
module Kem {
  import opened Bytes
  import opened Wrappers
  import opened Structs

  const X25519_LEN: nat := 32
  const SALT_LEN: nat := 16

  /** The suites by their identifiers. */
  const HYBRID_KEM: nat := 1
  const HYBRID_SIG: nat := 2
  const CLASSIC_KEM: nat := 10
  const CLASSIC_SIG: nat := 11
  const SYMMETRIC: nat := 20

  predicate IsSuite(n: nat) {
    n in {HYBRID_KEM, HYBRID_SIG, CLASSIC_KEM, CLASSIC_SIG, SYMMETRIC}
  }

  datatype Info = ClassicalInfo | HybridInfo

  datatype Encapsulated = Encapsulated(secret: bytes, text: bytes)

  /** The library calls; exchange, encapsulation and decapsulation may refuse their arguments. */
  datatype Primitives = Primitives(
    publicOf: bytes -> bytes,
    exchanger: (bytes, bytes) -> Option<bytes>,
    pqPublicOf: bytes -> bytes,
    pqPrivateOf: bytes -> bytes,
    pqEncapsulator: (bytes, bytes) -> Option<Encapsulated>,
    pqDecapsulator: (bytes, bytes) -> Option<bytes>,
    deriver: (bytes, bytes, Info) -> bytes)

  function PublicOf(p: Primitives, priv: bytes): bytes { p.publicOf(priv) }
  function Exchange(p: Primitives, priv: bytes, pub: bytes): Option<bytes> { p.exchanger(priv, pub) }
  function PqPublicOf(p: Primitives, seed: bytes): bytes { p.pqPublicOf(seed) }
  function PqPrivateOf(p: Primitives, seed: bytes): bytes { p.pqPrivateOf(seed) }
  function PqEncapsulate(p: Primitives, pub: bytes, coins: bytes): Option<Encapsulated> { p.pqEncapsulator(pub, coins) }
  function PqDecapsulate(p: Primitives, priv: bytes, text: bytes): Option<bytes> { p.pqDecapsulator(priv, text) }
  function Derive(p: Primitives, ikm: bytes, salt: bytes, info: Info): bytes { p.deriver(ikm, salt, info) }

  /** Diffie-Hellman commutes, decapsulation inverts encapsulation, and lengths are as in the standards. */
  ghost predicate Lawful(p: Primitives) {
    && (forall k :: |PublicOf(p, k)| == X25519_LEN)
    && (forall a, b :: Exchange(p, a, PublicOf(p, b)) == Exchange(p, b, PublicOf(p, a)))
    && (forall seed, coins :: PqEncapsulate(p, PqPublicOf(p, seed), coins).Some? ==>
          PqDecapsulates(p, seed, PqEncapsulate(p, PqPublicOf(p, seed), coins).value))
    && (forall pub, coins :: PqEncapsulate(p, pub, coins).Some? ==>
          |PqEncapsulate(p, pub, coins).value.text| < 0x1_0000_0000)
    && (forall ikm, salt, info :: |Derive(p, ikm, salt, info)| == 32)
  }

  ghost predicate PqDecapsulates(p: Primitives, seed: bytes, e: Encapsulated) {
    PqDecapsulate(p, PqPrivateOf(p, seed), e.text) == Some(e.secret)
  }

  /** The laws can be met: they ask nothing contradictory of the primitives. */
  lemma LawfulExists() returns (p: Primitives)
    ensures Lawful(p) && forall k, q :: Exchange(p, k, q).Some? ==> |Exchange(p, k, q).value| == 32
  {
    var zero := U32(0) + U32(0) + U32(0) + U32(0) + U32(0) + U32(0) + U32(0) + U32(0);
    p := Primitives(priv => zero, (priv, pub) => Some(zero), seed => [], seed => [],
                    (pub, coins) => Some(Encapsulated([], [])), (priv, text) => Some([]), (ikm, salt, info) => zero);
  }

  datatype KemError = TooShort | UnknownSuite | Truncated | BadKey | PqRefused | LiboqsMissing

  // ----------------------------------------------------------- generation ----

  datatype Keypair = Keypair(suite: nat, pub: bytes, priv: bytes)

  /** A classical pair alone, or with an ML-KEM pair behind it when the library is there. */
  function Generate(p: Primitives, available: bool, priv: bytes, seed: bytes): Keypair {
    if !available then Keypair(CLASSIC_KEM, PublicOf(p, priv), priv)
    else Keypair(HYBRID_KEM, PublicOf(p, priv) + PqPublicOf(p, seed), priv + PqPrivateOf(p, seed))
  }

  // ----------------------------------------------------------------- blob ----

  /** Suite, salt and sender's public key, each field behind its length. */
  function Head(suite: nat, salt: bytes, eph: bytes): bytes
    requires suite < 0x100 && |salt| < 0x1_0000 && |eph| < 0x1_0000
  {
    [suite as byte] + U16(|salt|) + salt + U16(|eph|) + eph
  }

  function PqPart(text: bytes): bytes
    requires |text| < 0x1_0000_0000
  {
    U32(|text|) + text
  }

  /** The fields before the post-quantum part, and where that part begins. */
  datatype Parsed = Parsed(suite: nat, salt: bytes, eph: bytes, next: nat)

  function ParseHead(b: bytes): Result<Parsed, KemError> {
    if |b| < 3 then Err(TooShort)
    else if !IsSuite(b[0] as nat) then Err(UnknownSuite)
    else
      var saltEnd := 3 + GetU16(b[1..3]);
      var length := Slice(b, saltEnd, saltEnd + 2);
      if |length| != 2 then Err(Truncated)
      else
        var next := saltEnd + 2 + GetU16(length);
        Ok(Parsed(b[0] as nat, Slice(b, 3, saltEnd), Slice(b, saltEnd + 2, next), next))
  }

  function ParsePqPart(b: bytes, at: nat): Result<bytes, KemError> {
    var length := Slice(b, at, at + 4);
    if |length| != 4 then Err(Truncated) else Ok(Slice(b, at + 4, at + 4 + GetU32(length)))
  }

  /** The parser recovers every field the builder wrote, whatever follows. */
  lemma ParseBuiltHead(suite: nat, salt: bytes, eph: bytes, rest: bytes)
    requires IsSuite(suite) && |salt| < 0x1_0000 && |eph| < 0x1_0000
    ensures ParseHead(Head(suite, salt, eph) + rest) == Ok(Parsed(suite, salt, eph, |Head(suite, salt, eph)|))
  {
    hide U16, GetU16;
    var b := Head(suite, salt, eph) + rest;
    var s, e := U16(|salt|), U16(|eph|);
    U16RoundTrip(|salt|);
    U16RoundTrip(|eph|);
    assert b[1..3] == s;
    assert b == ([suite as byte] + s) + salt + (e + eph + rest);
    SliceConcat([suite as byte] + s, salt, e + eph + rest);
    assert b == ([suite as byte] + s + salt) + e + (eph + rest);
    SliceConcat([suite as byte] + s + salt, e, eph + rest);
    assert b == ([suite as byte] + s + salt + e) + eph + rest;
    SliceConcat([suite as byte] + s + salt + e, eph, rest);
  }

  lemma ParseBuiltPqPart(front: bytes, text: bytes)
    requires |text| < 0x1_0000_0000
    ensures ParsePqPart(front + PqPart(text), |front|) == Ok(text)
  {
    hide U32, GetU32;
    U32RoundTrip(|text|);
    var b := front + PqPart(text);
    var size := U32(|text|);
    assert b == front + size + text;
    SliceConcat(front, size, text);
    assert b == (front + size) + text + [];
    SliceConcat(front + size, text, []);
  }

  /** The bytes of the two blobs that encapsulation makes, up to the variable parts. */
  lemma Layout(salt: bytes, eph: bytes, text: bytes)
    requires |salt| == 16 && |eph| == 32 && |text| < 0x1_0000
    ensures Head(CLASSIC_KEM, salt, eph) == [10, 0, 16] + salt + [0, 32] + eph
    ensures Head(HYBRID_KEM, salt, eph) == [1, 0, 16] + salt + [0, 32] + eph
    ensures PqPart(text) == [0, 0, (|text| / 0x100) as byte, (|text| % 0x100) as byte] + text
  {
    BigEndian(0, 0, (|text| / 0x100) as byte, (|text| % 0x100) as byte);
  }

  lemma U16Unique(b: bytes)
    requires |b| == 2
    ensures U16(GetU16(b)) == b
  {}

  /** A blob whose fields are as long as announced begins with what the builder makes of them. */
  lemma ParsedIsRebuilt(b: bytes)
    requires ParseHead(b).Ok? && ParseHead(b).value.next <= |b|
    ensures var h := ParseHead(b).value;
      |h.salt| < 0x1_0000 && |h.eph| < 0x1_0000 && h.suite < 0x100 && b[..h.next] == Head(h.suite, h.salt, h.eph)
  {
    hide U16, GetU16;
    var h := ParseHead(b).value;
    var saltEnd := 3 + GetU16(b[1..3]);
    U16Unique(b[1..3]);
    U16Unique(b[saltEnd..saltEnd + 2]);
    assert b[..h.next] == [b[0]] + b[1..3] + b[3..saltEnd] + b[saltEnd..saltEnd + 2] + b[saltEnd + 2..h.next];
  }

  // -------------------------------------------------------- encapsulation ----

  /** The sender's side, with its ephemeral key, salt and post-quantum coins. */
  function Encapsulate(p: Primitives, available: bool, pub: bytes, suite: nat,
                       ephPriv: bytes, salt: bytes, coins: bytes): Result<Encapsulated, KemError>
    requires |salt| == SALT_LEN && Lawful(p)
  {
    var classicPub, pqPub := Slice(pub, 0, X25519_LEN), pub[|Slice(pub, 0, X25519_LEN)|..];
    if |classicPub| != X25519_LEN then Err(BadKey)
    else match Exchange(p, ephPriv, classicPub)
      case None => Err(BadKey)
      case Some(shared) =>
        if suite == CLASSIC_KEM || !available then
          Ok(Encapsulated(Derive(p, shared, salt, ClassicalInfo), Head(CLASSIC_KEM, salt, PublicOf(p, ephPriv))))
        else match PqEncapsulate(p, pqPub, coins)
          case None => Err(PqRefused)
          case Some(pq) =>
            Ok(Encapsulated(Derive(p, shared + pq.secret, salt, HybridInfo),
                            Head(HYBRID_KEM, salt, PublicOf(p, ephPriv)) + PqPart(pq.text)))
  }

  // -------------------------------------------------------- decapsulation ----

  /** What the receiver computes: the errors in the order in which they arise. */
  function Decapsulated(p: Primitives, available: bool, priv: bytes, blob: bytes): Result<bytes, KemError> {
    match ParseHead(blob)
    case Err(e) => Err(e)
    case Ok(h) =>
      var classicPriv := Slice(priv, 0, X25519_LEN);
      if |classicPriv| != X25519_LEN || |h.eph| != X25519_LEN then Err(BadKey)
      else match Exchange(p, classicPriv, h.eph)
        case None => Err(BadKey)
        case Some(shared) =>
          if h.suite == CLASSIC_KEM then Ok(Derive(p, shared, h.salt, ClassicalInfo))
          else if !available then Err(LiboqsMissing)
          else match ParsePqPart(blob, h.next)
            case Err(e) => Err(e)
            case Ok(text) => (
              match PqDecapsulate(p, priv[|classicPriv|..], text)
              case None => Err(PqRefused)
              case Some(pq) => Ok(Derive(p, shared + pq, h.salt, HybridInfo))
            )
  }

  /** The receiver, moving a cursor through the blob. */
  method Decapsulate(p: Primitives, available: bool, priv: bytes, blob: bytes) returns (r: Result<bytes, KemError>)
    ensures r == Decapsulated(p, available, priv, blob)
  {
    hide Slice, GetU16, GetU32, IsSuite;
    if |blob| < 3 {
      return Err(TooShort);
    }
    var suite, saltLen := blob[0] as nat, GetU16(blob[1..3]);
    if !IsSuite(suite) {
      return Err(UnknownSuite);
    }
    var idx := 3;
    var salt := Slice(blob, idx, idx + saltLen);
    idx := idx + saltLen;
    var field := Slice(blob, idx, idx + 2);
    if |field| != 2 {
      return Err(Truncated);
    }
    var ephLen := GetU16(field);
    idx := idx + 2;
    var eph := Slice(blob, idx, idx + ephLen);
    idx := idx + ephLen;
    var classicPriv := Slice(priv, 0, X25519_LEN);
    if |classicPriv| != X25519_LEN || |eph| != X25519_LEN {
      return Err(BadKey);
    }
    var shared := Exchange(p, classicPriv, eph);
    if shared.None? {
      return Err(BadKey);
    }
    if suite == CLASSIC_KEM {
      return Ok(Derive(p, shared.value, salt, ClassicalInfo));
    }
    if !available {
      return Err(LiboqsMissing);
    }
    field := Slice(blob, idx, idx + 4);
    if |field| != 4 {
      return Err(Truncated);
    }
    var textLen := GetU32(field);
    idx := idx + 4;
    var text := Slice(blob, idx, idx + textLen);
    var pq := PqDecapsulate(p, priv[|classicPriv|..], text);
    if pq.None? {
      return Err(PqRefused);
    }
    return Ok(Derive(p, shared.value + pq.value, salt, HybridInfo));
  }

  // ----------------------------------------------------------- round trip ----

  /** The sender's classical exchange, seen from the receiver. */
  lemma ClassicalHalf(p: Primitives, available: bool, priv: bytes, seed: bytes)
    requires Lawful(p) && |priv| == X25519_LEN
    ensures var k := Generate(p, available, priv, seed);
      && Slice(k.pub, 0, X25519_LEN) == PublicOf(p, priv) && Slice(k.priv, 0, X25519_LEN) == priv
      && (available ==> k.pub[X25519_LEN..] == PqPublicOf(p, seed) && k.priv[X25519_LEN..] == PqPrivateOf(p, seed))
  {
    var k := Generate(p, available, priv, seed);
    assert k.pub[..X25519_LEN] == PublicOf(p, priv) && k.priv[..X25519_LEN] == priv;
  }

  /**
    For every history of the library's presence at generation, encapsulation and
    decapsulation, the receiver recovers the sender's secret, unless the first two had
    it and the last does not: then it reports that the library is missing.
   */
  lemma RoundTrip(p: Primitives, atGenerate: bool, atEncapsulate: bool, atDecapsulate: bool,
                  priv: bytes, seed: bytes, ephPriv: bytes, salt: bytes, coins: bytes)
    requires Lawful(p) && |priv| == X25519_LEN && |ephPriv| == X25519_LEN && |salt| == SALT_LEN
    requires var k := Generate(p, atGenerate, priv, seed);
      Encapsulate(p, atEncapsulate, k.pub, k.suite, ephPriv, salt, coins).Ok?
    ensures var k := Generate(p, atGenerate, priv, seed);
      var e := Encapsulate(p, atEncapsulate, k.pub, k.suite, ephPriv, salt, coins).value;
      Decapsulated(p, atDecapsulate, k.priv, e.text)
        == if atGenerate && atEncapsulate && !atDecapsulate then Err(LiboqsMissing) else Ok(e.secret)
  {
    hide Head, PqPart, ParseHead, ParsePqPart, Slice, IsSuite;
    var k := Generate(p, atGenerate, priv, seed);
    var e := Encapsulate(p, atEncapsulate, k.pub, k.suite, ephPriv, salt, coins).value;
    ClassicalHalf(p, atGenerate, priv, seed);
    KemSuites();
    if atGenerate && atEncapsulate {
      var pq := PqEncapsulate(p, PqPublicOf(p, seed), coins).value;
      var head := Head(HYBRID_KEM, salt, PublicOf(p, ephPriv));
      ParseBuiltHead(HYBRID_KEM, salt, PublicOf(p, ephPriv), PqPart(pq.text));
      ParseBuiltPqPart(head, pq.text);
      assert PqDecapsulates(p, seed, pq);
    } else {
      ParseBuiltHead(CLASSIC_KEM, salt, PublicOf(p, ephPriv), []);
      assert e.text + [] == e.text;
    }
  }

  lemma KemSuites()
    ensures IsSuite(HYBRID_KEM) && IsSuite(CLASSIC_KEM)
  {}

  // ------------------------------------------------------------- refusals ----

  /**
    A blob is accepted only with a known suite, a complete salt, a 32-byte sender's key
    and, unless it is classical, the library and a length of the post-quantum part.
   */
  lemma AcceptedBlob(p: Primitives, available: bool, priv: bytes, blob: bytes)
    requires Decapsulated(p, available, priv, blob).Ok?
    ensures |priv| >= 32 && |blob| >= 37 && blob[0] in {1, 2, 10, 11, 20}
    ensures var saltLen := blob[1] as nat * 0x100 + blob[2] as nat;
      |blob| >= 5 + saltLen + 32 && (blob[0] != 10 ==> available && |blob| >= 5 + saltLen + 32 + 4)
  {
    hide GetU32, Slice;
    var h := ParseHead(blob).value;
    var saltEnd := 3 + GetU16(blob[1..3]);
    SliceLength(blob, saltEnd, saltEnd + 2);
    SliceLength(blob, saltEnd + 2, h.next);
    SliceLength(priv, 0, X25519_LEN);
    SliceLength(blob, h.next, h.next + 4);
  }

  lemma SliceLength(s: bytes, lo: nat, hi: nat)
    requires lo <= hi
    ensures |Slice(s, lo, hi)| == if hi <= |s| then hi - lo else if lo <= |s| then |s| - lo else 0
  {}

  /** The library missing is reported for every blob that is not classical, once its front parts are fine. */
  lemma MissingLibrary(p: Primitives, priv: bytes, blob: bytes)
    requires Decapsulated(p, true, priv, blob).Ok?
    ensures Decapsulated(p, false, priv, blob)
      == if blob[0] == 10 then Decapsulated(p, true, priv, blob) else Err(LiboqsMissing)
  {
    hide Slice, GetU16, GetU32;
  }

  // ------------------------------------------------------------ both halves ----

  /** What the key derivation is given. */
  datatype Inputs = Inputs(ikm: bytes, salt: bytes, info: Info)

  function DeriveFrom(p: Primitives, i: Inputs): bytes {
    Derive(p, i.ikm, i.salt, i.info)
  }

  /** The inputs of an encapsulation that succeeds. */
  function InputsOf(p: Primitives, available: bool, pub: bytes, suite: nat, ephPriv: bytes, salt: bytes,
                    coins: bytes): Inputs
    requires |salt| == SALT_LEN && Lawful(p) && Encapsulate(p, available, pub, suite, ephPriv, salt, coins).Ok?
  {
    var dh := Exchange(p, ephPriv, pub[..32]).value;
    if suite == CLASSIC_KEM || !available then Inputs(dh, salt, ClassicalInfo)
    else Inputs(dh + PqEncapsulate(p, pub[32..], coins).value.secret, salt, HybridInfo)
  }

  lemma SecretIsDerived(p: Primitives, available: bool, pub: bytes, suite: nat, ephPriv: bytes, salt: bytes,
                        coins: bytes)
    requires |salt| == SALT_LEN && Lawful(p) && Encapsulate(p, available, pub, suite, ephPriv, salt, coins).Ok?
    ensures Encapsulate(p, available, pub, suite, ephPriv, salt, coins).value.secret
      == DeriveFrom(p, InputsOf(p, available, pub, suite, ephPriv, salt, coins))
  {
    hide Head, PqPart;
  }

  /**
    The secret of a hybrid encapsulation binds both halves: another encapsulation that
    ends up with the same secret, its derivation not colliding, is hybrid too and has the
    same classical secret, post-quantum secret and salt.
   */
  lemma HybridBindsBoth(p: Primitives, pub: bytes, suite: nat, ephPriv: bytes, salt: bytes, coins: bytes,
                        available': bool, pub': bytes, suite': nat, ephPriv': bytes, salt': bytes, coins': bytes)
    requires Lawful(p) && |salt| == SALT_LEN && |salt'| == SALT_LEN && suite != CLASSIC_KEM
    requires forall k, q :: Exchange(p, k, q).Some? ==> |Exchange(p, k, q).value| == 32
    requires Encapsulate(p, true, pub, suite, ephPriv, salt, coins).Ok?
    requires Encapsulate(p, available', pub', suite', ephPriv', salt', coins').Ok?
    requires Encapsulate(p, true, pub, suite, ephPriv, salt, coins).value.secret
      == Encapsulate(p, available', pub', suite', ephPriv', salt', coins').value.secret
    requires var a := InputsOf(p, true, pub, suite, ephPriv, salt, coins);
      var b := InputsOf(p, available', pub', suite', ephPriv', salt', coins');
      DeriveFrom(p, a) == DeriveFrom(p, b) ==> a == b
    ensures |pub| >= 32 && |pub'| >= 32 && suite' != CLASSIC_KEM && available' && salt' == salt
    ensures Exchange(p, ephPriv', pub'[..32]) == Exchange(p, ephPriv, pub[..32])
    ensures PqEncapsulate(p, pub'[32..], coins').Some? && PqEncapsulate(p, pub[32..], coins).Some?
    ensures PqEncapsulate(p, pub'[32..], coins').value.secret == PqEncapsulate(p, pub[32..], coins).value.secret
  {
    hide Head, PqPart;
    SecretIsDerived(p, true, pub, suite, ephPriv, salt, coins);
    SecretIsDerived(p, available', pub', suite', ephPriv', salt', coins');
    var a := InputsOf(p, true, pub, suite, ephPriv, salt, coins);
    var b := InputsOf(p, available', pub', suite', ephPriv', salt', coins');
    assert a == b;
    var pq, pq' := PqEncapsulate(p, pub[32..], coins).value, PqEncapsulate(p, pub'[32..], coins').value;
    assert a.ikm[32..] == pq.secret && b.ikm[32..] == pq'.secret;
    assert Exchange(p, ephPriv, pub[..32]).value == a.ikm[..32]
      && Exchange(p, ephPriv', pub'[..32]).value == b.ikm[..32];
  }
}
