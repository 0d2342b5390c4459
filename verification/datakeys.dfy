/**
  Data keys wrapped under a KEM key version, and unwrapped in any later state of the key
  tables: the hybrid KEM, the sealing of the data key and the stored versions together.
 */
module DataKeys {
  import opened Bytes
  import opened Wrappers
  import opened KeyDb
  import opened KeyRuns
  import Aead
  import Base64
  import Cluster
  import Custody
  import Kem

  /** The associated data "pqkms/wrap/v1". */
  const WRAP_AAD: bytes := [112, 113, 107, 109, 115, 47, 119, 114, 97, 112, 47, 118, 49]

  datatype WrapError = Op(why: OpError) | Kem(cause: Kem.KemError)

  /** What the caller stores: both parts in base64. */
  datatype WrappedKey = WrappedKey(encapsulation: string, sealed: string)

  /** Fresh values drawn by one call: ephemeral key, salt, post-quantum coins, nonce. */
  datatype Randomness = Randomness(ephPriv: bytes, salt: bytes, coins: bytes, nonce: bytes)

  predicate Sized(x: Randomness) {
    |x.ephPriv| == Kem.X25519_LEN && |x.salt| == Kem.SALT_LEN && |x.nonce| == Aead.NONCE_LEN
  }

  function Wrap(p: Kem.Primitives, g: Aead.Gcm, available: bool, pub: bytes, suite: nat, dataKey: bytes, x: Randomness)
    : Result<WrappedKey, WrapError>
    requires Kem.Lawful(p) && Sized(x)
  {
    match Kem.Encapsulate(p, available, pub, suite, x.ephPriv, x.salt, x.coins)
    case Err(e) => Err(WrapError.Kem(e))
    case Ok(e) =>
      match Aead.Seal(g, e.secret, x.nonce, dataKey, WRAP_AAD)
      case None => Err(Op(InvalidTag))
      case Some(sealed) =>
        Ok(WrappedKey(Base64.Encode(Base64.Standard, e.text), Base64.Encode(Base64.Standard, sealed)))
  }

  /** The wrapping call: the key must be enabled and a KEM key; its public material is a parameter. */
  function WrapUnder(p: Kem.Primitives, c: Crypto, kek: Option<bytes>, available: bool, db: Db,
                     id: string, pub: bytes, dataKey: bytes, x: Randomness): Result<WrappedKey, WrapError>
    requires Kem.Lawful(p) && Sized(x)
  {
    var key := RequireEnabled(db, id);
    if key.Err? then Err(Op(key.error))
    else if key.value.keyType != KemKey then Err(Op(WrongKeyType))
    else
      var v := (id, key.value.currentVersion);
      var priv := LoadVersion(c, kek, db, v);
      if priv.Err? then Err(Op(priv.error)) else Wrap(p, c.gcm, available, pub, db.versions[v].suite, dataKey, x)
  }

  /** A key that is not there, not enabled or not a KEM key neither wraps nor unwraps, and nor does a locked store. */
  lemma UnusableIsRefused(p: Kem.Primitives, c: Crypto, kek: Option<bytes>, available: bool, db: Db, id: string,
                          pub: bytes, dataKey: bytes, x: Randomness, w: WrappedKey, asked: Option<nat>)
    requires Kem.Lawful(p) && Sized(x)
    requires id !in db.keys || db.keys[id].state != Enabled || db.keys[id].keyType != KemKey || kek.None?
    ensures WrapUnder(p, c, kek, available, db, id, pub, dataKey, x).Err?
    ensures Unwrap(p, c, kek, available, db, id, w, asked).Err?
    ensures id in db.keys && (id, db.keys[id].currentVersion) in db.versions && db.keys[id].state != Enabled ==>
      Unwrap(p, c, kek, available, db, id, w, asked) == Err(Op(BadKeyState))
  {
    hide Wrap, OpenWith, Kem.Lawful, SecretOf;
  }

  /** The version asked for; none, or 0, means the current one. */
  function VersionToUse(asked: Option<nat>, current: nat): nat {
    if asked.None? || asked.value == 0 then current else asked.value
  }

  function Unwrap(p: Kem.Primitives, c: Crypto, kek: Option<bytes>, available: bool, db: Db,
                  id: string, w: WrappedKey, asked: Option<nat>): Result<bytes, WrapError>
  {
    var key := RequireEnabled(db, id);
    if key.Err? then Err(Op(key.error))
    else if key.value.keyType != KemKey then Err(Op(WrongKeyType))
    else
      var priv := LoadVersion(c, kek, db, (id, VersionToUse(asked, key.value.currentVersion)));
      if priv.Err? then Err(Op(priv.error))
      else OpenWith(p, c.gcm, available, priv.value, w)
  }

  function OpenWith(p: Kem.Primitives, g: Aead.Gcm, available: bool, priv: bytes, w: WrappedKey)
    : Result<bytes, WrapError>
  {
    match Base64.Decode(Base64.Standard, w.encapsulation)
    case None => Err(Op(Malformed))
    case Some(blob) =>
      match Kem.Decapsulated(p, available, priv, blob)
      case Err(e) => Err(WrapError.Kem(e))
      case Ok(shared) =>
        match Base64.Decode(Base64.Standard, w.sealed)
        case None => Err(Op(Malformed))
        case Some(sealed) =>
          match Aead.Open(g, shared, sealed, WRAP_AAD)
          case None => Err(Op(InvalidTag))
          case Some(dataKey) => Ok(dataKey)
  }

  lemma OpensWhatWasWrapped(p: Kem.Primitives, g: Aead.Gcm, atGenerate: bool, atWrap: bool, atOpen: bool,
                            priv: bytes, seed: bytes, dataKey: bytes, x: Randomness)
    requires Kem.Lawful(p) && Aead.Lawful(g) && Sized(x) && |priv| == Kem.X25519_LEN
    requires var k := Kem.Generate(p, atGenerate, priv, seed); Wrap(p, g, atWrap, k.pub, k.suite, dataKey, x).Ok?
    ensures var k := Kem.Generate(p, atGenerate, priv, seed);
      var w := Wrap(p, g, atWrap, k.pub, k.suite, dataKey, x).value;
      OpenWith(p, g, atOpen, k.priv, w)
        == if atGenerate && atWrap && !atOpen then Err(WrapError.Kem(Kem.LiboqsMissing)) else Ok(dataKey)
  {
    hide Kem.Lawful, Aead.Lawful, Kem.Generate, Kem.Encapsulate, Kem.Decapsulated;
    hide Aead.Seal, Aead.Open, Base64.Encode, Base64.Decode;
    var k := Kem.Generate(p, atGenerate, priv, seed);
    var e := Kem.Encapsulate(p, atWrap, k.pub, k.suite, x.ephPriv, x.salt, x.coins).value;
    Kem.RoundTrip(p, atGenerate, atWrap, atOpen, priv, seed, x.ephPriv, x.salt, x.coins);
    SecretLength(p, atWrap, k.pub, k.suite, x);
    Aead.OpenSeal(g, e.secret, x.nonce, dataKey, WRAP_AAD);
    Base64.DecodeEncode(Base64.Standard, e.text);
    Base64.DecodeEncode(Base64.Standard, Aead.Seal(g, e.secret, x.nonce, dataKey, WRAP_AAD).value);
  }

  lemma SecretLength(p: Kem.Primitives, available: bool, pub: bytes, suite: nat, x: Randomness)
    requires Kem.Lawful(p) && Sized(x) && Kem.Encapsulate(p, available, pub, suite, x.ephPriv, x.salt, x.coins).Ok?
    ensures |Kem.Encapsulate(p, available, pub, suite, x.ephPriv, x.salt, x.coins).value.secret| == Aead.KEY_LEN
  {
    hide Kem.Head, Kem.PqPart;
  }

  /** What the caller stores: the blob, and the data key sealed under the shared secret with "pqkms/wrap/v1". */
  lemma WrappedParts(p: Kem.Primitives, g: Aead.Gcm, available: bool, pub: bytes, suite: nat, dataKey: bytes,
                     x: Randomness)
    requires Kem.Lawful(p) && Sized(x) && Wrap(p, g, available, pub, suite, dataKey, x).Ok?
    ensures var w := Wrap(p, g, available, pub, suite, dataKey, x).value;
      var e := Kem.Encapsulate(p, available, pub, suite, x.ephPriv, x.salt, x.coins);
      && e.Ok? && Base64.Decode(Base64.Standard, w.encapsulation) == Some(e.value.text)
      && Base64.Decode(Base64.Standard, w.sealed) == Aead.Seal(g, e.value.secret, x.nonce, dataKey,
           [112, 113, 107, 109, 115, 47, 119, 114, 97, 112, 47, 118, 49])
  {
    hide Kem.Encapsulate, Base64.Encode, Base64.Decode, Aead.Seal, Kem.Lawful;
    var e := Kem.Encapsulate(p, available, pub, suite, x.ephPriv, x.salt, x.coins).value;
    Base64.DecodeEncode(Base64.Standard, e.text);
    Base64.DecodeEncode(Base64.Standard, Aead.Seal(g, e.secret, x.nonce, dataKey, WRAP_AAD).value);
  }

  /** Without a version, and with version 0, the current one is used: the default does not remember what wrapped. */
  lemma DefaultVersion(p: Kem.Primitives, c: Crypto, kek: Option<bytes>, available: bool, db: Db, id: string,
                       w: WrappedKey)
    requires id in db.keys && db.keys[id].currentVersion >= 1
    ensures Unwrap(p, c, kek, available, db, id, w, None) == Unwrap(p, c, kek, available, db, id, w, Some(0))
    ensures Unwrap(p, c, kek, available, db, id, w, None)
      == Unwrap(p, c, kek, available, db, id, w, Some(db.keys[id].currentVersion))
  {
    hide OpenWith, LoadVersion;
  }

  /** Unwrapping with a version that still holds the pair's private key. */
  lemma UnwrapsWhileHeld(p: Kem.Primitives, c: Crypto, root: Option<bytes>, db: Db, v: VersionId,
                         atGenerate: bool, atWrap: bool, atUnwrap: bool, priv: bytes, seed: bytes,
                         dataKey: bytes, x: Randomness, asked: Option<nat>)
    requires Kem.Lawful(p) && Aead.Lawful(c.gcm) && Sized(x) && |priv| == Kem.X25519_LEN && Consistent(db)
    requires var k := Kem.Generate(p, atGenerate, priv, seed);
      Holds(c, root, db, v, k.priv) && Wrap(p, c.gcm, atWrap, k.pub, k.suite, dataKey, x).Ok?
    requires v.0 in db.keys && db.keys[v.0].state == Enabled && db.keys[v.0].keyType == KemKey
    requires VersionToUse(asked, db.keys[v.0].currentVersion) == v.1
    ensures var k := Kem.Generate(p, atGenerate, priv, seed);
      var w := Wrap(p, c.gcm, atWrap, k.pub, k.suite, dataKey, x).value;
      Unwrap(p, c, root, atUnwrap, db, v.0, w, asked)
        == if atGenerate && atWrap && !atUnwrap then Err(WrapError.Kem(Kem.LiboqsMissing)) else Ok(dataKey)
  {
    hide Kem.Lawful, Aead.Lawful, Kem.Generate, Wrap, OpenWith, Consistent, SecretOf;
    CurrentJoins(db, v.0);
    assert v == (v.0, v.1);
    OpensWhatWasWrapped(p, c.gcm, atGenerate, atWrap, atUnwrap, priv, seed, dataKey, x);
  }

  /** An event of a run that stored the secret as version `v`: what it was before and after. */
  ghost predicate Stored(f: Cluster.World, s: Cluster.State, e: Cluster.Event, v: VersionId, secret: bytes) {
    && e.KeyEvent? && Stores(e.k, secret)
    && v !in s.keys.db.versions && v in Cluster.Step(f, s, e).keys.db.versions
  }

  /** Whatever the fleet does after the event, while the key exists its version holds the secret. */
  lemma StoredStays(f: Cluster.World, s: Cluster.State, events: seq<Cluster.Event>,
                    e: Cluster.Event, more: seq<Cluster.Event>, v: VersionId, secret: bytes)
    requires Cluster.Lawful(f) && Cluster.Initial(f, s) && Stored(f, Cluster.Run(f, s, events), e, v, secret)
    ensures var t := Cluster.Run(f, s, events + [e] + more);
      Cluster.Inv(f, t) && Holds(f.crypto, t.custody.root, t.keys.db, v, secret)
  {
    hide Cluster.Inv, Cluster.Initial, Cluster.Lawful, KeyRuns.Inv, Step, Holds, Extends;
    var s0 := Cluster.Run(f, s, events);
    var s1 := Cluster.Step(f, s0, e);
    Cluster.Reachable(f, s, events);
    if Cluster.KekOf(s0, e.replica).Some? {
      Cluster.UnlockedHoldRoot(f, s0, e.replica);
    }
    StoredIsHeldNow(f, s0, e, v, secret);
    Cluster.StepKeepsInv(f, s0, e);
    Cluster.RunConcat(f, s, events + [e], more);
    Cluster.RunConcat(f, s, events, [e]);
    Cluster.OneStep(f, s0, e);
    Cluster.RunKeepsInv(f, s1, more);
    var t := Cluster.Run(f, s1, more);
    BornWithVersion(f, s1, v);
    HoldsLater(f.crypto, s1.custody.root, s1.keys, t.keys, v, secret);
  }

  lemma StoredIsHeldNow(f: Cluster.World, s: Cluster.State, e: Cluster.Event, v: VersionId, secret: bytes)
    requires Cluster.Lawful(f) && Stored(f, s, e, v, secret)
    requires Cluster.KekOf(s, e.replica).Some? ==> Cluster.KekOf(s, e.replica) == s.custody.root
    ensures var s1 := Cluster.Step(f, s, e);
      Holds(f.crypto, s1.custody.root, s1.keys.db, v, secret) && s1.custody.root.Some?
  {
    hide Step, Holds, Aead.Lawful;
    StoredIsHeld(f.crypto, Cluster.KekOf(s, e.replica), s.custody.root, f.policy, s.keys, e.k, v, secret);
  }

  lemma BornWithVersion(f: Cluster.World, s: Cluster.State, v: VersionId)
    requires Cluster.Inv(f, s) && v in s.keys.db.versions
    ensures v.0 in s.keys.born
  {
    hide Custody.Inv;
    VersionAt(s.keys.db, v);
  }

  /**
    In every run of the fleet: a data key wrapped for a version that an event of the run
    created with a generated pair unwraps on every unlocked replica, after whatever
    follows, while the key exists and is enabled: when the version is passed, and without
    it while that version is current.
   */
  lemma WrappedKeyOutlivesRotations(p: Kem.Primitives, f: Cluster.World, s: Cluster.State, events: seq<Cluster.Event>,
                                    e: Cluster.Event, more: seq<Cluster.Event>, replica: nat, v: VersionId,
                                    atGenerate: bool, atWrap: bool, atUnwrap: bool, priv: bytes, seed: bytes,
                                    dataKey: bytes, x: Randomness, asked: Option<nat>)
    requires Kem.Lawful(p) && Cluster.Lawful(f) && Cluster.Initial(f, s) && Sized(x) && |priv| == Kem.X25519_LEN
    requires var k := Kem.Generate(p, atGenerate, priv, seed);
      && Stored(f, Cluster.Run(f, s, events), e, v, k.priv)
      && Wrap(p, f.crypto.gcm, atWrap, k.pub, k.suite, dataKey, x).Ok?
    requires var t := Cluster.Run(f, s, events + [e] + more);
      && Cluster.KekOf(t, replica).Some?
      && v.0 in t.keys.db.keys && t.keys.db.keys[v.0].state == Enabled && t.keys.db.keys[v.0].keyType == KemKey
      && VersionToUse(asked, t.keys.db.keys[v.0].currentVersion) == v.1
    ensures var k := Kem.Generate(p, atGenerate, priv, seed);
      var w := Wrap(p, f.crypto.gcm, atWrap, k.pub, k.suite, dataKey, x).value;
      var t := Cluster.Run(f, s, events + [e] + more);
      Unwrap(p, f.crypto, Cluster.KekOf(t, replica), atUnwrap, t.keys.db, v.0, w, asked)
        == if atGenerate && atWrap && !atUnwrap then Err(WrapError.Kem(Kem.LiboqsMissing)) else Ok(dataKey)
  {
    hide Kem.Lawful, Kem.Generate, Wrap, Unwrap, Aead.Lawful, Stored, Holds, Cluster.Run, Cluster.Initial, Cluster.Inv;
    var k := Kem.Generate(p, atGenerate, priv, seed);
    StoredStays(f, s, events, e, more, v, k.priv);
    var t := Cluster.Run(f, s, events + [e] + more);
    Cluster.UnlockedHoldRoot(f, t, replica);
    ConsistentTables(f, t);
    UnwrapsWhileHeld(p, f.crypto, t.custody.root, t.keys.db, v, atGenerate, atWrap, atUnwrap,
                     priv, seed, dataKey, x, asked);
  }

  lemma ConsistentTables(f: Cluster.World, s: Cluster.State)
    requires Cluster.Inv(f, s)
    ensures Consistent(s.keys.db)
  {
    hide Custody.Inv;
  }
}
