/**
  The Root KEK and the audit signing key: created once by whichever replica's insert
  lands first, sealed in one meta row, re-sealed when the custodian changes. Replicas
  interleave transaction by transaction, on fresh and on legacy databases.
 */
module Custody {
  import opened Bytes
  import opened Wrappers
  import opened Structs
  import opened Aead

  const META_SALT := "root_kek_salt"
  const META_WRAPPED_ROOT := "root_kek_wrapped"
  const META_CUSTODY := "root_kek_custody_v1"
  const META_SIGNING := "audit_signing_keypair_v1"
  const PASSPHRASE := "passphrase"

  type Meta = map<string, bytes>

  // ----------------------------------------------------------- custodians ----

  datatype Credential = Credential(backend: string, secret: bytes)

  /** Custody backends: sealing with a salt, unsealing, and the envelope made of legacy rows. */
  datatype Vault = Vault(sealer: (Credential, bytes, bytes) -> bytes,
                         unsealer: (Credential, bytes) -> Option<bytes>,
                         legacy: (bytes, bytes) -> bytes)

  function SealKek(v: Vault, cred: Credential, kek: bytes, salt: bytes): bytes {
    v.sealer(cred, kek, salt)
  }

  function UnsealKek(v: Vault, cred: Credential, envelope: bytes): Option<bytes> {
    v.unsealer(cred, envelope)
  }

  function LegacyEnvelope(v: Vault, salt: bytes, wrapped: bytes): bytes {
    v.legacy(salt, wrapped)
  }

  /** The sealing credential recovers the key; any other recovers it or is refused. */
  ghost predicate LawfulVault(v: Vault) {
    && (forall cred, kek, salt :: UnsealKek(v, cred, SealKek(v, cred, kek, salt)) == Some(kek))
    && (forall cred, cred', kek, salt ::
          UnsealKek(v, cred', SealKek(v, cred, kek, salt)).None?
          || UnsealKek(v, cred', SealKek(v, cred, kek, salt)) == Some(kek))
  }

  ghost predicate Seals(v: Vault, envelope: bytes, kek: bytes) {
    exists cred, salt :: envelope == SealKek(v, cred, kek, salt)
  }

  lemma UnsealsTo(v: Vault, envelope: bytes, kek: bytes, cred: Credential)
    requires LawfulVault(v) && Seals(v, envelope, kek)
    ensures UnsealKek(v, cred, envelope).None? || UnsealKek(v, cred, envelope) == Some(kek)
  {}

  // ------------------------------------------------------- the signing key ----

  datatype SigningKey = SigningKey(priv: bytes, pub: bytes, suite: nat)

  const SUITES: set<nat> := {1, 2, 10, 11, 20}

  /** "pqkms/audit-signing/v1" */
  const SIGNING_AAD: bytes := [112, 113, 107, 109, 115, 47, 97, 117, 100, 105, 116, 45,
                               115, 105, 103, 110, 105, 110, 103, 47, 118, 49]

  ghost predicate Packable(k: SigningKey) {
    k.suite in SUITES && |k.priv| < 0x1_0000_0000
  }

  /** Two bytes of suite, four of length, the private key, the public key. */
  function Pack(k: SigningKey): bytes
    requires k.suite < 0x1_0000 && |k.priv| < 0x1_0000_0000
  {
    U16(k.suite) + U32(|k.priv|) + k.priv + k.pub
  }

  function Parse(raw: bytes): Option<SigningKey> {
    if |raw| < 6 then None
    else
      var suite, privLen := GetU16(raw[..2]), GetU32(raw[2..6]);
      if suite !in SUITES then None
      else Some(SigningKey(Slice(raw, 6, 6 + privLen), if 6 + privLen <= |raw| then raw[6 + privLen..] else [], suite))
  }

  lemma ParsePack(k: SigningKey)
    requires Packable(k)
    ensures Parse(Pack(k)) == Some(k)
  {
    hide U16, U32, GetU16, GetU32;
    var raw := Pack(k);
    U16RoundTrip(k.suite);
    U32RoundTrip(|k.priv|);
    assert raw[..2] == U16(k.suite) && raw[2..6] == U32(|k.priv|);
    assert raw[6..6 + |k.priv|] == k.priv && raw[6 + |k.priv|..] == k.pub;
  }

  /** A row parses exactly if it has its six header bytes and names a known suite. */
  lemma Parses(raw: bytes)
    ensures Parse(raw).Some? <==> |raw| >= 6 && raw[0] == 0 && raw[1] in {1, 2, 10, 11, 20}
  {
    hide GetU32, Slice;
  }

  /** The stored bytes of a key whose private part has fewer than 65536 bytes. */
  lemma PackLayout(k: SigningKey)
    requires k.suite in SUITES && |k.priv| < 0x1_0000
    ensures Pack(k)
         == [0, k.suite as byte, 0, 0, (|k.priv| / 0x100) as byte, (|k.priv| % 0x100) as byte] + k.priv + k.pub
  {
    BigEndian(0, k.suite as byte, 0, 0);
    BigEndian(0, 0, (|k.priv| / 0x100) as byte, (|k.priv| % 0x100) as byte);
  }

  // -------------------------------------------------------- state and steps ----

  /** Where a replica stands between two of its transactions. */
  datatype Pc =
    | Ready
    | Bootstrapping(kek: bytes, envelope: bytes)   // initialize, after its check
    | LoadingCustody                               // _load_envelope, first read
    | LoadingSalt
    | LoadingWrapped(salt: Option<bytes>)
    | Publishing(key: SigningKey, blob: bytes)     // signing key generated, not yet inserted
    | Adopting                                     // signing key insert lost

  datatype Replica = Replica(cred: Credential, kek: Option<bytes>, signing: Option<SigningKey>, pc: Pc)

  /** `root` and `pair` record which keys landed: bookkeeping for the proofs only. */
  datatype System = System(meta: Meta, replicas: map<nat, Replica>, root: Option<bytes>, pair: Option<SigningKey>)

  datatype Event =
    | Start(r: nat, cred: Credential)
    | Initialize(r: nat, newKek: bytes, salt: bytes)
    | PutEnvelope(r: nat)
    | Unlock(r: nat)
    | Load(r: nat)
    | Rewrap(r: nat, newCred: Credential, salt: bytes)
    | LoadSigning(r: nat, generated: SigningKey, nonce: bytes)
    | PutSigning(r: nat)
    | AdoptSigning(r: nat)

  predicate IsInitialized(meta: Meta) {
    META_CUSTODY in meta || META_WRAPPED_ROOT in meta
  }

  function Lookup(meta: Meta, k: string): Option<bytes> {
    if k in meta then Some(meta[k]) else None
  }

  /** Reading the stored signing key: the row, unwrapped under the Root KEK, parsed. */
  function StoredSigning(g: Gcm, kek: bytes, row: bytes): Option<SigningKey> {
    match Open(g, kek, row, SIGNING_AAD)
    case None => None
    case Some(raw) => Parse(raw)
  }

  function LoadStep(v: Vault, meta: Meta, p: Replica): Replica {
    match p.pc
    case LoadingCustody =>
      if META_CUSTODY in meta then p.(kek := Unlocked(p.kek, UnsealKek(v, p.cred, meta[META_CUSTODY])), pc := Ready)
      else p.(pc := LoadingSalt)
    case LoadingSalt => p.(pc := LoadingWrapped(Lookup(meta, META_SALT)))
    case LoadingWrapped(salt) =>
      var wrapped := Lookup(meta, META_WRAPPED_ROOT);
      if salt.None? || wrapped.None? || p.cred.backend != PASSPHRASE then p.(pc := Ready)
      else p.(kek := Unlocked(p.kek, UnsealKek(v, p.cred, LegacyEnvelope(v, salt.value, wrapped.value))), pc := Ready)
    case _ => p
  }

  /** A refused credential raises and leaves the field as it was. */
  function Unlocked(before: Option<bytes>, result: Option<bytes>): Option<bytes> {
    if result.Some? then result else before
  }

  function Step(v: Vault, g: Gcm, s: System, e: Event): System {
    if e.Start? then s.(replicas := s.replicas[e.r := Replica(e.cred, None, None, Ready)])
    else if e.r !in s.replicas then s
    else
      var p := s.replicas[e.r];
      match e
      case Initialize(r, newKek, salt) =>
        if !p.pc.Ready? || IsInitialized(s.meta) || |newKek| != KEY_LEN then s
        else s.(replicas := s.replicas[r := p.(pc := Bootstrapping(newKek, SealKek(v, p.cred, newKek, salt)))])
      case PutEnvelope(r) =>
        if !p.pc.Bootstrapping? then s
        else if META_CUSTODY in s.meta then s.(replicas := s.replicas[r := p.(pc := LoadingCustody)])
        else s.(meta := s.meta[META_CUSTODY := p.pc.envelope], root := Some(p.pc.kek),
                replicas := s.replicas[r := p.(kek := Some(p.pc.kek), pc := Ready)])
      case Unlock(r) =>
        if !p.pc.Ready? || !IsInitialized(s.meta) then s
        else s.(replicas := s.replicas[r := p.(pc := LoadingCustody)])
      case Load(r) => s.(replicas := s.replicas[r := LoadStep(v, s.meta, p)])
      case Rewrap(r, newCred, salt) =>
        if !p.pc.Ready? || p.kek.None? then s
        else s.(meta := s.meta[META_CUSTODY := SealKek(v, newCred, p.kek.value, salt)])
      case LoadSigning(r, generated, nonce) =>
        if !p.pc.Ready? || p.kek.None? then s
        else if META_SIGNING in s.meta then
          s.(replicas := s.replicas[r := p.(signing := StoredSigning(g, p.kek.value, s.meta[META_SIGNING]))])
        else if generated.suite !in SUITES || |generated.priv| >= 0x1_0000_0000 || |nonce| != NONCE_LEN then s
        else (
          match Seal(g, p.kek.value, nonce, Pack(generated), SIGNING_AAD)
          case None => s
          case Some(blob) => s.(replicas := s.replicas[r := p.(pc := Publishing(generated, blob))])
        )
      case PutSigning(r) =>
        if !p.pc.Publishing? then s
        else if META_SIGNING in s.meta then s.(replicas := s.replicas[r := p.(pc := Adopting)])
        else s.(meta := s.meta[META_SIGNING := p.pc.blob], pair := Some(p.pc.key),
                replicas := s.replicas[r := p.(signing := Some(p.pc.key), pc := Ready)])
      case AdoptSigning(r) =>
        if !p.pc.Adopting? || p.kek.None? || META_SIGNING !in s.meta then s
        else
          var found := StoredSigning(g, p.kek.value, s.meta[META_SIGNING]);
          s.(replicas := s.replicas[r := p.(signing := found, pc := Ready)])
  }

  function Run(v: Vault, g: Gcm, s: System, events: seq<Event>): System
    decreases |events|
  {
    if events == [] then s else Run(v, g, Step(v, g, s, events[0]), events[1..])
  }

  // ------------------------------------------------------------ invariant ----

  ghost predicate LegacySeals(v: Vault, meta: Meta, kek: bytes) {
    && META_SALT in meta && META_WRAPPED_ROOT in meta
    && Seals(v, LegacyEnvelope(v, meta[META_SALT], meta[META_WRAPPED_ROOT]), kek)
  }

  /** The rows that can unlock the store seal the root key, and there is one exactly if a key landed. */
  ghost predicate MetaSeals(v: Vault, meta: Meta, root: Option<bytes>) {
    && (root.Some? <==> IsInitialized(meta))
    && (META_SALT in meta <==> META_WRAPPED_ROOT in meta)
    && (META_CUSTODY in meta ==> root.Some? && Seals(v, meta[META_CUSTODY], root.value))
    && (META_WRAPPED_ROOT in meta ==> root.Some? && LegacySeals(v, meta, root.value))
  }

  ghost predicate MetaSigning(g: Gcm, meta: Meta, root: Option<bytes>, pair: Option<SigningKey>) {
    && (pair.Some? <==> META_SIGNING in meta)
    && (pair.Some? ==> root.Some? && StoredSigning(g, root.value, meta[META_SIGNING]) == pair)
  }

  ghost predicate ReplicaOk(v: Vault, g: Gcm, s: System, p: Replica) {
    && (p.kek.Some? ==> p.kek == s.root)
    && (p.signing.Some? ==> p.signing == s.pair)
    && match p.pc
       case Bootstrapping(kek, envelope) =>
         |kek| == KEY_LEN && Seals(v, envelope, kek) && META_WRAPPED_ROOT !in s.meta
       case LoadingWrapped(salt) => salt.Some? ==> META_SALT in s.meta && salt.value == s.meta[META_SALT]
       case Publishing(key, blob) => s.root.Some? && StoredSigning(g, s.root.value, blob) == Some(key)
       case _ => true
  }

  ghost predicate Inv(v: Vault, g: Gcm, s: System) {
    && MetaSeals(v, s.meta, s.root)
    && MetaSigning(g, s.meta, s.root, s.pair)
    && (s.root.Some? ==> |s.root.value| == KEY_LEN)
    && (forall r :: r in s.replicas ==> ReplicaOk(v, g, s, s.replicas[r]))
  }

  /** Keys that have landed stay. */
  ghost predicate Keeps(s: System, s': System) {
    && (s.root.Some? ==> s'.root == s.root)
    && (s.pair.Some? ==> s'.pair == s.pair)
    && (META_SALT in s.meta <==> META_SALT in s'.meta)
    && (META_SALT in s.meta ==> s'.meta[META_SALT] == s.meta[META_SALT])
    && (META_WRAPPED_ROOT in s.meta <==> META_WRAPPED_ROOT in s'.meta)
  }

  lemma ReplicaLater(v: Vault, g: Gcm, s: System, s': System, p: Replica)
    requires ReplicaOk(v, g, s, p) && Keeps(s, s')
    ensures ReplicaOk(v, g, s', p)
  {}

  lemma LoadKeepsReplica(v: Vault, g: Gcm, s: System, p: Replica)
    requires LawfulVault(v) && MetaSeals(v, s.meta, s.root) && ReplicaOk(v, g, s, p)
    ensures ReplicaOk(v, g, s, LoadStep(v, s.meta, p))
  {
    if p.pc.LoadingCustody? && META_CUSTODY in s.meta {
      UnsealsTo(v, s.meta[META_CUSTODY], s.root.value, p.cred);
    }
    if p.pc.LoadingWrapped? && p.pc.salt.Some? && META_WRAPPED_ROOT in s.meta {
      UnsealsTo(v, LegacyEnvelope(v, p.pc.salt.value, s.meta[META_WRAPPED_ROOT]), s.root.value, p.cred);
    }
  }

  lemma PackedSigningLoads(g: Gcm, kek: bytes, nonce: bytes, k: SigningKey)
    requires Lawful(g) && |kek| == KEY_LEN && |nonce| == NONCE_LEN && Packable(k)
    ensures Seal(g, kek, nonce, Pack(k), SIGNING_AAD).Some?
    ensures StoredSigning(g, kek, Seal(g, kek, nonce, Pack(k), SIGNING_AAD).value) == Some(k)
  {
    hide Seal, Open, Pack, Parse;
    OpenSeal(g, kek, nonce, Pack(k), SIGNING_AAD);
    ParsePack(k);
  }

  lemma StepKeepsMeta(v: Vault, g: Gcm, s: System, e: Event)
    requires LawfulVault(v) && Lawful(g) && Inv(v, g, s)
    ensures var s' := Step(v, g, s, e);
      && MetaSeals(v, s'.meta, s'.root) && MetaSigning(g, s'.meta, s'.root, s'.pair)
      && (s'.root.Some? ==> |s'.root.value| == KEY_LEN) && Keeps(s, s')
  {
    hide StoredSigning, LoadStep, LawfulVault, Lawful, Seal, Pack, Seals;
    if e.r in s.replicas {
      var p := s.replicas[e.r];
      assert ReplicaOk(v, g, s, p);
      if e.Rewrap? && p.kek.Some? {
        SealsOwn(v, e.newCred, p.kek.value, e.salt);
      }
    }
  }

  lemma StepKeepsOwn(v: Vault, g: Gcm, s: System, e: Event)
    requires LawfulVault(v) && Lawful(g) && Inv(v, g, s) && Keeps(s, Step(v, g, s, e))
    ensures var s' := Step(v, g, s, e); e.r in s'.replicas ==> ReplicaOk(v, g, s', s'.replicas[e.r])
  {
    hide StoredSigning, LoadStep, LawfulVault, Lawful, Seal, Pack, Seals;
    if e.r in s.replicas {
      var p := s.replicas[e.r];
      assert ReplicaOk(v, g, s, p);
      match e {
        case Initialize(_, newKek, salt) => SealsOwn(v, p.cred, newKek, salt);
        case Load(_) => LoadKeepsReplica(v, g, s, p);
        case Rewrap(_, newCred, salt) =>
          if p.kek.Some? {
            SealsOwn(v, newCred, p.kek.value, salt);
          }
        case LoadSigning(_, generated, nonce) =>
          if p.kek.Some? && generated.suite in SUITES && |generated.priv| < 0x1_0000_0000 && |nonce| == NONCE_LEN {
            PackedSigningLoads(g, p.kek.value, nonce, generated);
          }
        case _ =>
      }
    }
  }

  lemma StepKeepsInv(v: Vault, g: Gcm, s: System, e: Event)
    requires LawfulVault(v) && Lawful(g) && Inv(v, g, s)
    ensures Inv(v, g, Step(v, g, s, e)) && Keeps(s, Step(v, g, s, e))
  {
    hide LawfulVault, Lawful, Keeps, ReplicaOk, MetaSeals, MetaSigning, LoadStep;
    StepKeepsMeta(v, g, s, e);
    StepKeepsOwn(v, g, s, e);
    var s' := Step(v, g, s, e);
    forall r | r in s'.replicas
      ensures ReplicaOk(v, g, s', s'.replicas[r])
    {
      if r != e.r {
        ReplicaLater(v, g, s, s', s.replicas[r]);
      }
    }
  }

  lemma SealsOwn(v: Vault, cred: Credential, kek: bytes, salt: bytes)
    ensures Seals(v, SealKek(v, cred, kek, salt), kek)
  {}

  lemma {:induction false} RunKeepsInv(v: Vault, g: Gcm, s: System, events: seq<Event>)
    requires LawfulVault(v) && Lawful(g) && Inv(v, g, s)
    ensures Inv(v, g, Run(v, g, s, events)) && Keeps(s, Run(v, g, s, events))
    decreases |events|
  {
    hide Inv, Step;
    if events != [] {
      StepKeepsInv(v, g, s, events[0]);
      RunKeepsInv(v, g, Step(v, g, s, events[0]), events[1..]);
    }
  }

  // ----------------------------------------------------------- agreement ----

  /** A database before any replica has started: empty, or with the legacy rows sealing one key. */
  ghost predicate Initial(v: Vault, s: System) {
    && s.replicas == map[] && s.pair.None?
    && (s.root.None? ==> s.meta == map[])
    && (s.root.Some? ==> |s.root.value| == KEY_LEN && s.meta.Keys == {META_SALT, META_WRAPPED_ROOT})
    && (s.root.Some? ==> LegacySeals(v, s.meta, s.root.value))
  }

  /** The envelope that loading selects when nobody interferes. */
  function SelectedEnvelope(v: Vault, meta: Meta): Option<bytes> {
    if META_CUSTODY in meta then Some(meta[META_CUSTODY])
    else if META_SALT in meta && META_WRAPPED_ROOT in meta then
      Some(LegacyEnvelope(v, meta[META_SALT], meta[META_WRAPPED_ROOT]))
    else None
  }

  /**
    However replicas interleave their bootstraps, unlocks, re-seals and restarts: all
    that are unlocked hold one Root KEK, the selected envelope seals it, and all that
    loaded an audit signing key hold the same one.
   */
  lemma OneRootKek(v: Vault, g: Gcm, s: System, events: seq<Event>, a: nat, b: nat)
    requires LawfulVault(v) && Lawful(g) && Initial(v, s)
    requires a in Run(v, g, s, events).replicas && b in Run(v, g, s, events).replicas
    ensures var t := Run(v, g, s, events); var p, q := t.replicas[a], t.replicas[b];
      && (p.kek.Some? && q.kek.Some? ==> p.kek == q.kek)
      && (p.signing.Some? && q.signing.Some? ==> p.signing == q.signing)
      && (p.kek.Some? ==> SelectedEnvelope(v, t.meta).Some? && Seals(v, SelectedEnvelope(v, t.meta).value, p.kek.value))
  {
    hide Step;
    RunKeepsInv(v, g, s, events);
    var t := Run(v, g, s, events);
    assert ReplicaOk(v, g, t, t.replicas[a]) && ReplicaOk(v, g, t, t.replicas[b]);
  }

  /** A replica that restarts with the credential of the selected envelope gets the same key back. */
  lemma RestartUnlocks(v: Vault, g: Gcm, s: System, r: nat, cred: Credential, salt: bytes)
    requires LawfulVault(v) && Inv(v, g, s) && s.root.Some?
    requires SelectedEnvelope(v, s.meta) == Some(SealKek(v, cred, s.root.value, salt))
    requires META_CUSTODY !in s.meta ==> cred.backend == PASSPHRASE
    ensures var t := Run(v, g, s, [Start(r, cred), Unlock(r), Load(r), Load(r), Load(r)]);
      t.meta == s.meta && r in t.replicas && t.replicas[r].kek == s.root
  {
    hide Seals, MetaSigning, ReplicaOk, StoredSigning;
    var s1 := Step(v, g, s, Start(r, cred));
    var s2 := Step(v, g, s1, Unlock(r));
    var s3 := Step(v, g, s2, Load(r));
    var s4 := Step(v, g, s3, Load(r));
    var s5 := Step(v, g, s4, Load(r));
    RunFive(v, g, s, Start(r, cred), Unlock(r), Load(r), Load(r), Load(r));
  }

  lemma RunFive(v: Vault, g: Gcm, s: System, a: Event, b: Event, c: Event, d: Event, e: Event)
    ensures Run(v, g, s, [a, b, c, d, e])
         == Step(v, g, Step(v, g, Step(v, g, Step(v, g, Step(v, g, s, a), b), c), d), e)
  {
    hide Step;
    assert [a, b, c, d, e][1..] == [b, c, d, e] && [b, c, d, e][1..] == [c, d, e];
    assert [c, d, e][1..] == [d, e] && [d, e][1..] == [e] && [e][1..] == [];
    var s2 := Step(v, g, Step(v, g, s, a), b);
    assert Run(v, g, s2, [c, d, e]) == Run(v, g, Step(v, g, s2, c), [d, e]);
    var s4 := Step(v, g, Step(v, g, s2, c), d);
    assert Run(v, g, s4, [e]) == Run(v, g, Step(v, g, s4, e), []);
  }

  // ------------------------------------------------------ undisturbed calls ----

  lemma RunTwo(v: Vault, g: Gcm, s: System, a: Event, b: Event)
    ensures Run(v, g, s, [a, b]) == Step(v, g, Step(v, g, s, a), b)
  {
    hide Step;
    assert [a, b][1..] == [b] && [b][1..] == [];
    assert Run(v, g, Step(v, g, Step(v, g, s, a), b), []) == Step(v, g, Step(v, g, s, a), b);
  }

  /** First boot without a rival: the replica holds its new key, sealed under its credential. */
  lemma FirstBoot(v: Vault, g: Gcm, s: System, r: nat, newKek: bytes, salt: bytes)
    requires r in s.replicas && s.replicas[r].pc.Ready? && !IsInitialized(s.meta) && |newKek| == KEY_LEN
    ensures var t := Run(v, g, s, [Initialize(r, newKek, salt), PutEnvelope(r)]);
      && r in t.replicas && t.replicas[r].kek == Some(newKek)
      && t.meta == s.meta[META_CUSTODY := SealKek(v, s.replicas[r].cred, newKek, salt)]
  {
    RunTwo(v, g, s, Initialize(r, newKek, salt), PutEnvelope(r));
  }

  /** The loser of the race adopts the key that landed, if its credential unseals it. */
  lemma LostBoot(v: Vault, g: Gcm, s: System, r: nat)
    requires r in s.replicas && s.replicas[r].pc.Bootstrapping? && META_CUSTODY in s.meta
    requires UnsealKek(v, s.replicas[r].cred, s.meta[META_CUSTODY]).Some?
    ensures var t := Run(v, g, s, [PutEnvelope(r), Load(r)]);
      t.meta == s.meta && r in t.replicas && t.replicas[r].kek == UnsealKek(v, s.replicas[r].cred, s.meta[META_CUSTODY])
  {
    RunTwo(v, g, s, PutEnvelope(r), Load(r));
  }

  /** A refused credential leaves the key that was held; only a restart gives it up. */
  lemma HeldKeysStay(v: Vault, g: Gcm, s: System, e: Event, r: nat)
    requires r in s.replicas && s.replicas[r].kek.Some? && !(e.Start? && e.r == r)
    ensures r in Step(v, g, s, e).replicas && Step(v, g, s, e).replicas[r].kek.Some?
  {
    hide StoredSigning, Seal, Pack;
  }

  /** After a re-seal the new credential gets a restarted replica the same key. */
  lemma ResealedUnlocks(v: Vault, g: Gcm, s: System, r: nat, newCred: Credential, salt: bytes)
    requires LawfulVault(v) && Lawful(g) && Inv(v, g, s)
    requires r in s.replicas && s.replicas[r].pc.Ready? && s.replicas[r].kek.Some?
    ensures var s1 := Step(v, g, s, Rewrap(r, newCred, salt));
      var t := Run(v, g, s1, [Start(r, newCred), Unlock(r), Load(r), Load(r), Load(r)]);
      r in t.replicas && t.replicas[r].kek == s.replicas[r].kek
  {
    hide Run;
    var s1 := Step(v, g, s, Rewrap(r, newCred, salt));
    assert ReplicaOk(v, g, s, s.replicas[r]);
    StepKeepsInv(v, g, s, Rewrap(r, newCred, salt));
    hide Inv;
    RestartUnlocks(v, g, s1, r, newCred, salt);
  }

  /** An unlocked replica gets the stored audit signing key, or publishes the one it generated. */
  lemma SigningKeyLoads(v: Vault, g: Gcm, s: System, r: nat, generated: SigningKey, nonce: bytes)
    requires LawfulVault(v) && Lawful(g) && Inv(v, g, s)
    requires r in s.replicas && s.replicas[r].pc.Ready? && s.replicas[r].kek.Some?
    ensures META_SIGNING in s.meta ==> s.pair.Some?
    ensures META_SIGNING in s.meta ==> Step(v, g, s, LoadSigning(r, generated, nonce)).replicas[r].signing == s.pair
    ensures META_SIGNING !in s.meta && Packable(generated) && |nonce| == NONCE_LEN ==>
      var t := Run(v, g, s, [LoadSigning(r, generated, nonce), PutSigning(r)]);
      && r in t.replicas && t.replicas[r].signing == Some(generated) && t.pair == Some(generated)
      && META_SIGNING in t.meta && Seal(g, s.replicas[r].kek.value, nonce, Pack(generated),
           [112, 113, 107, 109, 115, 47, 97, 117, 100, 105, 116, 45,
            115, 105, 103, 110, 105, 110, 103, 47, 118, 49]) == Some(t.meta[META_SIGNING])
  {
    hide StoredSigning, Seal, Pack, MetaSeals, Lawful, LawfulVault;
    assert ReplicaOk(v, g, s, s.replicas[r]);
    RunTwo(v, g, s, LoadSigning(r, generated, nonce), PutSigning(r));
    if Packable(generated) && |nonce| == NONCE_LEN {
      PackedSigningLoads(g, s.replicas[r].kek.value, nonce, generated);
    }
  }
}
