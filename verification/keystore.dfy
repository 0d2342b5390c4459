/**
  The key store of one replica: its Root KEK, and the calls that combine repository
  transactions, here without interference. What holds when calls interleave is the
  subject of the run models.
 */
module KeyStores {
  import opened Bytes
  import opened Wrappers
  import opened KeyDb
  import opened KeyRuns
  import opened Repositories
  import Aead
  import Base64
  import Custody
  import Lifecycle
  import Structs

  datatype StoreError =
    | AlreadyInitialized
    | NotInitialized
    | BadCredential
    | SealFailed
    | Refused(why: Lifecycle.LifecycleError)
    | Failed(op: OpError)
    | Database(violation: DbError)

  class KeyStore {
    const repo: Repository
    const cred: Custody.Credential
    const policy: Policy
    var rootKek: Option<bytes>

    constructor (repo: Repository, cred: Custody.Credential, policy: Policy)
      ensures this.repo == repo && this.cred == cred && this.policy == policy && rootKek == None
    {
      this.repo, this.cred, this.policy, this.rootKek := repo, cred, policy, None;
    }

    // -------------------------------------------------- bootstrap and unlock ----

    /** The selected envelope: the custody row, else one made of the legacy rows for a passphrase. */
    method LoadEnvelope(v: Custody.Vault) returns (r: Option<bytes>)
      ensures r == LoadableEnvelope(v, cred, repo.meta)
    {
      var raw := repo.GetMeta(Custody.META_CUSTODY);
      if raw.Some? {
        return raw;
      }
      var salt := repo.GetMeta(Custody.META_SALT);
      var wrapped := repo.GetMeta(Custody.META_WRAPPED_ROOT);
      if salt.None? || wrapped.None? || cred.backend != Custody.PASSPHRASE {
        return None;
      }
      return Some(Custody.LegacyEnvelope(v, salt.value, wrapped.value));
    }

    method Unlock(v: Custody.Vault) returns (r: Result<(), StoreError>)
      modifies this
      ensures !Custody.IsInitialized(repo.meta) ==> r == Err(NotInitialized)
      ensures r.Err? ==> rootKek == old(rootKek)
      ensures r.Ok? <==> Unlockable(v, cred, repo.meta)
      ensures r.Ok? ==> rootKek == Custody.UnsealKek(v, cred, Custody.SelectedEnvelope(v, repo.meta).value)
      ensures Custody.META_CUSTODY !in repo.meta && cred.backend != "passphrase" ==> r == Err(NotInitialized)
      ensures r == Err(BadCredential) <==> LoadableEnvelope(v, cred, repo.meta).Some? && !Unlockable(v, cred, repo.meta)
    {
      if !Custody.IsInitialized(repo.meta) {
        return Err(NotInitialized);
      }
      var envelope := LoadEnvelope(v);
      if envelope.None? {
        return Err(NotInitialized);
      }
      var kek := Custody.UnsealKek(v, cred, envelope.value);
      if kek.None? {
        return Err(BadCredential);
      }
      rootKek := kek;
      return Ok(());
    }

    /**
      First boot. `rival` is the envelope that another replica inserted after the check,
      if one did: the loser discards its own key and adopts the one that landed.
     */
    method Initialize(v: Custody.Vault, newKek: bytes, salt: bytes, rival: Option<bytes>)
      returns (r: Result<(), StoreError>)
      requires Custody.LawfulVault(v)
      requires rival.Some? ==> exists k :: Custody.Seals(v, rival.value, k)
      modifies this, repo`meta
      ensures r.Err? ==> rootKek == old(rootKek)
      ensures old(Custody.IsInitialized(repo.meta)) ==> r == Err(AlreadyInitialized) && repo.meta == old(repo.meta)
      ensures !old(Custody.IsInitialized(repo.meta)) ==>
        repo.meta == old(repo.meta)[Custody.META_CUSTODY := rival.GetOr(Custody.SealKek(v, cred, newKek, salt))]
      ensures !old(Custody.IsInitialized(repo.meta)) && rival.None? ==> r.Ok? && rootKek == Some(newKek)
      ensures !old(Custody.IsInitialized(repo.meta)) && rival.Some? ==>
        (r.Ok? <==> Custody.UnsealKek(v, cred, rival.value).Some?)
      ensures r.Ok? && rival.Some? ==>
        rootKek == Custody.UnsealKek(v, cred, rival.value) && Custody.Seals(v, rival.value, rootKek.value)
    {
      if Custody.IsInitialized(repo.meta) {
        return Err(AlreadyInitialized);
      }
      var envelope := Custody.SealKek(v, cred, newKek, salt);
      if rival.Some? {
        var _ := repo.PutMeta(Custody.META_CUSTODY, rival.value, true);
      }
      var landed := repo.PutMeta(Custody.META_CUSTODY, envelope, true);
      if landed == Ok(true) {
        rootKek := Some(newKek);
        return Ok(());
      }
      var selected := LoadEnvelope(v);
      var kek := Custody.UnsealKek(v, cred, selected.value);
      if kek.None? {
        return Err(BadCredential);
      }
      rootKek := kek;
      return Ok(());
    }

    /** Re-seals the key that is held; the key itself and all key tables stay. */
    method RewrapRootKek(v: Custody.Vault, newCred: Custody.Credential, salt: bytes) returns (r: Result<(), StoreError>)
      requires Custody.LawfulVault(v)
      modifies repo`meta
      ensures rootKek.None? ==> r == Err(Failed(Locked)) && repo.meta == old(repo.meta)
      ensures rootKek.Some? ==> r.Ok? && Custody.SelectedEnvelope(v, repo.meta).Some?
      ensures rootKek.Some? ==> Custody.UnsealKek(v, newCred, Custody.SelectedEnvelope(v, repo.meta).value) == rootKek
      ensures forall k :: k != Custody.META_CUSTODY ==>
        Custody.Lookup(repo.meta, k) == Custody.Lookup(old(repo.meta), k)
    {
      if rootKek.None? {
        return Err(Failed(Locked));
      }
      repo.SetMeta(Custody.META_CUSTODY, Custody.SealKek(v, newCred, rootKek.value, salt));
      return Ok(());
    }

    // ------------------------------------------------------------- lifecycle ----

    method DisableKey(id: string, now: int) returns (r: Result<(), StoreError>)
      modifies repo`managedKeys
      ensures Refines(old(repo.Tables()), Lifecycle.Disable(id), now, r, repo.Tables())
    {
      var key := repo.KeyCurrent(id);
      if key.None? {
        return Err(Refused(Lifecycle.KeyMissing));
      }
      var _ := repo.SetState(id, Disabled, None);
      return Ok(());
    }

    method EnableKey(id: string, now: int) returns (r: Result<(), StoreError>)
      modifies repo`managedKeys
      ensures Refines(old(repo.Tables()), Lifecycle.Enable(id), now, r, repo.Tables())
    {
      var key := repo.KeyCurrent(id);
      if key.None? {
        return Err(Refused(Lifecycle.KeyMissing));
      }
      if key.value.state == PendingDeletion {
        return Err(Refused(Lifecycle.BadState));
      }
      var _ := repo.SetState(id, Enabled, None);
      return Ok(());
    }

    method ScheduleDeletion(id: string, windowDays: int, now: int) returns (r: Result<(), StoreError>)
      modifies repo`managedKeys
      ensures Refines(old(repo.Tables()), Lifecycle.Schedule(id, windowDays), now, r, repo.Tables())
    {
      var key := repo.KeyCurrent(id);
      if key.None? {
        return Err(Refused(Lifecycle.KeyMissing));
      }
      if windowDays < 0 {
        return Err(Refused(Lifecycle.BadWindow));
      }
      var deletionAt := now + windowDays * Lifecycle.DAY;
      var _ := repo.SetState(id, PendingDeletion, Some(deletionAt));
      return Ok(());
    }

    method CancelDeletion(id: string, now: int) returns (r: Result<(), StoreError>)
      modifies repo`managedKeys
      ensures Refines(old(repo.Tables()), Lifecycle.Cancel(id), now, r, repo.Tables())
    {
      var key := repo.KeyCurrent(id);
      if key.None? {
        return Err(Refused(Lifecycle.KeyMissing));
      }
      if key.value.state != PendingDeletion {
        return Err(Refused(Lifecycle.BadState));
      }
      var _ := repo.SetState(id, Disabled, None);
      return Ok(());
    }

    method DestroyKey(id: string, force: bool, now: int) returns (r: Result<(), StoreError>)
      modifies repo`managedKeys, repo`keyVersions
      ensures Refines(old(repo.Tables()), Lifecycle.Destroy(id, force), now, r, repo.Tables())
    {
      var key := repo.KeyCurrent(id);
      if key.None? {
        return Err(Refused(Lifecycle.KeyMissing));
      }
      if !force {
        if key.value.state != PendingDeletion {
          return Err(Refused(Lifecycle.BadState));
        }
        if key.value.deletionAt.None? || now < key.value.deletionAt.value {
          return Err(Refused(Lifecycle.WindowOpen));
        }
      }
      var _ := repo.Destroy(id);
      return Ok(());
    }

    // -------------------------------------------------- versions and rotation ----

    /** Version 1 of a new key, its secret wrapped under the Root KEK. */
    method CreateKey(c: Crypto, id: string, name: string, keyType: KeyType, m: Material, now: int)
      returns (r: Result<(), StoreError>)
      modifies repo`managedKeys, repo`keyVersions
      ensures rootKek.None? ==> r == Err(Failed(Locked))
      ensures r.Err? ==> repo.Tables() == old(repo.Tables())
      ensures r.Ok? ==> WrapVersion(c, rootKek, (id, 1), m.suite, m.secret, m.nonce, now).Some?
      ensures r.Ok? ==> KeyDb.CreateKey(old(repo.Tables()), id, KeyRow(name, keyType, 1, Enabled, None, None),
          WrapVersion(c, rootKek, (id, 1), m.suite, m.secret, m.nonce, now).value) == Ok(repo.Tables())
      ensures r.Ok? && Aead.Lawful(c.gcm) ==> LoadVersion(c, rootKek, repo.Tables(), (id, 1)) == Ok(m.secret)
      ensures r.Ok? ==> repo.managedKeys == old(repo.managedKeys)[id := KeyRow(name, keyType, 1, Enabled, None, None)]
      ensures r.Ok? ==> repo.keyVersions.Keys == old(repo.keyVersions).Keys + {(id, 1)}
      ensures r.Ok? ==> FreshVersion(repo.Tables(), (id, 1), m.suite, now)
      ensures CreationIsPossible(rootKek, old(repo.Tables()), id, name, m) ==> r.Ok?
    {
      if rootKek.None? {
        return Err(Failed(Locked));
      }
      var version := WrapVersion(c, rootKek, (id, 1), m.suite, m.secret, m.nonce, now);
      if version.None? {
        return Err(SealFailed);
      }
      var stored := repo.CreateKeyWithVersion(id, KeyRow(name, keyType, 1, Enabled, None, None), version.value);
      if stored.Err? {
        return Err(Database(stored.error));
      }
      if Aead.Lawful(c.gcm) {
        WrapUnwraps(c, rootKek, (id, 1), m.suite, m.secret, m.nonce, now);
      }
      return Ok(());
    }

    /** A new current version; a constraint violation leaves the tables as they were. */
    method Rotate(c: Crypto, id: string, m: Material, now: int) returns (r: Result<(), StoreError>)
      modifies repo`managedKeys, repo`keyVersions
      ensures rootKek.None? ==> r == Err(Failed(Locked))
      ensures rootKek.Some? && old(GetKeyCurrent(repo.Tables(), id)).None? ==> r == Err(Failed(KeyMissing))
      ensures r.Err? ==> repo.Tables() == old(repo.Tables())
      ensures r.Ok? ==> RotatesTo(c, rootKek, old(repo.Tables()), id, m, now, repo.Tables())
      ensures r.Ok? ==> var cv := old(repo.Tables()).keys[id].currentVersion;
        && repo.managedKeys == old(repo.managedKeys)[id := old(repo.managedKeys)[id].(currentVersion := cv + 1)]
        && FreshVersion(repo.Tables(), (id, cv + 1), m.suite, now)
        && (Aead.Lawful(c.gcm) ==> LoadVersion(c, rootKek, repo.Tables(), (id, cv + 1)) == Ok(m.secret))
      ensures RotationIsPossible(rootKek, old(repo.Tables()), id, m) ==> r.Ok?
    {
      if rootKek.None? {
        return Err(Failed(Locked));
      }
      var key := repo.KeyCurrent(id);
      if key.None? {
        CurrentJoinsIfConsistent(repo.Tables(), id);
        return Err(Failed(KeyMissing));
      }
      var cv := key.value.currentVersion;
      var version := WrapVersion(c, rootKek, (id, cv + 1), m.suite, m.secret, m.nonce, now);
      if version.None? {
        return Err(SealFailed);
      }
      var stored := repo.Rotate(id, cv, version.value, cv + 1);
      if stored.Err? {
        NextVersionFreeIfConsistent(repo.Tables(), id);
        return Err(Database(stored.error));
      }
      if Aead.Lawful(c.gcm) {
        WrapUnwraps(c, rootKek, (id, cv + 1), m.suite, m.secret, m.nonce, now);
      }
      return Ok(());
    }

    /** The enabled keys whose period has elapsed since their current version was created. */
    method RotationDue(now: int) returns (due: seq<string>)
      ensures forall id :: id in due <==> Due(repo.Tables(), id, now)
      ensures forall id :: id in due ==> id in repo.managedKeys && repo.managedKeys[id].state == Enabled
      ensures forall id :: id in due ==> repo.managedKeys[id].rotationDays.Some?
      ensures forall i, j :: 0 <= i < j < |due| ==> due[i] != due[j]
    {
      var candidates := repo.ListRotationCandidates();
      assert candidates[..|candidates|] == candidates;
      due := [];
      for i := 0 to |candidates|
        invariant forall id :: id in due <==> id in candidates[..i] && Due(repo.Tables(), id, now)
        invariant forall j, k :: 0 <= j < k < |due| ==> due[j] != due[k]
      {
        var id := candidates[i];
        assert id in candidates && id !in candidates[..i];
        assert candidates[..i + 1] == candidates[..i] + [id];
        var row := repo.managedKeys[id];
        var period, created := row.rotationDays.value, repo.keyVersions[(id, row.currentVersion)].createdAt;
        if period != 0 && now >= created + period * Lifecycle.DAY {
          due := due + [id];
        }
      }
    }

    /** Rotates every due key, once, from the source of new material. */
    method RotateDue(src: Source, now: int) returns (r: Result<(), StoreError>, rotated: seq<string>)
      requires src.kek == rootKek && Consistent(repo.Tables())
      requires forall id :: |MaterialFor(src, id).nonce| == Aead.NONCE_LEN
      modifies repo`managedKeys, repo`keyVersions
      ensures rootKek.None? ==> r == Err(Failed(Locked)) && rotated == []
      ensures rootKek.Some? && |rootKek.value| == Aead.KEY_LEN ==> r.Ok?
      ensures r.Ok? ==> forall id :: id in rotated <==> old(Due(repo.Tables(), id, now))
      ensures AllRotated(src, old(repo.Tables()), rotated, repo.Tables()) && Consistent(repo.Tables())
      ensures forall id :: id in old(repo.managedKeys) && old(repo.managedKeys)[id].state != Enabled ==>
        id in repo.managedKeys && repo.managedKeys[id] == old(repo.managedKeys)[id]
    {
      hide Consistent, AllRotated, RotatesTo, Due, WrapVersion, GetKeyCurrent;
      rotated := [];
      ghost var before := repo.Tables();
      NothingRotated(src, before);
      if rootKek.None? {
        return Err(Failed(Locked)), rotated;
      }
      var due := RotationDue(now);
      assert due[..0] == [] && due[..|due|] == due;
      for i := 0 to |due|
        invariant rotated == due[..i]
        invariant AllRotated(src, before, due[..i], repo.Tables()) && Consistent(repo.Tables())
        invariant forall id :: id in before.keys && before.keys[id].state != Enabled ==>
          id in repo.managedKeys && repo.managedKeys[id] == before.keys[id]
      {
        var id := due[i];
        assert id in due && id !in due[..i];
        assert due[..i + 1] == due[..i] + [id];
        ghost var seen := repo.Tables();
        KeysStay(src, before, due[..i], seen, id);
        DueIsKey(before, id, now);
        var one := Rotate(src.c, id, MaterialFor(src, id), src.clock);
        if one.Err? {
          return Err(one.error), rotated;
        }
        OneMoreRotated(src, before, due[..i], seen, id, repo.Tables());
        rotated := rotated + [id];
      }
      return Ok(()), rotated;
    }

    // ---------------------------------------------------- encrypt and decrypt ----

    /** One slot of the version's nonce budget, or a refusal that spends nothing. */
    method Reserve(id: string, version: nat) returns (r: Result<nat, StoreError>, warned: bool)
      modifies repo`keyVersions
      ensures old((id, version) !in repo.keyVersions) ==> r == Err(Failed(KeyMissing))
      ensures old((id, version) in repo.keyVersions && repo.keyVersions[(id, version)].usage >= policy.hard) ==>
          r == Err(Failed(BudgetExceeded))
      ensures r.Err? <==> IncrementUsageIfBelow(old(repo.Tables()), id, version, policy.hard).1.None?
      ensures r.Ok? ==>
        IncrementUsageIfBelow(old(repo.Tables()), id, version, policy.hard) == (repo.Tables(), Some(r.value))
      ensures r.Err? ==> repo.Tables() == old(repo.Tables())
      ensures warned <==> r == Ok(policy.soft)
    {
      var count := repo.BumpUsage(id, version, policy.hard);
      if count.None? {
        if (id, version) !in repo.keyVersions {
          return Err(Failed(KeyMissing)), false;
        }
        return Err(Failed(BudgetExceeded)), false;
      }
      return Ok(count.value), count.value == policy.soft;
    }

    /**
      Encryption under the current version. Whatever is refused by the checks or the
      budget changes nothing; past them exactly one slot is spent, and the text that
      comes back decrypts in the resulting state.
     */
    method Encrypt(c: Crypto, id: string, plain: bytes, aad: bytes, nonce: bytes)
      returns (r: Result<string, StoreError>, warned: bool)
      requires |nonce| == Aead.NONCE_LEN
      modifies repo`keyVersions
      ensures r.Ok? ==> rootKek.Some? && old(Encryptable(repo.Tables(), policy, id))
      ensures old(NotEnabled(repo.Tables(), id)) ==> r == Err(Failed(BadKeyState))
      ensures !old(Encryptable(repo.Tables(), policy, id)) || rootKek.None? ==> repo.Tables() == old(repo.Tables())
      ensures var gate := EncryptGate(c, rootKek, policy, old(repo.Tables()), id);
        gate.Err? ==> r == Err(Failed(gate.error)) && repo.Tables() == old(repo.Tables()) && !warned
      ensures var gate := EncryptGate(c, rootKek, policy, old(repo.Tables()), id);
        gate.Ok? ==> SpendsSlot(policy, old(repo.Tables()), gate.value.0, warned, repo.Tables())
      ensures var gate := EncryptGate(c, rootKek, policy, old(repo.Tables()), id);
        gate.Ok? ==> (r.Ok? <==> Encodable(old(repo.Tables()), gate.value.0, gate.value.1))
      ensures r.Ok? && Aead.Lawful(c.gcm) ==> KeyRuns.Decrypt(c, rootKek, repo.Tables(), id, r.value, aad) == Ok(plain)
    {
      hide CiphertextText, ParseCiphertext, Aead.Seal, Aead.Open, Aead.Lawful;
      var key := repo.KeyCurrent(id);
      if key.None? {
        return Err(Failed(KeyMissing)), false;
      }
      if key.value.state != Enabled {
        return Err(Failed(BadKeyState)), false;
      }
      if key.value.keyType != AeadKey {
        return Err(Failed(WrongKeyType)), false;
      }
      var version := key.value.currentVersion;
      var v: VersionId := (id, version);
      var secret := LoadVersion(c, rootKek, repo.Tables(), v);
      if secret.Err? {
        return Err(Failed(secret.error)), false;
      }
      var suite := repo.keyVersions[v].suite;
      var slot;
      slot, warned := Reserve(id, version);
      if slot.Err? {
        return Err(slot.error), warned;
      }
      SealDefined(c, secret.value, nonce, plain, aad);
      var blob := Aead.Seal(c.gcm, secret.value, nonce, plain, aad);
      if blob.None? || suite >= 0x100 || version >= 0x1_0000_0000 {
        return Err(SealFailed), warned;
      }
      var text := CiphertextText(suite, version, blob.value);
      CiphertextRoundTrip(suite, version, blob.value);
      if Aead.Lawful(c.gcm) {
        Aead.OpenSeal(c.gcm, secret.value, nonce, plain, aad);
      }
      return Ok(text), warned;
    }

    method Decrypt(c: Crypto, id: string, text: string, aad: bytes) returns (r: Result<bytes, StoreError>)
      ensures match KeyRuns.Decrypt(c, rootKek, repo.Tables(), id, text, aad)
              case Ok(plain) => r == Ok(plain)
              case Err(e) => r == Err(Failed(e))
      ensures r.Ok? ==> rootKek.Some? && id in repo.managedKeys && repo.managedKeys[id].state == Enabled
      ensures NotEnabled(repo.Tables(), id) ==> r == Err(Failed(BadKeyState))
    {
      var key := repo.KeyCurrent(id);
      if key.None? {
        return Err(Failed(KeyMissing));
      }
      if key.value.state != Enabled {
        return Err(Failed(BadKeyState));
      }
      var raw := Base64.Decode(Base64.Standard, text);
      if raw.None? || |raw.value| < 5 {
        return Err(Failed(Malformed));
      }
      var version, blob := Structs.GetU32(raw.value[1..5]), raw.value[5..];
      var secret := LoadVersion(c, rootKek, repo.Tables(), (id, version));
      if secret.Err? {
        return Err(Failed(secret.error));
      }
      var plain := Aead.Open(c.gcm, secret.value, blob, aad);
      if plain.None? {
        return Err(Failed(InvalidTag));
      }
      return Ok(plain.value);
    }
  }

  // --------------------------------------------------------------- envelopes ----

  /** The envelope that a custodian can load: legacy rows are for passphrases only. */
  function LoadableEnvelope(v: Custody.Vault, cred: Custody.Credential, meta: Custody.Meta): Option<bytes> {
    if Custody.META_CUSTODY !in meta && cred.backend != Custody.PASSPHRASE then None
    else Custody.SelectedEnvelope(v, meta)
  }

  /** The credential unseals the envelope it can load. */
  predicate Unlockable(v: Custody.Vault, cred: Custody.Credential, meta: Custody.Meta) {
    var envelope := LoadableEnvelope(v, cred, meta);
    envelope.Some? && Custody.UnsealKek(v, cred, envelope.value).Some?
  }

  /** What key generation yields: the suite, the secret, and the nonce it is wrapped with. */
  datatype Material = Material(suite: nat, secret: bytes, nonce: bytes)

  // ---------------------------------------------------------------- rotation ----

  /** The new tables are the rotation of the key to the next version, holding the new secret. */
  ghost predicate RotatesTo(c: Crypto, kek: Option<bytes>, before: Db, id: string, m: Material, now: int, after: Db) {
    && GetKeyCurrent(before, id).Some?
    && (var cv := before.keys[id].currentVersion;
        var version := WrapVersion(c, kek, (id, cv + 1), m.suite, m.secret, m.nonce, now);
        version.Some? && RotateKey(before, id, cv, version.value, cv + 1) == Ok(after))
  }

  /** The row of a version just made. */
  ghost predicate FreshVersion(db: Db, v: VersionId, suite: nat, now: int) {
    && v in db.versions && db.versions[v].suite == suite && db.versions[v].createdAt == now
    && db.versions[v].state == Active && db.versions[v].usage == 0
  }

  /** Nothing stands in the way of a creation: an unlocked store, a full nonce, a free id and a free name. */
  ghost predicate CreationIsPossible(kek: Option<bytes>, db: Db, id: string, name: string, m: Material) {
    && kek.Some? && |kek.value| == Aead.KEY_LEN && |m.nonce| == Aead.NONCE_LEN
    && id !in db.keys && (id, 1) !in db.versions && forall k :: k in db.keys ==> db.keys[k].name != name
  }

  /** Nothing stands in the way of a rotation: an unlocked store, a full nonce, a key in consistent tables. */
  ghost predicate RotationIsPossible(kek: Option<bytes>, db: Db, id: string, m: Material) {
    Consistent(db) && id in db.keys && kek.Some? && |kek.value| == Aead.KEY_LEN && |m.nonce| == Aead.NONCE_LEN
  }

  ghost predicate Due(db: Db, id: string, now: int) {
    && RotationCandidate(db, id) && db.keys[id].rotationDays.value != 0
    && now >= db.versions[(id, db.keys[id].currentVersion)].createdAt + db.keys[id].rotationDays.value * Lifecycle.DAY
  }

  /** The listed keys moved on by one version; nothing else of any key changed. */
  ghost predicate KeysMoved(before: Db, ids: seq<string>, after: Db) {
    && after.keys.Keys == before.keys.Keys
    && (forall id :: id in ids ==> id in before.keys)
    && (forall id :: id in before.keys ==>
          var moved := before.keys[id].currentVersion + if id in ids then 1 else 0;
          after.keys[id] == before.keys[id].(currentVersion := moved))
  }

  /** Old version rows stay, but for their state. */
  ghost predicate RowsKept(before: Db, after: Db) {
    forall v :: v in before.versions ==>
      v in after.versions && after.versions[v].(state := before.versions[v].state) == before.versions[v]
  }

  /** The key source of one rotation sweep: what new versions are made of, and when. */
  datatype Source = Source(c: Crypto, kek: Option<bytes>, material: string -> Material, clock: int)

  function MaterialFor(src: Source, id: string): Material {
    src.material(id)
  }

  function NewVersion(src: Source, v: VersionId): Option<VersionRow> {
    var m := MaterialFor(src, v.0);
    WrapVersion(src.c, src.kek, v, m.suite, m.secret, m.nonce, src.clock)
  }

  /** The current version of each listed key is the new one, unused and created at the clock's time. */
  ghost predicate NewRows(src: Source, ids: seq<string>, after: Db) {
    forall id :: id in ids ==> id in after.keys && NewRow(src, id, after)
  }

  ghost predicate NewRow(src: Source, id: string, db: Db)
    requires id in db.keys
  {
    var v := (id, db.keys[id].currentVersion);
    v in db.versions && Some(db.versions[v]) == NewVersion(src, v)
  }

  ghost predicate AllRotated(src: Source, before: Db, ids: seq<string>, after: Db) {
    KeysMoved(before, ids, after) && RowsKept(before, after) && NewRows(src, ids, after)
  }

  lemma NothingRotated(src: Source, db: Db)
    ensures AllRotated(src, db, [], db)
  {}

  lemma DueIsKey(db: Db, id: string, now: int)
    requires Due(db, id, now)
    ensures id in db.keys
  {}

  lemma KeysStay(src: Source, before: Db, ids: seq<string>, after: Db, id: string)
    requires AllRotated(src, before, ids, after)
    ensures id in after.keys <==> id in before.keys
  {}

  lemma CurrentJoinsIfConsistent(db: Db, id: string)
    ensures Consistent(db) ==> (GetKeyCurrent(db, id).Some? <==> id in db.keys)
  {
    if Consistent(db) {
      CurrentJoins(db, id);
    }
  }

  lemma NextVersionFreeIfConsistent(db: Db, id: string)
    ensures Consistent(db) && id in db.keys ==> (id, db.keys[id].currentVersion + 1) !in db.versions
  {
    if Consistent(db) && id in db.keys {
      NextVersionFree(db, id);
    }
  }

  lemma OneMoreRotated(src: Source, before: Db, ids: seq<string>, seen: Db, id: string, after: Db)
    requires AllRotated(src, before, ids, seen) && id in before.keys && id !in ids
    requires Consistent(seen) && RotatesTo(src.c, src.kek, seen, id, MaterialFor(src, id), src.clock, after)
    ensures AllRotated(src, before, ids + [id], after) && Consistent(after)
  {
    hide Consistent, WrapVersion, KeysMoved, RowsKept, NewRows, RotateKey;
    var cv := seen.keys[id].currentVersion;
    var version := NewVersion(src, (id, cv + 1)).value;
    NewVersionRow(src, (id, cv + 1));
    RotateConsistent(seen, id, version);
    MoreMoved(before, ids, seen, id, version, after);
    MoreRows(src, before, ids, seen, id, version, after);
  }

  lemma NewVersionRow(src: Source, v: VersionId)
    requires NewVersion(src, v).Some?
    ensures var row := NewVersion(src, v).value;
      row.state == Active && row.createdAt == src.clock && row.usage == 0
  {}

  lemma MoreMoved(before: Db, ids: seq<string>, seen: Db, id: string, version: VersionRow, after: Db)
    requires KeysMoved(before, ids, seen) && RowsKept(before, seen) && id in before.keys && id !in ids
    requires var cv := seen.keys[id].currentVersion;
      (id, cv + 1) !in seen.versions && RotateKey(seen, id, cv, version, cv + 1) == Ok(after)
    ensures KeysMoved(before, ids + [id], after) && RowsKept(before, after)
  {
    assert forall x :: x in ids + [id] <==> x in ids || x == id;
  }

  lemma MoreRows(src: Source, before: Db, ids: seq<string>, seen: Db, id: string, version: VersionRow, after: Db)
    requires KeysMoved(before, ids, seen) && NewRows(src, ids, seen) && id in before.keys && id !in ids
    requires var cv := seen.keys[id].currentVersion;
      NewVersion(src, (id, cv + 1)) == Some(version)
      && (id, cv + 1) !in seen.versions && RotateKey(seen, id, cv, version, cv + 1) == Ok(after)
    ensures NewRows(src, ids + [id], after)
  {
    hide WrapVersion;
    forall x | x in ids + [id]
      ensures x in after.keys && NewRow(src, x, after)
    {
      if x != id {
        assert x in ids && NewRow(src, x, seen);
      }
    }
  }

  /** A key is due exactly when its period, in days of 24 hours, is over: no sooner, and from then on. */
  lemma DueFrom(db: Db, id: string, now: int)
    requires id in db.keys && (id, db.keys[id].currentVersion) in db.versions && db.keys[id].state == Enabled
    requires db.keys[id].rotationDays.Some? && db.keys[id].rotationDays.value != 0
    ensures Due(db, id, now) <==>
      now - db.versions[(id, db.keys[id].currentVersion)].createdAt
        >= db.keys[id].rotationDays.value * 24 * 3600 * 1_000_000
  {}

  /** A key that is disabled, pending or without a policy, or whose policy is 0 days, is never due. */
  lemma NeverDue(db: Db, id: string, now: int)
    requires id !in db.keys || db.keys[id].state != Enabled || db.keys[id].rotationDays.GetOr(0) == 0
    ensures !Due(db, id, now)
  {}

  /** A key with a period of at least a day is not due again right after a rotation. */
  lemma RotatedIsNotDue(src: Source, before: Db, ids: seq<string>, now: int, after: Db, id: string)
    requires AllRotated(src, before, ids, after) && id in ids
    requires before.keys[id].rotationDays.Some? && before.keys[id].rotationDays.value >= 1 && src.clock >= now
    ensures !Due(after, id, now)
  {
    NewVersionRow(src, (id, after.keys[id].currentVersion));
  }

  lemma WrapUnwraps(c: Crypto, kek: Option<bytes>, v: VersionId, suite: nat, secret: bytes, nonce: bytes, now: int)
    requires Aead.Lawful(c.gcm) && WrapVersion(c, kek, v, suite, secret, nonce, now).Some?
    ensures var row := WrapVersion(c, kek, v, suite, secret, nonce, now).value;
      Aead.Open(c.gcm, kek.value, row.wrapped, KeyAad(c, v)) == Some(secret)
  {
    Aead.OpenSeal(c.gcm, kek.value, nonce, secret, KeyAad(c, v));
  }

  // -------------------------------------------------------------- encryption ----

  /** An enabled AEAD key whose current version has budget left. */
  ghost predicate Encryptable(db: Db, policy: Policy, id: string) {
    && id in db.keys && db.keys[id].state == Enabled && db.keys[id].keyType == AeadKey
    && (id, db.keys[id].currentVersion) in db.versions
    && db.versions[(id, db.keys[id].currentVersion)].usage < policy.hard
  }

  /** A key with its current version that is disabled or pending deletion. */
  ghost predicate NotEnabled(db: Db, id: string) {
    id in db.keys && (id, db.keys[id].currentVersion) in db.versions && db.keys[id].state != Enabled
  }

  /** The checks before anything is written, in order: the version to use and its secret, or the refusal. */
  function EncryptGate(c: Crypto, kek: Option<bytes>, policy: Policy, db: Db, id: string)
    : Result<(VersionId, bytes), OpError>
  {
    match RequireEnabled(db, id)
    case Err(e) => Err(e)
    case Ok(row) =>
      if row.keyType != AeadKey then Err(WrongKeyType)
      else match LoadVersion(c, kek, db, (id, row.currentVersion))
        case Err(e) => Err(e)
        case Ok(secret) =>
          if db.versions[(id, row.currentVersion)].usage >= policy.hard then Err(BudgetExceeded)
          else Ok(((id, row.currentVersion), secret))
  }

  /** The version's counter went up by one and nothing else changed; a warning iff it hit the soft limit. */
  ghost predicate SpendsSlot(policy: Policy, before: Db, v: VersionId, warned: bool, after: Db) {
    && v in before.versions && after.keys == before.keys
    && after.versions == before.versions[v := before.versions[v].(usage := before.versions[v].usage + 1)]
    && (warned <==> before.versions[v].usage + 1 == policy.soft)
  }

  /** The secret is an AES-256 key, and suite and version fit their header fields. */
  ghost predicate Encodable(db: Db, v: VersionId, secret: bytes) {
    v in db.versions && |secret| == Aead.KEY_LEN && db.versions[v].suite < 0x100 && v.1 < 0x1_0000_0000
  }

  lemma SealDefined(c: Crypto, secret: bytes, nonce: bytes, plain: bytes, aad: bytes)
    requires |nonce| == Aead.NONCE_LEN
    ensures Aead.Seal(c.gcm, secret, nonce, plain, aad).Some? <==> |secret| == Aead.KEY_LEN
  {}

  /** A lifecycle call did what the specification says: its effect, or its refusal and no effect. */
  ghost predicate Refines(before: Db, op: Lifecycle.Op, now: int, r: Result<(), StoreError>, after: Db) {
    match Lifecycle.Call(before, op, now)
    case Ok(db) => r.Ok? && after == db
    case Err(e) => r == Err(Refused(e)) && after == before
  }
}
