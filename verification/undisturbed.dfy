/**
  Key operations of one worker with nobody in between: the steps of the run model do what
  the calls promise, so that the invariants of all interleavings are about something.
 */
module Undisturbed {
  import opened Bytes
  import opened Wrappers
  import opened Structs
  import opened KeyDb
  import opened KeyRuns
  import Aead
  import Base64
  import Cluster
  import Custody

  /** The state after two steps of a worker on an unlocked replica. */
  function Two(c: Crypto, kek: bytes, policy: Policy, s: State, a: Event, b: Event): State {
    Step(c, Some(kek), policy, Step(c, Some(kek), policy, s, a), b)
  }

  /** The current version of an enabled AEAD key, with budget left, whose secret unwraps to an AES-256 key. */
  ghost predicate CanEncrypt(c: Crypto, kek: bytes, policy: Policy, db: Db, v: VersionId, secret: bytes) {
    && v.0 in db.keys && db.keys[v.0].state == Enabled && db.keys[v.0].keyType == AeadKey
    && db.keys[v.0].currentVersion == v.1 && v in db.versions
    && Aead.Open(c.gcm, kek, db.versions[v].wrapped, KeyAad(c, v)) == Some(secret) && |secret| == Aead.KEY_LEN
    && db.versions[v].usage < policy.hard && db.versions[v].suite < 0x100 && v.1 < 0x1_0000_0000
  }

  /** Up to the reservation: the next slot of the current version, and nothing else, is spent. */
  lemma ReservesSlot(c: Crypto, kek: bytes, policy: Policy, s: State, w: nat, v: VersionId, secret: bytes,
                     plain: bytes, aad: bytes)
    requires CanEncrypt(c, kek, policy, s.db, v, secret)
    ensures var begun := Two(c, kek, policy, s, BeginEncrypt(w, v.0, plain, aad), LoadSecret(w));
      var t := Step(c, Some(kek), policy, begun, Reserve(w));
      var row := s.db.versions[v];
      && t.db == s.db.(versions := s.db.versions[v := row.(usage := row.usage + 1)])
      && t.tasks == s.tasks[w := Reserved(v, row.suite, secret, plain, aad, row.usage + 1)]
      && t.reserved == s.reserved + {Ticket(v, row.usage + 1)} && t.issued == s.issued
  {
    hide Aead.Open;
    assert v == (v.0, v.1);
  }

  /**
    An encryption that nobody interferes with hands out one ciphertext, under the current
    version's suite and secret, and spends one slot.
   */
  lemma EncryptsAlone(c: Crypto, kek: bytes, policy: Policy, s: State, w: nat, v: VersionId, secret: bytes,
                      plain: bytes, aad: bytes, nonce: bytes)
    requires CanEncrypt(c, kek, policy, s.db, v, secret) && |nonce| == Aead.NONCE_LEN
    ensures var row := s.db.versions[v];
      var text := CiphertextText(row.suite, v.1, Aead.Seal(c.gcm, secret, nonce, plain, aad).value);
      var begun := Two(c, kek, policy, s, BeginEncrypt(w, v.0, plain, aad), LoadSecret(w));
      var t := Two(c, kek, policy, begun, Reserve(w), Emit(w, nonce));
      && t.issued == s.issued + [Issued(Ticket(v, row.usage + 1), plain, aad, text, secret, nonce)]
      && t.db == s.db.(versions := s.db.versions[v := row.(usage := row.usage + 1)])
  {
    hide CiphertextText, Aead.Seal, Aead.Open, Two, Step;
    var row := s.db.versions[v];
    ReservesSlot(c, kek, policy, s, w, v, secret, plain, aad);
    var begun := Two(c, kek, policy, s, BeginEncrypt(w, v.0, plain, aad), LoadSecret(w));
    var t := Step(c, Some(kek), policy, begun, Reserve(w));
    TwoSteps(c, kek, policy, begun, Reserve(w), Emit(w, nonce));
    EmitsAlone(c, kek, policy, t, w, v, row.suite, secret, plain, aad, row.usage + 1, nonce);
  }

  lemma TwoSteps(c: Crypto, kek: bytes, policy: Policy, s: State, a: Event, b: Event)
    ensures Two(c, kek, policy, s, a, b) == Step(c, Some(kek), policy, Step(c, Some(kek), policy, s, a), b)
  {
    hide Step;
  }

  lemma EmitsAlone(c: Crypto, kek: bytes, policy: Policy, s: State, w: nat, v: VersionId, suite: nat, secret: bytes,
                   plain: bytes, aad: bytes, count: nat, nonce: bytes)
    requires w in s.tasks && s.tasks[w] == Reserved(v, suite, secret, plain, aad, count)
    requires |secret| == Aead.KEY_LEN && |nonce| == Aead.NONCE_LEN && suite < 0x100 && v.1 < 0x1_0000_0000
    ensures var text := CiphertextText(suite, v.1, Aead.Seal(c.gcm, secret, nonce, plain, aad).value);
      var t := Step(c, Some(kek), policy, s, Emit(w, nonce));
      t.issued == s.issued + [Issued(Ticket(v, count), plain, aad, text, secret, nonce)] && t.db == s.db
  {
    hide CiphertextText;
  }

  /** A rotation that nobody interferes with makes the new secret's version the current one. */
  lemma RotatesAlone(c: Crypto, kek: bytes, policy: Policy, s: State, w: nat, id: string,
                     suite: nat, secret: bytes, nonce: bytes, now: int)
    requires Aead.Lawful(c.gcm) && Consistent(s.db) && id in s.db.keys
    requires |kek| == Aead.KEY_LEN && |nonce| == Aead.NONCE_LEN
    ensures var cv := s.db.keys[id].currentVersion;
      var t := Two(c, kek, policy, s, BeginRotate(w, id), FinishRotate(w, suite, secret, nonce, now));
      && t.db.keys == s.db.keys[id := s.db.keys[id].(currentVersion := cv + 1)]
      && (id, cv + 1) in t.db.versions && t.db.versions[(id, cv + 1)].suite == suite
      && t.db.versions[(id, cv + 1)].createdAt == now && t.db.versions[(id, cv + 1)].usage == 0
      && LoadVersion(c, Some(kek), t.db, (id, cv + 1)) == Ok(secret)
  {
    hide Consistent, Aead.Lawful, Aead.Seal, Aead.Open;
    var cv := s.db.keys[id].currentVersion;
    CurrentJoins(s.db, id);
    NextVersionFree(s.db, id);
    Aead.OpenSeal(c.gcm, kek, nonce, secret, KeyAad(c, (id, cv + 1)));
  }

  /** A creation with a fresh id and a free name stores version 1 with the secret, enabled. */
  lemma CreatesAlone(c: Crypto, kek: bytes, policy: Policy, s: State, id: string, name: string, keyType: KeyType,
                     suite: nat, secret: bytes, nonce: bytes, now: int)
    requires Aead.Lawful(c.gcm) && Consistent(s.db) && s.db.keys.Keys <= s.born && id !in s.born
    requires |kek| == Aead.KEY_LEN && |nonce| == Aead.NONCE_LEN
    requires forall k :: k in s.db.keys ==> s.db.keys[k].name != name
    ensures var t := Step(c, Some(kek), policy, s, Create(id, name, keyType, suite, secret, nonce, now));
      && t.db.keys == s.db.keys[id := KeyRow(name, keyType, 1, Enabled, None, None)]
      && (id, 1) in t.db.versions && t.db.versions[(id, 1)].suite == suite && t.db.versions[(id, 1)].createdAt == now
      && t.db.versions[(id, 1)].usage == 0 && LoadVersion(c, Some(kek), t.db, (id, 1)) == Ok(secret)
  {
    hide Consistent, Aead.Lawful, Aead.Seal, Aead.Open;
    if (id, 1) in s.db.versions {
      KeyOfVersion(s.db, (id, 1));
    }
    Aead.OpenSeal(c.gcm, kek, nonce, secret, KeyAad(c, (id, 1)));
  }

  lemma KeyOfVersion(db: Db, v: VersionId)
    requires Consistent(db) && v in db.versions
    ensures v.0 in db.keys
  {
    VersionAt(db, v);
  }

  /** The calls of one transaction change what they name, and only of the one key. */
  lemma ChangesAlone(c: Crypto, kek: Option<bytes>, policy: Policy, s: State, id: string, state: KeyState,
                     deletionAt: Option<int>, days: Option<int>)
    requires id in s.db.keys
    ensures var row := s.db.keys[id];
      && Step(c, kek, policy, s, ChangeState(id, state, deletionAt)).db
           == s.db.(keys := s.db.keys[id := row.(state := state, deletionAt := deletionAt)])
      && Step(c, kek, policy, s, ChangePolicy(id, days)).db
           == s.db.(keys := s.db.keys[id := row.(rotationDays := days)])
    ensures var db := Step(c, kek, policy, s, Destroy(id)).db;
      && db.keys == s.db.keys - {id}
      && forall v :: v in db.versions <==> v in s.db.versions && v.0 != id
  {}

  /** On a locked replica nothing is created or rotated, and no secret is loaded: the worker is left idle. */
  lemma LockedDoesNothing(c: Crypto, policy: Policy, s: State, w: nat, e: Event)
    requires e.Create? || ((e.BeginRotate? || e.FinishRotate? || e.LoadSecret?) && e.w == w)
    ensures var t := Step(c, None, policy, s, e);
      && t.db == s.db && t.born == s.born && t.issued == s.issued
      && (TaskOf(t, w) == TaskOf(s, w) || TaskOf(t, w).Idle?) && (e.BeginRotate? ==> TaskOf(t, w).Idle?)
  {}

  // --------------------------------------------------------------- the fleet ----

  lemma RunFour(w: Cluster.World, s: Cluster.State, a: Cluster.Event, b: Cluster.Event, d: Cluster.Event,
                e: Cluster.Event)
    ensures Cluster.Run(w, s, [a, b, d, e])
      == Cluster.Step(w, Cluster.Step(w, Cluster.Step(w, Cluster.Step(w, s, a), b), d), e)
  {
    hide Cluster.Step;
    assert [a, b, d, e][1..] == [b, d, e] && [b, d, e][1..] == [d, e];
    Cluster.RunConcat(w, s, [a, b], [d, e]);
    assert [a, b] + [d, e] == [a, b, d, e];
    RunTwo(w, s, a, b);
    RunTwo(w, Cluster.Run(w, s, [a, b]), d, e);
  }

  lemma RunTwo(w: Cluster.World, s: Cluster.State, a: Cluster.Event, b: Cluster.Event)
    ensures Cluster.Run(w, s, [a, b]) == Cluster.Step(w, Cluster.Step(w, s, a), b)
  {
    hide Cluster.Step;
    assert [a, b][1..] == [b];
    Cluster.OneStep(w, Cluster.Step(w, s, a), b);
  }

  /** Started on an empty database, a replica that boots alone is unlocked with the key it generated. */
  lemma FleetBoots(w: Cluster.World, s: Cluster.State, r: nat, cred: Custody.Credential, kek: bytes, salt: bytes)
    requires s.custody.meta == map[] && |kek| == Aead.KEY_LEN
    ensures var t := Cluster.Run(w, s, [Cluster.CustodyEvent(Custody.Start(r, cred)),
        Cluster.CustodyEvent(Custody.Initialize(r, kek, salt)), Cluster.CustodyEvent(Custody.PutEnvelope(r)),
        Cluster.CustodyEvent(Custody.Unlock(r))]);
      Cluster.KekOf(t, r) == Some(kek) && t.keys == s.keys
  {
    RunFour(w, s, Cluster.CustodyEvent(Custody.Start(r, cred)), Cluster.CustodyEvent(Custody.Initialize(r, kek, salt)),
            Cluster.CustodyEvent(Custody.PutEnvelope(r)), Cluster.CustodyEvent(Custody.Unlock(r)));
  }

  /** A worker on an unlocked replica that encrypts alone hands out a ciphertext. */
  lemma FleetEncrypts(w: Cluster.World, s: Cluster.State, r: nat, worker: nat, v: VersionId, secret: bytes,
                      plain: bytes, aad: bytes, nonce: bytes)
    requires Cluster.KekOf(s, r).Some? && |nonce| == Aead.NONCE_LEN
    requires CanEncrypt(w.crypto, Cluster.KekOf(s, r).value, w.policy, s.keys.db, v, secret)
    ensures var t := Cluster.Run(w, s, [Cluster.KeyEvent(r, BeginEncrypt(worker, v.0, plain, aad)),
        Cluster.KeyEvent(r, LoadSecret(worker)), Cluster.KeyEvent(r, Reserve(worker)),
        Cluster.KeyEvent(r, Emit(worker, nonce))]);
      && |t.keys.issued| == |s.keys.issued| + 1 && t.custody == s.custody
      && t.keys.issued[|s.keys.issued|].plain == plain && t.keys.issued[|s.keys.issued|].ticket.v == v
  {
    RunFour(w, s, Cluster.KeyEvent(r, BeginEncrypt(worker, v.0, plain, aad)), Cluster.KeyEvent(r, LoadSecret(worker)),
            Cluster.KeyEvent(r, Reserve(worker)), Cluster.KeyEvent(r, Emit(worker, nonce)));
    EncryptsAlone(w.crypto, Cluster.KekOf(s, r).value, w.policy, s.keys, worker, v, secret, plain, aad, nonce);
    hide Step, CanEncrypt, CiphertextText, Aead.Seal;
  }

  // --------------------------------------------------------- what comes back ----

  /** The bytes of a ciphertext text: suite, version, most significant byte first, sealed part. */
  lemma CiphertextBytes(suite: byte, a: byte, b: byte, d: byte, e: byte, blob: bytes)
    ensures var version := a as nat * 0x100_0000 + b as nat * 0x1_0000 + d as nat * 0x100 + e as nat;
      Base64.Decode(Base64.Standard, CiphertextText(suite as nat, version, blob)) == Some([suite, a, b, d, e] + blob)
  {
    hide Base64.Encode, Base64.Decode;
    BigEndian(a, b, d, e);
    Base64.DecodeEncode(Base64.Standard, [suite, a, b, d, e] + blob);
    assert [suite] + [a, b, d, e] + blob == [suite, a, b, d, e] + blob;
  }

  /**
    No text decrypts but one whose sealed part was made, under the secret of the version it
    names and with the same associated data, from the plaintext that comes back.
   */
  lemma DecryptedWasSealed(c: Crypto, kek: Option<bytes>, db: Db, id: string, text: string, aad: bytes, plain: bytes)
    requires Aead.Lawful(c.gcm) && Aead.Authentic(c.gcm) && Decrypt(c, kek, db, id, text, aad) == Ok(plain)
    ensures kek.Some? && id in db.keys && db.keys[id].state == Enabled
    ensures var raw := Base64.Decode(Base64.Standard, text);
      raw.Some? && |raw.value| >= 5
      && WasSealed(c, kek.value, db, (id, GetU32(raw.value[1..5])), raw.value[5..], aad, plain)
  {
    hide Base64.Decode, GetU32, Aead.Open, Aead.Seal, Aead.Lawful, Aead.Authentic;
    var raw := Base64.Decode(Base64.Standard, text).value;
    var v: VersionId := (id, GetU32(raw[1..5]));
    Aead.OpensExactlySealed(c.gcm, SecretOf(c, kek.value, db, v).value, raw[5..], aad, plain);
  }

  ghost predicate WasSealed(c: Crypto, kek: bytes, db: Db, v: VersionId, blob: bytes, aad: bytes, plain: bytes) {
    && v in db.versions
    && var secret := Aead.Open(c.gcm, kek, db.versions[v].wrapped, KeyAad(c, v));
    && secret.Some?
    && exists nonce :: |nonce| == Aead.NONCE_LEN && Aead.Seal(c.gcm, secret.value, nonce, plain, aad) == Some(blob)
  }
}
