/**
  The repository's writers, statement by statement inside a transaction: a violated
  constraint undoes the statements before it. Each is proved to have the effect of the
  corresponding transaction on the tables.
 */
module Repositories {
  import opened Bytes
  import opened Wrappers
  import opened KeyDb
  import Custody

  class Repository {
    var meta: map<string, bytes>
    var managedKeys: map<string, KeyRow>
    var keyVersions: map<VersionId, VersionRow>

    function Tables(): Db
      reads this
    {
      Db(managedKeys, keyVersions)
    }

    constructor ()
      ensures meta == map[] && Tables() == NO_KEYS
    {
      meta, managedKeys, keyVersions := map[], map[], map[];
    }

    // ---------------------------------------------------------------- meta ----

    method GetMeta(k: string) returns (v: Option<bytes>)
      ensures v == Custody.Lookup(meta, k)
    {
      if k in meta {
        return Some(meta[k]);
      }
      return None;
    }

    /** Insert; a present key is an error, or, with ifAbsent, the answer false. */
    method PutMeta(k: string, v: bytes, ifAbsent: bool) returns (r: Result<bool, DbError>)
      modifies this`meta
      ensures old(k !in meta) ==> r == Ok(true) && meta == old(meta)[k := v]
      ensures old(k in meta) ==> r == (if ifAbsent then Ok(false) else Err(IntegrityError)) && meta == old(meta)
    {
      if k in meta {
        return if ifAbsent then Ok(false) else Err(IntegrityError);
      }
      meta := meta[k := v];
      return Ok(true);
    }

    /** Update, or insert if there is nothing to update. */
    method SetMeta(k: string, v: bytes)
      modifies this`meta
      ensures meta == old(meta)[k := v]
    {
      meta := meta[k := v];
    }

    // ---------------------------------------------------------------- keys ----

    method CreateKeyWithVersion(id: string, row: KeyRow, version: VersionRow) returns (r: Result<(), DbError>)
      modifies this`managedKeys, this`keyVersions
      ensures match CreateKey(old(Tables()), id, row, version)
              case Ok(db) => r.Ok? && Tables() == db
              case Err(e) => r == Err(e) && Tables() == old(Tables())
    {
      var before := managedKeys;
      if id in managedKeys || exists k | k in managedKeys :: managedKeys[k].name == row.name {
        return Err(IntegrityError);
      }
      managedKeys := managedKeys[id := row];
      if (id, 1) in keyVersions {
        managedKeys := before;
        return Err(IntegrityError);
      }
      keyVersions := keyVersions[(id, 1) := version];
      return Ok(());
    }

    method SetState(id: string, state: KeyState, deletionAt: Option<int>) returns (found: bool)
      modifies this`managedKeys
      ensures (Tables(), found) == SetKeyState(old(Tables()), id, state, deletionAt)
    {
      if id !in managedKeys {
        return false;
      }
      managedKeys := managedKeys[id := managedKeys[id].(state := state, deletionAt := deletionAt)];
      return true;
    }

    method SetPolicy(id: string, days: Option<int>) returns (found: bool)
      modifies this`managedKeys
      ensures (Tables(), found) == SetRotationPolicy(old(Tables()), id, days)
    {
      if id !in managedKeys {
        return false;
      }
      managedKeys := managedKeys[id := managedKeys[id].(rotationDays := days)];
      return true;
    }

    method Destroy(id: string) returns (found: bool)
      modifies this`managedKeys, this`keyVersions
      ensures (Tables(), found) == DestroyKey(old(Tables()), id)
    {
      if id !in managedKeys {
        return false;
      }
      keyVersions := map v | v in keyVersions && v.0 != id :: keyVersions[v];
      managedKeys := managedKeys - {id};
      return true;
    }

    method Rotate(id: string, oldVersion: nat, version: VersionRow, newVersion: nat) returns (r: Result<(), DbError>)
      modifies this`managedKeys, this`keyVersions
      ensures match RotateKey(old(Tables()), id, oldVersion, version, newVersion)
              case Ok(db) => r.Ok? && Tables() == db
              case Err(e) => r == Err(e) && Tables() == old(Tables())
    {
      var before := keyVersions;
      if (id, oldVersion) in keyVersions {
        keyVersions := keyVersions[(id, oldVersion) := keyVersions[(id, oldVersion)].(state := Rotated)];
      }
      if (id, newVersion) in keyVersions || id !in managedKeys {
        keyVersions := before;
        return Err(IntegrityError);
      }
      keyVersions := keyVersions[(id, newVersion) := version];
      managedKeys := managedKeys[id := managedKeys[id].(currentVersion := newVersion)];
      return Ok(());
    }

    /** One UPDATE ... WHERE usage_count < limit ... RETURNING. */
    method BumpUsage(id: string, version: nat, hardLimit: int) returns (count: Option<nat>)
      modifies this`keyVersions
      ensures (Tables(), count) == IncrementUsageIfBelow(old(Tables()), id, version, hardLimit)
    {
      var v := (id, version);
      if v !in keyVersions || keyVersions[v].usage >= hardLimit {
        return None;
      }
      keyVersions := keyVersions[v := keyVersions[v].(usage := keyVersions[v].usage + 1)];
      return Some(keyVersions[v].usage);
    }

    method KeyCurrent(id: string) returns (row: Option<KeyRow>)
      ensures row == GetKeyCurrent(Tables(), id)
    {
      if id in managedKeys && (id, managedKeys[id].currentVersion) in keyVersions {
        return Some(managedKeys[id]);
      }
      return None;
    }

    /** The candidates for rotation, in some order. */
    method ListRotationCandidates() returns (ids: seq<string>)
      ensures forall id :: id in ids <==> RotationCandidate(Tables(), id)
      ensures forall i, j :: 0 <= i < j < |ids| ==> ids[i] != ids[j]
    {
      ids := [];
      var rest := managedKeys.Keys;
      while rest != {}
        invariant rest <= managedKeys.Keys
        invariant forall id :: id in ids <==> id !in rest && RotationCandidate(Tables(), id)
        invariant forall i, j :: 0 <= i < j < |ids| ==> ids[i] != ids[j]
        decreases |rest|
      {
        var id :| id in rest;
        rest := rest - {id};
        var row := managedKeys[id];
        if (id, row.currentVersion) in keyVersions && row.rotationDays.Some? && row.state == Enabled {
          ids := ids + [id];
        }
      }
    }
  }

  /** An enabled key with a rotation policy, joined with its current version. */
  ghost predicate RotationCandidate(db: Db, id: string) {
    && id in db.keys && (id, db.keys[id].currentVersion) in db.versions
    && db.keys[id].rotationDays.Some? && db.keys[id].state == Enabled
  }
}
