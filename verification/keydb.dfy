/**
  The key tables and the repository's transactions on them, as functions from one
  committed state to the next: UNIQUE and foreign-key violations roll back.
 */
module KeyDb {
  import opened Bytes
  import opened Wrappers

  datatype KeyType = AeadKey | KemKey | SigKey
  datatype KeyState = Enabled | Disabled | PendingDeletion
  datatype VersionState = Active | Rotated

  datatype KeyRow = KeyRow(
    name: string, keyType: KeyType, currentVersion: nat,
    state: KeyState, deletionAt: Option<int>, rotationDays: Option<int>)

  datatype VersionRow = VersionRow(
    suite: nat, wrapped: bytes, createdAt: int, state: VersionState, usage: nat)

  type VersionId = (string, nat)

  datatype Db = Db(keys: map<string, KeyRow>, versions: map<VersionId, VersionRow>)

  const NO_KEYS: Db := Db(map[], map[])

  datatype DbError = IntegrityError

  // --------------------------------------------------------- transactions ----

  function CreateKey(db: Db, id: string, row: KeyRow, version: VersionRow): Result<Db, DbError> {
    if id in db.keys || (exists k :: k in db.keys && db.keys[k].name == row.name) then Err(IntegrityError)
    else if (id, 1) in db.versions then Err(IntegrityError)
    else Ok(Db(db.keys[id := row], db.versions[(id, 1) := version]))
  }

  function SetKeyState(db: Db, id: string, state: KeyState, deletionAt: Option<int>): (r: (Db, bool)) {
    if id in db.keys then (db.(keys := db.keys[id := db.keys[id].(state := state, deletionAt := deletionAt)]), true)
    else (db, false)
  }

  function SetRotationPolicy(db: Db, id: string, days: Option<int>): (r: (Db, bool)) {
    if id in db.keys then (db.(keys := db.keys[id := db.keys[id].(rotationDays := days)]), true)
    else (db, false)
  }

  function WithoutVersionsOf(versions: map<VersionId, VersionRow>, id: string): map<VersionId, VersionRow> {
    map v | v in versions && v.0 != id :: versions[v]
  }

  function DestroyKey(db: Db, id: string): (r: (Db, bool)) {
    if id in db.keys then (Db(db.keys - {id}, WithoutVersionsOf(db.versions, id)), true) else (db, false)
  }

  function MarkRotated(versions: map<VersionId, VersionRow>, v: VersionId): map<VersionId, VersionRow> {
    if v in versions then versions[v := versions[v].(state := Rotated)] else versions
  }

  /** Retire the old version, insert the new one, move the pointer: all or nothing. */
  function RotateKey(db: Db, id: string, oldVersion: nat, version: VersionRow, newVersion: nat): Result<Db, DbError> {
    if (id, newVersion) in db.versions || id !in db.keys then Err(IntegrityError)
    else Ok(Db(db.keys[id := db.keys[id].(currentVersion := newVersion)],
               MarkRotated(db.versions, (id, oldVersion))[(id, newVersion) := version]))
  }

  /** The counter bump: the new count, or nothing if the row is missing or at the limit. */
  function IncrementUsageIfBelow(db: Db, id: string, version: nat, hardLimit: int): (r: (Db, Option<nat>)) {
    var v := (id, version);
    if v in db.versions && db.versions[v].usage < hardLimit then
      var n := db.versions[v].usage + 1;
      (db.(versions := db.versions[v := db.versions[v].(usage := n)]), Some(n))
    else (db, None)
  }

  /** The join with the current version's row. */
  function GetKeyCurrent(db: Db, id: string): Option<KeyRow> {
    if id in db.keys && (id, db.keys[id].currentVersion) in db.versions then Some(db.keys[id]) else None
  }

  // ---------------------------------------------------------- consistency ----

  /** A version row belongs to a key, is one of its versions, and is active iff current. */
  ghost predicate VersionOk(db: Db, v: VersionId)
    requires v in db.versions
  {
    && v.0 in db.keys && 1 <= v.1 <= db.keys[v.0].currentVersion
    && (db.versions[v].state == Active <==> v.1 == db.keys[v.0].currentVersion)
  }

  /** No version of the key is missing. */
  ghost predicate Complete(db: Db, id: string)
    requires id in db.keys
  {
    db.keys[id].currentVersion >= 1 && forall n: nat :: 1 <= n <= db.keys[id].currentVersion ==> (id, n) in db.versions
  }

  ghost predicate NamesUnique(keys: map<string, KeyRow>) {
    forall j, k :: j in keys && k in keys && keys[j].name == keys[k].name ==> j == k
  }

  /** The version rows of a key are exactly 1 to current, of which exactly the current is active. */
  ghost predicate Consistent(db: Db) {
    && (forall v :: v in db.versions ==> VersionOk(db, v))
    && (forall id :: id in db.keys ==> Complete(db, id))
    && NamesUnique(db.keys)
  }

  lemma CurrentJoins(db: Db, id: string)
    requires Consistent(db)
    ensures GetKeyCurrent(db, id) == if id in db.keys then Some(db.keys[id]) else None
  {
    if id in db.keys {
      assert Complete(db, id);
    }
  }

  lemma CreateConsistent(db: Db, id: string, row: KeyRow, version: VersionRow)
    requires Consistent(db) && row.currentVersion == 1 && version.state == Active
    requires CreateKey(db, id, row, version).Ok?
    ensures Consistent(CreateKey(db, id, row, version).value)
  {
    var db' := CreateKey(db, id, row, version).value;
    forall v | v in db'.versions
      ensures VersionOk(db', v)
    {
      if v != (id, 1) {
        assert VersionOk(db, v);
      }
    }
    forall k | k in db'.keys
      ensures Complete(db', k)
    {
      if k != id {
        assert Complete(db, k);
      }
    }
  }

  lemma DestroyConsistent(db: Db, id: string)
    requires Consistent(db)
    ensures Consistent(DestroyKey(db, id).0)
  {
    var db' := DestroyKey(db, id).0;
    forall v | v in db'.versions
      ensures VersionOk(db', v)
    {
      assert VersionOk(db, v);
    }
    forall k | k in db'.keys
      ensures Complete(db', k)
    {
      assert Complete(db, k);
    }
  }

  /** Changing anything of a key but its name and version pointer keeps the tables consistent. */
  lemma RowChangeConsistent(db: Db, id: string, row: KeyRow)
    requires Consistent(db) && id in db.keys
    requires row.name == db.keys[id].name && row.currentVersion == db.keys[id].currentVersion
    ensures Consistent(db.(keys := db.keys[id := row]))
  {
    var db' := db.(keys := db.keys[id := row]);
    forall v | v in db'.versions
      ensures VersionOk(db', v)
    {
      assert VersionOk(db, v);
    }
    forall k | k in db'.keys
      ensures Complete(db', k)
    {
      assert Complete(db, k);
    }
  }

  lemma IncrementConsistent(db: Db, id: string, version: nat, hardLimit: int)
    requires Consistent(db)
    ensures Consistent(IncrementUsageIfBelow(db, id, version, hardLimit).0)
  {
    var db' := IncrementUsageIfBelow(db, id, version, hardLimit).0;
    forall v | v in db'.versions
      ensures VersionOk(db', v)
    {
      assert VersionOk(db, v);
    }
    forall k | k in db'.keys
      ensures Complete(db', k)
    {
      assert Complete(db, k);
    }
  }

  /** A policy change touches one field of one row. */
  lemma PolicyChange(db: Db, id: string, days: Option<int>)
    ensures var (db', found) := SetRotationPolicy(db, id, days);
      && (found <==> id in db.keys) && db'.versions == db.versions && db'.keys.Keys == db.keys.Keys
      && (found ==> db'.keys[id].rotationDays == days && db'.keys[id].state == db.keys[id].state
                    && db'.keys[id].currentVersion == db.keys[id].currentVersion)
      && forall k :: k in db.keys && k != id ==> db'.keys[k] == db.keys[k]
  {}

  lemma VersionAt(db: Db, v: VersionId)
    requires Consistent(db) && v in db.versions
    ensures VersionOk(db, v)
  {}

  lemma NextVersionFree(db: Db, id: string)
    requires Consistent(db) && id in db.keys
    ensures (id, db.keys[id].currentVersion + 1) !in db.versions
  {
    var v := (id, db.keys[id].currentVersion + 1);
    if v in db.versions {
      VersionAt(db, v);
    }
  }

  lemma RotateConsistent(db: Db, id: string, version: VersionRow)
    requires Consistent(db) && version.state == Active && id in db.keys
    ensures var cv := db.keys[id].currentVersion;
      (id, cv + 1) !in db.versions && Consistent(RotateKey(db, id, cv, version, cv + 1).value)
  {
    var cv := db.keys[id].currentVersion;
    NextVersionFree(db, id);
    var db' := RotateKey(db, id, cv, version, cv + 1).value;
    forall v | v in db'.versions
      ensures VersionOk(db', v)
    {
      if v != (id, cv + 1) {
        assert VersionOk(db, v);
      }
    }
    forall k | k in db'.keys
      ensures Complete(db', k)
    {
      assert Complete(db, k);
    }
  }

  /**
    A rotation that starts from a version which was current once commits exactly when
    it still is; it then keeps the tables consistent, and otherwise changes nothing.
   */
  lemma RotateFromRead(db: Db, id: string, seen: nat, version: VersionRow)
    requires Consistent(db) && seen >= 1 && version.state == Active
    requires id in db.keys ==> seen <= db.keys[id].currentVersion
    ensures RotateKey(db, id, seen, version, seen + 1).Ok? <==> id in db.keys && db.keys[id].currentVersion == seen
    ensures RotateKey(db, id, seen, version, seen + 1).Ok? ==>
      Consistent(RotateKey(db, id, seen, version, seen + 1).value)
  {
    if id in db.keys {
      assert Complete(db, id);
      RotateConsistent(db, id, version);
    }
  }
}
