/**
  The lifecycle of a key: disabling, enabling, scheduling, cancelling and destroying,
  each call on its own (the gates read and write in separate transactions, so what they
  promise holds call by call). Times are in microseconds.
 */
module Lifecycle {
  import opened Bytes
  import opened Wrappers
  import opened KeyDb

  const DAY: int := 86_400_000_000

  datatype Op =
    | Create(id: string, name: string, keyType: KeyType, suite: nat, wrapped: bytes)
    | Rotate(id: string, suite: nat, wrapped: bytes)
    | Disable(id: string)
    | Enable(id: string)
    | Schedule(id: string, windowDays: int)
    | Cancel(id: string)
    | Destroy(id: string, force: bool)

  datatype LifecycleError = KeyMissing | BadState | BadWindow | WindowOpen | Conflict

  /** The result of one lifecycle call at a given time: the tables after it, or why it was refused. */
  function Call(db: Db, op: Op, now: int): Result<Db, LifecycleError> {
    var key := GetKeyCurrent(db, op.id);
    if op.Create? then
      match CreateKey(db, op.id, KeyRow(op.name, op.keyType, 1, Enabled, None, None),
                      VersionRow(op.suite, op.wrapped, now, Active, 0))
      case Ok(db') => Ok(db')
      case Err(_) => Err(Conflict)
    else if key.None? then Err(KeyMissing)
    else
      var row := key.value;
      match op
      case Rotate(id, suite, wrapped) => (
        match RotateKey(db, id, row.currentVersion, VersionRow(suite, wrapped, now, Active, 0), row.currentVersion + 1)
        case Ok(db') => Ok(db')
        case Err(_) => Err(Conflict)
      )
      case Disable(id) => Ok(SetKeyState(db, id, Disabled, None).0)
      case Enable(id) =>
        if row.state == PendingDeletion then Err(BadState) else Ok(SetKeyState(db, id, Enabled, None).0)
      case Schedule(id, windowDays) =>
        if windowDays < 0 then Err(BadWindow)
        else Ok(SetKeyState(db, id, PendingDeletion, Some(now + windowDays * DAY)).0)
      case Cancel(id) =>
        if row.state != PendingDeletion then Err(BadState) else Ok(SetKeyState(db, id, Disabled, None).0)
      case Destroy(id, force) =>
        if force then Ok(DestroyKey(db, id).0)
        else if row.state != PendingDeletion then Err(BadState)
        else if row.deletionAt.None? || now < row.deletionAt.value then Err(WindowOpen)
        else Ok(DestroyKey(db, id).0)
  }

  function After(db: Db, op: Op, now: int): Db {
    match Call(db, op, now) case Ok(db') => db' case Err(_) => db
  }

  function Run(db: Db, calls: seq<(Op, int)>): Db {
    if calls == [] then db
    else After(Run(db, calls[..|calls| - 1]), calls[|calls| - 1].0, calls[|calls| - 1].1)
  }

  /** A deletion time is set exactly while deletion is pending. */
  ghost predicate DeletionTimes(db: Db) {
    forall id :: id in db.keys ==> (db.keys[id].deletionAt.Some? <==> db.keys[id].state == PendingDeletion)
  }

  lemma CallKeeps(db: Db, op: Op, now: int)
    requires Consistent(db) && DeletionTimes(db)
    ensures Consistent(After(db, op, now)) && DeletionTimes(After(db, op, now))
  {
    hide Consistent;
    if op.Create? {
      var row := KeyRow(op.name, op.keyType, 1, Enabled, None, None);
      var version := VersionRow(op.suite, op.wrapped, now, Active, 0);
      if CreateKey(db, op.id, row, version).Ok? {
        CreateConsistent(db, op.id, row, version);
      }
    } else if op.id in db.keys {
      if op.Rotate? {
        RotateConsistent(db, op.id, VersionRow(op.suite, op.wrapped, now, Active, 0));
      }
      DestroyConsistent(db, op.id);
      var row := db.keys[op.id];
      RowChangeConsistent(db, op.id, row.(state := Enabled, deletionAt := None));
      RowChangeConsistent(db, op.id, row.(state := Disabled, deletionAt := None));
      if op.Schedule? {
        RowChangeConsistent(db, op.id, row.(state := PendingDeletion, deletionAt := Some(now + op.windowDays * DAY)));
      }
    }
  }

  lemma {:induction false} RunKeeps(db: Db, calls: seq<(Op, int)>)
    requires Consistent(db) && DeletionTimes(db)
    ensures Consistent(Run(db, calls)) && DeletionTimes(Run(db, calls))
  {
    hide Consistent, DeletionTimes, After;
    if calls != [] {
      RunKeeps(db, calls[..|calls| - 1]);
      CallKeeps(Run(db, calls[..|calls| - 1]), calls[|calls| - 1].0, calls[|calls| - 1].1);
    }
  }

  /** A pending key is never enabled in one call: it leaves that state disabled or destroyed. */
  lemma PendingIsLeftDisabled(db: Db, op: Op, now: int, id: string)
    requires id in db.keys && db.keys[id].state == PendingDeletion
    requires id in After(db, op, now).keys
    ensures After(db, op, now).keys[id].state != Enabled
  {}

  /** Ids are never reused, so no later call creates the key again. */
  ghost predicate NotCreated(calls: seq<(Op, int)>, id: string) {
    forall k :: 0 <= k < |calls| ==> !(calls[k].0.Create? && calls[k].0.id == id)
  }

  lemma KeyWasThere(db: Db, op: Op, now: int, id: string)
    requires id in After(db, op, now).keys && !(op.Create? && op.id == id)
    ensures id in db.keys
  {}

  /** Between two states of a run in which the key was pending and enabled, it was disabled. */
  lemma {:induction false} EnabledOnlyAfterDisabled(db: Db, calls: seq<(Op, int)>, i: nat, id: string) returns (k: nat)
    requires i <= |calls| && NotCreated(calls[i..], id)
    requires id in Run(db, calls[..i]).keys && Run(db, calls[..i]).keys[id].state == PendingDeletion
    requires id in Run(db, calls).keys && Run(db, calls).keys[id].state == Enabled
    ensures i < k < |calls| && id in Run(db, calls[..k]).keys && Run(db, calls[..k]).keys[id].state == Disabled
  {
    hide After;
    var n := |calls|;
    assert calls[..n] == calls;
    assert i < n;
    var front := calls[..n - 1];
    var before := Run(db, front);
    assert calls[n - 1] == calls[i..][n - 1 - i];
    KeyWasThere(before, calls[n - 1].0, calls[n - 1].1, id);
    assert forall k :: 0 <= k < |front[i..]| ==> front[i..][k] == calls[i..][k];
    if before.keys[id].state == PendingDeletion {
      PendingIsLeftDisabled(before, calls[n - 1].0, calls[n - 1].1, id);
      assert false;
    } else if before.keys[id].state == Disabled {
      assert front != calls[..i];
      k := n - 1;
    } else {
      assert front[..i] == calls[..i];
      k := EnabledOnlyAfterDisabled(db, front, i, id);
      assert front[..k] == calls[..k];
    }
  }

  /** The key's state and deletion time are the same after every call from the j-th on. */
  ghost predicate UnchangedSince(db: Db, calls: seq<(Op, int)>, j: nat, id: string) {
    forall k :: j <= k <= |calls| ==>
      id in Run(db, calls[..k]).keys && id in Run(db, calls).keys
      && Run(db, calls[..k]).keys[id].state == Run(db, calls).keys[id].state
      && Run(db, calls[..k]).keys[id].deletionAt == Run(db, calls).keys[id].deletionAt
  }

  /** A key that is pending after a call was scheduled by it, or was pending before with the same time. */
  lemma PendingComesFrom(db: Db, op: Op, now: int, id: string)
    requires id in After(db, op, now).keys && After(db, op, now).keys[id].state == PendingDeletion
    ensures
      (op.Schedule? && op.id == id && op.windowDays >= 0
       && After(db, op, now).keys[id].deletionAt == Some(now + op.windowDays * DAY))
      || (id in db.keys && db.keys[id].state == PendingDeletion
          && db.keys[id].deletionAt == After(db, op, now).keys[id].deletionAt)
  {}

  lemma UnchangedLonger(db: Db, calls: seq<(Op, int)>, j: nat, id: string)
    requires calls != [] && j < |calls|
    requires UnchangedSince(db, calls[..|calls| - 1], j, id)
    requires var before, after := Run(db, calls[..|calls| - 1]), Run(db, calls);
      && id in before.keys && id in after.keys
      && before.keys[id].state == after.keys[id].state && before.keys[id].deletionAt == after.keys[id].deletionAt
    ensures UnchangedSince(db, calls, j, id)
  {
    hide Run;
    var front := calls[..|calls| - 1];
    assert calls[..|calls|] == calls;
    forall k | j <= k <= |calls|
      ensures id in Run(db, calls[..k]).keys && Run(db, calls[..k]).keys[id].state == Run(db, calls).keys[id].state
        && Run(db, calls[..k]).keys[id].deletionAt == Run(db, calls).keys[id].deletionAt
    {
      if k < |calls| {
        assert front[..k] == calls[..k];
      }
    }
  }

  /** A pending key was scheduled by an earlier call, and nothing changed its state since. */
  lemma {:induction false} PendingWasScheduled(db: Db, calls: seq<(Op, int)>, id: string) returns (j: nat)
    requires forall x :: x in db.keys ==> db.keys[x].state != PendingDeletion
    requires id in Run(db, calls).keys && Run(db, calls).keys[id].state == PendingDeletion
    ensures j < |calls| && calls[j].0.Schedule? && calls[j].0.id == id && calls[j].0.windowDays >= 0
    ensures Run(db, calls).keys[id].deletionAt == Some(calls[j].1 + calls[j].0.windowDays * DAY)
    ensures UnchangedSince(db, calls, j + 1, id)
  {
    hide After;
    var n := |calls|;
    assert calls != [];
    var front := calls[..n - 1];
    var (op, now) := calls[n - 1];
    PendingComesFrom(Run(db, front), op, now, id);
    if op.Schedule? && op.id == id && op.windowDays >= 0
       && Run(db, calls).keys[id].deletionAt == Some(now + op.windowDays * DAY) {
      j := n - 1;
      assert calls[..n] == calls;
    } else {
      hide UnchangedSince;
      j := PendingWasScheduled(db, front, id);
      assert front[j] == calls[j];
      UnchangedLonger(db, calls, j + 1, id);
    }
  }

  /**
    A destruction that is not forced succeeds only if the key's last state change was
    the scheduling of its deletion, at least the scheduled window ago.
   */
  lemma DestructionWaitsForWindow(db: Db, calls: seq<(Op, int)>, id: string, now: int) returns (j: nat)
    requires forall x :: x in db.keys ==> db.keys[x].state != PendingDeletion
    requires Call(Run(db, calls), Destroy(id, false), now).Ok?
    ensures j < |calls| && calls[j].0.Schedule? && calls[j].0.id == id
    ensures calls[j].1 + calls[j].0.windowDays * DAY <= now
    ensures UnchangedSince(db, calls, j + 1, id)
  {
    hide UnchangedSince;
    j := PendingWasScheduled(db, calls, id);
  }

  /** And it does succeed then, removing the key with all its versions. */
  lemma DestructionRemovesKey(db: Db, id: string, force: bool, now: int)
    requires Consistent(db) && id in db.keys
    requires force || (db.keys[id].state == PendingDeletion && db.keys[id].deletionAt.Some?
                       && db.keys[id].deletionAt.value <= now)
    ensures Call(db, Destroy(id, force), now).Ok?
    ensures var db' := Call(db, Destroy(id, force), now).value;
      && id !in db'.keys && (forall n: nat :: (id, n) !in db'.versions)
      && (forall k :: k in db.keys && k != id ==> k in db'.keys && db'.keys[k] == db.keys[k])
      && (forall v :: v in db.versions && v.0 != id ==> v in db'.versions && db'.versions[v] == db.versions[v])
  {
    hide Consistent;
    CurrentJoins(db, id);
  }

  // -------------------------------------------------- what each call leaves ----

  /** The one row that differs, if any, is the key's, and only in state and deletion time. */
  ghost predicate OnlyState(db: Db, db': Db, id: string, state: KeyState, deletionAt: Option<int>) {
    && db'.versions == db.versions && db'.keys.Keys == db.keys.Keys && id in db.keys
    && db'.keys[id].state == state && db'.keys[id].deletionAt == deletionAt
    && db'.keys[id].name == db.keys[id].name && db'.keys[id].keyType == db.keys[id].keyType
    && db'.keys[id].currentVersion == db.keys[id].currentVersion
    && db'.keys[id].rotationDays == db.keys[id].rotationDays
    && forall k :: k in db.keys && k != id ==> db'.keys[k] == db.keys[k]
  }

  /** The four calls that change a state: when they succeed, and what they leave. */
  lemma StateCalls(db: Db, id: string, windowDays: int, now: int)
    requires Consistent(db)
    ensures Call(db, Disable(id), now).Ok? <==> id in db.keys
    ensures Call(db, Enable(id), now).Ok? <==> id in db.keys && db.keys[id].state != PendingDeletion
    ensures Call(db, Schedule(id, windowDays), now).Ok? <==> id in db.keys && windowDays >= 0
    ensures Call(db, Cancel(id), now).Ok? <==> id in db.keys && db.keys[id].state == PendingDeletion
    ensures Call(db, Disable(id), now).Ok? ==> OnlyState(db, After(db, Disable(id), now), id, Disabled, None)
    ensures Call(db, Enable(id), now).Ok? ==> OnlyState(db, After(db, Enable(id), now), id, Enabled, None)
    ensures Call(db, Schedule(id, windowDays), now).Ok? ==>
      OnlyState(db, After(db, Schedule(id, windowDays), now), id, PendingDeletion,
                Some(now + windowDays * 86_400_000_000))
    ensures Call(db, Cancel(id), now).Ok? ==> OnlyState(db, After(db, Cancel(id), now), id, Disabled, None)
  {
    hide Consistent;
    CurrentJoins(db, id);
  }

  /** A created key is enabled with one version; a rotated one has one version more. */
  lemma VersionCalls(db: Db, id: string, name: string, keyType: KeyType, suite: nat, wrapped: bytes, now: int)
    requires Consistent(db)
    ensures Call(db, Create(id, name, keyType, suite, wrapped), now).Ok?
      <==> id !in db.keys && forall k :: k in db.keys ==> db.keys[k].name != name
    ensures var made := Call(db, Create(id, name, keyType, suite, wrapped), now);
      made.Ok? ==> (
        && made.value.keys == db.keys[id := KeyRow(name, keyType, 1, Enabled, None, None)]
        && made.value.versions == db.versions[(id, 1) := VersionRow(suite, wrapped, now, Active, 0)])
    ensures Call(db, Rotate(id, suite, wrapped), now).Ok? <==> id in db.keys
    ensures var turned := Call(db, Rotate(id, suite, wrapped), now);
      turned.Ok? ==> Rotated(db, turned.value, id, VersionRow(suite, wrapped, now, Active, 0))
  {
    hide Consistent;
    CurrentJoins(db, id);
    if (id, 1) in db.versions {
      VersionAt(db, (id, 1));
      VersionsHaveKeys(db, (id, 1));
    }
    if id in db.keys {
      NextVersionFree(db, id);
      CompleteKey(db, id);
    }
  }

  lemma VersionsHaveKeys(db: Db, v: VersionId)
    requires Consistent(db) && v in db.versions
    ensures v.0 in db.keys
  {
    assert VersionOk(db, v);
  }

  lemma CompleteKey(db: Db, id: string)
    requires Consistent(db) && id in db.keys
    ensures (id, db.keys[id].currentVersion) in db.versions
  {
    assert Complete(db, id);
  }

  /** The pointer moved by one, to the new row; the row before is retired and no other changed. */
  ghost predicate Rotated(db: Db, db': Db, id: string, row: VersionRow) {
    && id in db.keys && (id, db.keys[id].currentVersion) in db.versions
    && var cv := db.keys[id].currentVersion;
    && db'.keys == db.keys[id := db.keys[id].(currentVersion := cv + 1)]
    && db'.versions == db.versions[(id, cv) := db.versions[(id, cv)].(state := KeyDb.Rotated)][(id, cv + 1) := row]
  }

  // ---------------------------------------------------------- unusable keys ----

  /** No call of the run enables the key. */
  ghost predicate NotEnabledBy(calls: seq<(Op, int)>, id: string) {
    forall k :: 0 <= k < |calls| ==> calls[k].0 != Enable(id)
  }

  lemma OnlyEnableEnables(db: Db, op: Op, now: int, id: string)
    requires (id in db.keys ==> db.keys[id].state != Enabled) && op != Enable(id) && !(op.Create? && op.id == id)
    requires id in After(db, op, now).keys
    ensures After(db, op, now).keys[id].state != Enabled
  {}

  /** After disabling or scheduling, in every continuation without enabling, the key is gone or not enabled. */
  lemma {:induction false} StaysUnusable(db: Db, calls: seq<(Op, int)>, op: Op, now: int, more: seq<(Op, int)>)
    requires op.Disable? || op.Schedule?
    requires Consistent(Run(db, calls)) && Call(Run(db, calls), op, now).Ok?
    requires NotEnabledBy(more, op.id) && NotCreated(more, op.id)
    ensures var t := Run(db, calls + [(op, now)] + more); op.id in t.keys ==> t.keys[op.id].state != Enabled
  {
    hide After, Call, Consistent;
    var all := calls + [(op, now)] + more;
    if more == [] {
      assert all[..|all| - 1] == calls;
      StateCalls(Run(db, calls), op.id, if op.Schedule? then op.windowDays else 0, now);
      assert Run(db, all) == After(Run(db, calls), op, now);
    } else {
      var front, last := more[..|more| - 1], more[|more| - 1];
      assert all[..|all| - 1] == calls + [(op, now)] + front;
      StaysUnusable(db, calls, op, now, front);
      var before := Run(db, all[..|all| - 1]);
      if op.id in Run(db, all).keys {
        OnlyEnableEnables(before, last.0, last.1, op.id);
      }
    }
  }

  // ----------------------------------------------------------- stale gates ----

  /** What the second transaction of a gated call does, whatever the first one saw. */
  function Act(db: Db, op: Op): Db
    requires op.Enable? || op.Cancel? || op.Destroy?
  {
    match op
    case Enable(id) => SetKeyState(db, id, Enabled, None).0
    case Cancel(id) => SetKeyState(db, id, Disabled, None).0
    case Destroy(id, _) => DestroyKey(db, id).0
  }

  /**
    Gate and action are separate transactions. Acting on tables that moved on since the
    gate is as good as calling now exactly when the key is gone or would still pass:
    not pending for enabling, pending or already disabled for cancelling, and due for
    destruction.
   */
  lemma StaleGate(db: Db, op: Op, now: int)
    requires Consistent(db) && DeletionTimes(db)
    requires op.Enable? || op.Cancel? || (op.Destroy? && !op.force)
    ensures op.Enable? ==> (Act(db, op) == After(db, op, now) <==>
      op.id !in db.keys || db.keys[op.id].state != PendingDeletion)
    ensures op.Cancel? ==> (Act(db, op) == After(db, op, now) <==>
      op.id !in db.keys || db.keys[op.id].state != Enabled)
    ensures op.Destroy? ==> (Act(db, op) == After(db, op, now) <==>
      op.id !in db.keys || (db.keys[op.id].state == PendingDeletion && db.keys[op.id].deletionAt.value <= now))
  {
    hide Consistent, WithoutVersionsOf;
    CurrentJoins(db, op.id);
    if op.id in db.keys {
      var row := db.keys[op.id];
      assert db.keys[op.id := row] == db.keys;
      assert op.id !in (db.keys - {op.id});
      if op.Cancel? && row.state == Disabled {
        assert row.(state := Disabled, deletionAt := None) == row;
      }
      if !op.Destroy? {
        assert Act(db, op).keys[op.id] == row.(state := if op.Enable? then Enabled else Disabled, deletionAt := None);
      }
    }
  }

  /** So an interleaved enabling can revive a pending key at once, which no single call can. */
  lemma StaleEnableRevives() returns (seen: Db, id: string)
    ensures Consistent(seen) && DeletionTimes(seen) && Call(seen, Enable(id), 0).Ok?
    ensures var db := After(seen, Schedule(id, 7), 0);
      && id in db.keys && db.keys[id].state == PendingDeletion
      && id in Act(db, Enable(id)).keys && Act(db, Enable(id)).keys[id].state == Enabled
  {
    var row := KeyRow("k", AeadKey, 1, Enabled, None, None);
    id := "id";
    seen := Db(map[id := row], map[(id, 1) := VersionRow(20, [], 0, Active, 0)]);
  }
}
