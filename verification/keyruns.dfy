/**
  Key operations of any number of workers, interleaved transaction by transaction:
  creation, rotation, lifecycle changes, destruction and encryption, with the nonce
  budget and the ciphertexts they produce.
 */
module KeyRuns {
  import opened Bytes
  import opened Wrappers
  import opened Structs
  import opened Aead
  import opened Base64
  import opened KeyDb

  /** AES-GCM, and the text that binds a wrapped secret to its key and version. */
  datatype Crypto = Crypto(gcm: Gcm, keyAad: (string, nat) -> bytes)

  function KeyAad(c: Crypto, v: VersionId): bytes {
    c.keyAad(v.0, v.1)
  }

  datatype Policy = Policy(soft: int, hard: int)

  const SOFT_LIMIT: int := 0x4000_0000
  const HARD_LIMIT: int := 0x1_0000_0000

  const DEFAULT_POLICY: Policy := Policy(SOFT_LIMIT, HARD_LIMIT)

  // ---------------------------------------------------------- ciphertexts ----

  /** One byte of suite, four of version, the sealed text; in base64. */
  function CiphertextText(suite: nat, version: nat, blob: bytes): string
    requires suite < 0x100 && version < 0x1_0000_0000
  {
    Encode(Standard, [suite as byte] + U32(version) + blob)
  }

  /** The version and the sealed text in a ciphertext. */
  function ParseCiphertext(text: string): Option<(nat, bytes)> {
    match Decode(Standard, text)
    case None => None
    case Some(raw) => if |raw| < 5 then None else Some((GetU32(raw[1..5]), raw[5..]))
  }

  lemma CiphertextRoundTrip(suite: nat, version: nat, blob: bytes)
    requires suite < 0x100 && version < 0x1_0000_0000
    ensures ParseCiphertext(CiphertextText(suite, version, blob)) == Some((version, blob))
  {
    hide Encode, Decode, U32, GetU32;
    var raw := [suite as byte] + U32(version) + blob;
    DecodeEncode(Standard, raw);
    U32RoundTrip(version);
    assert raw[1..5] == U32(version) && raw[5..] == blob;
  }

  // -------------------------------------------------------------- reading ----

  datatype OpError = KeyMissing | BadKeyState | WrongKeyType | Malformed | Locked | InvalidTag | BudgetExceeded

  /** The secret of a version row, unwrapped under the Root KEK. */
  function SecretOf(c: Crypto, kek: bytes, db: Db, v: VersionId): Option<bytes>
    requires v in db.versions
  {
    Open(c.gcm, kek, db.versions[v].wrapped, KeyAad(c, v))
  }

  function LoadVersion(c: Crypto, kek: Option<bytes>, db: Db, v: VersionId): Result<bytes, OpError> {
    if v !in db.versions then Err(KeyMissing)
    else if kek.None? then Err(Locked)
    else match SecretOf(c, kek.value, db, v)
         case None => Err(InvalidTag)
         case Some(secret) => Ok(secret)
  }

  function RequireEnabled(db: Db, id: string): Result<KeyRow, OpError> {
    match GetKeyCurrent(db, id)
    case None => Err(KeyMissing)
    case Some(row) => if row.state != Enabled then Err(BadKeyState) else Ok(row)
  }

  function Decrypt(c: Crypto, kek: Option<bytes>, db: Db, id: string, text: string, aad: bytes)
    : Result<bytes, OpError>
  {
    var enabled := RequireEnabled(db, id);
    if enabled.Err? then Err(enabled.error)
    else match ParseCiphertext(text)
      case None => Err(Malformed)
      case Some(parsed) =>
        var secret := LoadVersion(c, kek, db, (id, parsed.0));
        if secret.Err? then Err(secret.error)
        else match Open(c.gcm, secret.value, parsed.1, aad)
          case None => Err(InvalidTag)
          case Some(plain) => Ok(plain)
  }

  // ---------------------------------------------------------------- steps ----

  /** A worker between two of its transactions. */
  datatype Task =
    | Idle
    | Rotating(id: string, seen: nat, keyType: KeyType)
    | Checked(v: VersionId, plain: bytes, aad: bytes)
    | Loaded(v: VersionId, suite: nat, secret: bytes, plain: bytes, aad: bytes)
    | Reserved(v: VersionId, suite: nat, secret: bytes, plain: bytes, aad: bytes, count: nat)

  /** One reserved slot of a version's nonce budget: the count that the bump returned. */
  datatype Ticket = Ticket(v: VersionId, count: nat)

  /** A ciphertext handed out; the secret and nonce are bookkeeping for the proofs only. */
  datatype Issued = Issued(ticket: Ticket, plain: bytes, aad: bytes, text: string, secret: bytes, nonce: bytes)

  /** The tables, the workers, and the history: ids ever used, slots, warnings, ciphertexts. */
  datatype State = State(db: Db, tasks: map<nat, Task>, born: set<string>,
                         reserved: set<Ticket>, warned: seq<VersionId>, issued: seq<Issued>)

  const START: State := State(NO_KEYS, map[], {}, {}, [], [])

  datatype Event =
    | Create(id: string, name: string, keyType: KeyType, suite: nat, secret: bytes, nonce: bytes, now: int)
    | BeginRotate(w: nat, id: string)
    | FinishRotate(w: nat, suite: nat, secret: bytes, nonce: bytes, now: int)
    | ChangeState(id: string, state: KeyState, deletionAt: Option<int>)
    | ChangePolicy(id: string, days: Option<int>)
    | Destroy(id: string)
    | BeginEncrypt(w: nat, id: string, plain: bytes, aad: bytes)
    | LoadSecret(w: nat)
    | Reserve(w: nat)
    | Emit(w: nat, nonce: bytes)
    | Crash(w: nat)

  function TaskOf(s: State, w: nat): Task {
    if w in s.tasks then s.tasks[w] else Idle
  }

  function WithTask(s: State, w: nat, t: Task): State {
    s.(tasks := s.tasks[w := t])
  }

  /** A new version row holding a wrapped secret, if it can be wrapped. */
  function WrapVersion(c: Crypto, kek: Option<bytes>, v: VersionId, suite: nat,
                       secret: bytes, nonce: bytes, now: int): Option<VersionRow>
  {
    if kek.None? || |nonce| != NONCE_LEN then None
    else match Seal(c.gcm, kek.value, nonce, secret, KeyAad(c, v))
         case None => None
         case Some(wrapped) => Some(VersionRow(suite, wrapped, now, Active, 0))
  }

  /** Ids come from uuid4 and never repeat: creation with a used id is no event of the system. */
  function StepCreate(c: Crypto, kek: Option<bytes>, s: State, e: Event): State
    requires e.Create?
  {
    var version := WrapVersion(c, kek, (e.id, 1), e.suite, e.secret, e.nonce, e.now);
    if e.id in s.born || version.None? then s
    else match CreateKey(s.db, e.id, KeyRow(e.name, e.keyType, 1, Enabled, None, None), version.value)
         case Err(_) => s
         case Ok(db) => s.(db := db, born := s.born + {e.id})
  }

  function StepFinishRotate(c: Crypto, kek: Option<bytes>, s: State, e: Event): State
    requires e.FinishRotate?
  {
    var t := TaskOf(s, e.w);
    if !t.Rotating? then s
    else
      var version := WrapVersion(c, kek, (t.id, t.seen + 1), e.suite, e.secret, e.nonce, e.now);
      if version.None? then WithTask(s, e.w, Idle)
      else match RotateKey(s.db, t.id, t.seen, version.value, t.seen + 1)
           case Err(_) => WithTask(s, e.w, Idle)
           case Ok(db) => WithTask(s.(db := db), e.w, Idle)
  }

  function StepReserve(policy: Policy, s: State, w: nat): State {
    var t := TaskOf(s, w);
    if !t.Loaded? then s
    else
      var (db, count) := IncrementUsageIfBelow(s.db, t.v.0, t.v.1, policy.hard);
      match count
      case None => WithTask(s, w, Idle)
      case Some(n) =>
        WithTask(s.(db := db, reserved := s.reserved + {Ticket(t.v, n)},
                    warned := if n == policy.soft then s.warned + [t.v] else s.warned),
                 w, Reserved(t.v, t.suite, t.secret, t.plain, t.aad, n))
  }

  function StepEmit(c: Crypto, s: State, w: nat, nonce: bytes): State {
    var t := TaskOf(s, w);
    if !t.Reserved? || |nonce| != NONCE_LEN then s
    else match Seal(c.gcm, t.secret, nonce, t.plain, t.aad)
         case None => WithTask(s, w, Idle)
         case Some(blob) =>
           if t.suite >= 0x100 || t.v.1 >= 0x1_0000_0000 then WithTask(s, w, Idle)
           else
             var text := CiphertextText(t.suite, t.v.1, blob);
             var out := Issued(Ticket(t.v, t.count), t.plain, t.aad, text, t.secret, nonce);
             WithTask(s.(issued := s.issued + [out]), w, Idle)
  }

  function Step(c: Crypto, kek: Option<bytes>, policy: Policy, s: State, e: Event): State {
    match e
    case Create(_, _, _, _, _, _, _) => StepCreate(c, kek, s, e)
    case BeginRotate(w, id) =>
      var row := GetKeyCurrent(s.db, id);
      if kek.None? || row.None? then WithTask(s, w, Idle)
      else WithTask(s, w, Rotating(id, row.value.currentVersion, row.value.keyType))
    case FinishRotate(_, _, _, _, _) => StepFinishRotate(c, kek, s, e)
    case ChangeState(id, state, deletionAt) => s.(db := SetKeyState(s.db, id, state, deletionAt).0)
    case ChangePolicy(id, days) => s.(db := SetRotationPolicy(s.db, id, days).0)
    case Destroy(id) => s.(db := DestroyKey(s.db, id).0)
    case BeginEncrypt(w, id, plain, aad) =>
      var row := RequireEnabled(s.db, id);
      if row.Err? || row.value.keyType != AeadKey then WithTask(s, w, Idle)
      else WithTask(s, w, Checked((id, row.value.currentVersion), plain, aad))
    case LoadSecret(w) =>
      var t := TaskOf(s, w);
      if !t.Checked? then s
      else (
        match LoadVersion(c, kek, s.db, t.v)
        case Err(_) => WithTask(s, w, Idle)
        case Ok(secret) => WithTask(s, w, Loaded(t.v, s.db.versions[t.v].suite, secret, t.plain, t.aad))
      )
    case Reserve(w) => StepReserve(policy, s, w)
    case Emit(w, nonce) => StepEmit(c, s, w, nonce)
    case Crash(w) => WithTask(s, w, Idle)
  }

  // ------------------------------------------------------------ invariant ----

  /** While its key lives, a version keeps its row and the row its secret. */
  ghost predicate Holds(c: Crypto, root: Option<bytes>, db: Db, v: VersionId, secret: bytes) {
    v.0 in db.keys ==> v in db.versions && root.Some? && SecretOf(c, root.value, db, v) == Some(secret)
  }

  ghost predicate TaskOk(c: Crypto, root: Option<bytes>, s: State, t: Task) {
    match t
    case Idle => true
    case Rotating(id, seen, _) =>
      id in s.born && seen >= 1 && (id in s.db.keys ==> seen <= s.db.keys[id].currentVersion)
    case Checked(v, _, _) => v.0 in s.born
    case Loaded(v, _, secret, _, _) => v.0 in s.born && Holds(c, root, s.db, v, secret)
    case Reserved(v, _, secret, _, _, count) =>
      v.0 in s.born && Holds(c, root, s.db, v, secret) && Ticket(v, count) in s.reserved
  }

  ghost predicate IssuedOk(c: Crypto, root: Option<bytes>, s: State, i: Issued) {
    && i.ticket in s.reserved && i.ticket.v.0 in s.born
    && Holds(c, root, s.db, i.ticket.v, i.secret)
    && |i.nonce| == NONCE_LEN && |i.secret| == KEY_LEN && i.ticket.v.1 < 0x1_0000_0000
    && (exists suite: nat :: suite < 0x100
          && i.text == CiphertextText(suite, i.ticket.v.1, Seal(c.gcm, i.secret, i.nonce, i.plain, i.aad).value))
  }

  /** The slots of a version are 1 to its usage count, which never passes the limit. */
  ghost predicate TicketsOk(policy: Policy, s: State) {
    && (forall t :: t in s.reserved ==> t.v.0 in s.born && 1 <= t.count <= policy.hard)
    && (forall t :: t in s.reserved && t.v.0 in s.db.keys ==> t.v in s.db.versions)
    && (forall v, n: nat :: v in s.db.versions ==> (Ticket(v, n) in s.reserved <==> 1 <= n <= s.db.versions[v].usage))
    && (forall v :: v in s.db.versions ==> s.db.versions[v].usage == 0 || s.db.versions[v].usage <= policy.hard)
  }

  /** No slot is used twice: not by two ciphertexts, two workers, or one of each. */
  ghost predicate TicketsDistinct(s: State) {
    && (forall i, j :: 0 <= i < j < |s.issued| ==> s.issued[i].ticket != s.issued[j].ticket)
    && (forall w, i :: w in s.tasks && s.tasks[w].Reserved? && 0 <= i < |s.issued| ==>
          s.issued[i].ticket != Ticket(s.tasks[w].v, s.tasks[w].count))
    && (forall w, x :: w in s.tasks && x in s.tasks && w != x && s.tasks[w].Reserved? && s.tasks[x].Reserved? ==>
          Ticket(s.tasks[w].v, s.tasks[w].count) != Ticket(s.tasks[x].v, s.tasks[x].count))
  }

  ghost predicate WarningsOk(policy: Policy, s: State) {
    && (forall i, j :: 0 <= i < j < |s.warned| ==> s.warned[i] != s.warned[j])
    && (forall v :: v in s.warned <==> policy.soft >= 0 && Ticket(v, policy.soft) in s.reserved)
  }

  ghost predicate Inv(c: Crypto, root: Option<bytes>, policy: Policy, s: State) {
    && Consistent(s.db) && s.db.keys.Keys <= s.born
    && (forall w :: w in s.tasks ==> TaskOk(c, root, s, s.tasks[w]))
    && (forall i :: 0 <= i < |s.issued| ==> IssuedOk(c, root, s, s.issued[i]))
    && TicketsOk(policy, s) && TicketsDistinct(s) && WarningsOk(policy, s)
  }

  /** What steps may do to the tables: keys do not come back, rows keep their secrets. */
  ghost predicate Extends(s: State, s': State) {
    && s.born <= s'.born && s.reserved <= s'.reserved
    && (forall id :: id in s.born && id in s'.db.keys ==>
          id in s.db.keys && s.db.keys[id].currentVersion <= s'.db.keys[id].currentVersion)
    && (forall v :: v in s.db.versions && v.0 in s'.db.keys ==>
          v in s'.db.versions && s'.db.versions[v].wrapped == s.db.versions[v].wrapped)
  }

  /** What one stretch of a run may do and the next may do, both together may do. */
  lemma ExtendsTransitive(c: Crypto, root: Option<bytes>, policy: Policy, s: State, s1: State, s2: State)
    requires Inv(c, root, policy, s) && Extends(s, s1) && Extends(s1, s2)
    ensures Extends(s, s2)
  {
    hide TaskOk, IssuedOk, TicketsOk, TicketsDistinct, WarningsOk;
    forall v | v in s.db.versions && v.0 in s2.db.keys
      ensures v in s2.db.versions && s2.db.versions[v].wrapped == s.db.versions[v].wrapped
    {
      VersionAt(s.db, v);
    }
  }

  lemma HoldsLater(c: Crypto, root: Option<bytes>, s: State, s': State, v: VersionId, secret: bytes)
    requires Holds(c, root, s.db, v, secret) && Extends(s, s') && v.0 in s.born
    ensures Holds(c, root, s'.db, v, secret)
  {}

  lemma TaskLater(c: Crypto, root: Option<bytes>, s: State, s': State, t: Task)
    requires TaskOk(c, root, s, t) && Extends(s, s')
    ensures TaskOk(c, root, s', t)
  {
    hide Holds;
    match t {
      case Loaded(v, _, secret, _, _) => HoldsLater(c, root, s, s', v, secret);
      case Reserved(v, _, secret, _, _, _) => HoldsLater(c, root, s, s', v, secret);
      case _ =>
    }
  }

  lemma IssuedLater(c: Crypto, root: Option<bytes>, s: State, s': State, i: Issued)
    requires IssuedOk(c, root, s, i) && Extends(s, s')
    ensures IssuedOk(c, root, s', i)
  {
    hide Holds, CiphertextText, Seal;
    HoldsLater(c, root, s, s', i.ticket.v, i.secret);
  }

  /** Tables changed, workers and history as before. */
  lemma TablesStep(c: Crypto, root: Option<bytes>, policy: Policy, s: State, s': State)
    requires Inv(c, root, policy, s) && Extends(s, s')
    requires s' == s.(db := s'.db, born := s'.born)
    requires Consistent(s'.db) && s'.db.keys.Keys <= s'.born && TicketsOk(policy, s')
    ensures Inv(c, root, policy, s')
  {
    hide TaskOk, IssuedOk, Extends, TicketsOk, Consistent;
    forall w | w in s'.tasks
      ensures TaskOk(c, root, s', s'.tasks[w])
    {
      TaskLater(c, root, s, s', s.tasks[w]);
    }
    forall i | 0 <= i < |s'.issued|
      ensures IssuedOk(c, root, s', s'.issued[i])
    {
      IssuedLater(c, root, s, s', s.issued[i]);
    }
  }

  /** One worker moves on to a task that reserves nothing new. */
  lemma TaskStep(c: Crypto, root: Option<bytes>, policy: Policy, s: State, w: nat, t: Task)
    requires Inv(c, root, policy, s) && !t.Reserved? && TaskOk(c, root, s, t)
    ensures Inv(c, root, policy, WithTask(s, w, t))
  {
    hide Consistent, Holds, CiphertextText, Seal;
    var s' := WithTask(s, w, t);
    forall x | x in s'.tasks
      ensures TaskOk(c, root, s', s'.tasks[x])
    {
      TaskLater(c, root, s, s', if x == w then t else s.tasks[x]);
    }
    forall i | 0 <= i < |s'.issued|
      ensures IssuedOk(c, root, s', s'.issued[i])
    {
      IssuedLater(c, root, s, s', s.issued[i]);
    }
  }

  // ----------------------------------------------------- one step at a time ----

  lemma CreateStep(c: Crypto, kek: Option<bytes>, root: Option<bytes>, policy: Policy, s: State, e: Event)
    requires e.Create? && Inv(c, root, policy, s)
    ensures Inv(c, root, policy, StepCreate(c, kek, s, e)) && Extends(s, StepCreate(c, kek, s, e))
  {
    hide TaskOk, IssuedOk, TicketsDistinct, WarningsOk, Consistent;
    var s' := StepCreate(c, kek, s, e);
    if s' != s {
      var version := WrapVersion(c, kek, (e.id, 1), e.suite, e.secret, e.nonce, e.now).value;
      CreateConsistent(s.db, e.id, KeyRow(e.name, e.keyType, 1, Enabled, None, None), version);
      assert version.usage == 0;
      assert TicketsOk(policy, s');
      TablesStep(c, root, policy, s, s');
    }
  }

  lemma RotateTickets(policy: Policy, s: State, s': State, id: string, version: VersionRow)
    requires TicketsOk(policy, s) && Consistent(s.db) && id in s.db.keys
    requires version.state == Active && version.usage == 0
    requires var cv := s.db.keys[id].currentVersion;
      (id, cv + 1) !in s.db.versions && s' == s.(db := RotateKey(s.db, id, cv, version, cv + 1).value)
    ensures TicketsOk(policy, s') && Extends(s, s')
  {
    hide Consistent;
    var cv := s.db.keys[id].currentVersion;
    var added: VersionId := (id, cv + 1);
    assert forall n: nat :: Ticket(added, n) !in s.reserved;
    forall v, n: nat | v in s'.db.versions
      ensures Ticket(v, n) in s'.reserved <==> 1 <= n <= s'.db.versions[v].usage
    {
      if v != added {
        assert s'.db.versions[v].usage == s.db.versions[v].usage;
      }
    }
  }

  lemma FinishRotateStep(c: Crypto, kek: Option<bytes>, root: Option<bytes>, policy: Policy, s: State, e: Event)
    requires e.FinishRotate? && Inv(c, root, policy, s)
    ensures Inv(c, root, policy, StepFinishRotate(c, kek, s, e)) && Extends(s, StepFinishRotate(c, kek, s, e))
  {
    hide IssuedOk, TicketsDistinct, WarningsOk, Consistent, RotateKey, Holds, WrapVersion;
    var t := TaskOf(s, e.w);
    if t.Rotating? {
      assert TaskOk(c, root, s, t);
      var wrapped := WrapVersion(c, kek, (t.id, t.seen + 1), e.suite, e.secret, e.nonce, e.now);
      if wrapped.Some? {
        WrapFresh(c, kek, (t.id, t.seen + 1), e.suite, e.secret, e.nonce, e.now);
        RotateFromRead(s.db, t.id, t.seen, wrapped.value);
        var r := RotateKey(s.db, t.id, t.seen, wrapped.value, t.seen + 1);
        if r.Ok? {
          RotatedTables(c, root, policy, s, t.id, wrapped.value);
        } else {
          TaskStep(c, root, policy, s, e.w, Idle);
        }
        var s1 := if r.Ok? then s.(db := r.value) else s;
        TaskStep(c, root, policy, s1, e.w, Idle);
      } else {
        TaskStep(c, root, policy, s, e.w, Idle);
      }
    }
  }

  lemma WrapFresh(c: Crypto, kek: Option<bytes>, v: VersionId, suite: nat, secret: bytes, nonce: bytes, now: int)
    requires WrapVersion(c, kek, v, suite, secret, nonce, now).Some?
    ensures WrapVersion(c, kek, v, suite, secret, nonce, now).value.state == Active
    ensures WrapVersion(c, kek, v, suite, secret, nonce, now).value.usage == 0
  {}

  lemma RotatedTables(c: Crypto, root: Option<bytes>, policy: Policy, s: State, id: string, version: VersionRow)
    requires Inv(c, root, policy, s) && id in s.db.keys && version.state == Active && version.usage == 0
    ensures var cv := s.db.keys[id].currentVersion;
      var s' := s.(db := RotateKey(s.db, id, cv, version, cv + 1).value);
      (id, cv + 1) !in s.db.versions && Inv(c, root, policy, s') && Extends(s, s')
  {
    hide TaskOk, IssuedOk, TicketsDistinct, WarningsOk, Consistent, TicketsOk;
    var cv := s.db.keys[id].currentVersion;
    RotateConsistent(s.db, id, version);
    var s' := s.(db := RotateKey(s.db, id, cv, version, cv + 1).value);
    RotateTickets(policy, s, s', id, version);
    TablesStep(c, root, policy, s, s');
  }

  lemma DestroyStep(c: Crypto, root: Option<bytes>, policy: Policy, s: State, id: string)
    requires Inv(c, root, policy, s)
    ensures var s' := s.(db := DestroyKey(s.db, id).0); Inv(c, root, policy, s') && Extends(s, s')
  {
    hide TaskOk, IssuedOk, TicketsDistinct, WarningsOk, Consistent;
    var s' := s.(db := DestroyKey(s.db, id).0);
    DestroyConsistent(s.db, id);
    assert TicketsOk(policy, s');
    TablesStep(c, root, policy, s, s');
  }

  lemma RowStep(c: Crypto, root: Option<bytes>, policy: Policy, s: State, id: string, row: KeyRow)
    requires Inv(c, root, policy, s) && id in s.db.keys
    requires row.name == s.db.keys[id].name && row.currentVersion == s.db.keys[id].currentVersion
    ensures var s' := s.(db := s.db.(keys := s.db.keys[id := row])); Inv(c, root, policy, s') && Extends(s, s')
  {
    hide TaskOk, IssuedOk, TicketsDistinct, WarningsOk, Consistent;
    var s' := s.(db := s.db.(keys := s.db.keys[id := row]));
    RowChangeConsistent(s.db, id, row);
    assert TicketsOk(policy, s');
    TablesStep(c, root, policy, s, s');
  }

  lemma BeginStep(c: Crypto, kek: Option<bytes>, root: Option<bytes>, policy: Policy, s: State, e: Event)
    requires (e.BeginRotate? || e.BeginEncrypt? || e.Crash?) && Inv(c, root, policy, s)
    ensures Inv(c, root, policy, Step(c, kek, policy, s, e)) && Extends(s, Step(c, kek, policy, s, e))
  {
    hide IssuedOk, TicketsDistinct, WarningsOk, TicketsOk, Consistent;
    var s' := Step(c, kek, policy, s, e);
    var t := TaskOf(s', e.w);
    if e.BeginRotate? && e.id in s.db.keys {
      CompleteAt(s.db, e.id);
    }
    TaskStep(c, root, policy, s, e.w, t);
  }

  lemma CompleteAt(db: Db, id: string)
    requires Consistent(db) && id in db.keys
    ensures Complete(db, id)
  {}

  lemma LoadStep(c: Crypto, kek: Option<bytes>, root: Option<bytes>, policy: Policy, s: State, w: nat)
    requires Inv(c, root, policy, s) && (kek.Some? ==> kek == root)
    ensures Inv(c, root, policy, Step(c, kek, policy, s, LoadSecret(w)))
    ensures Extends(s, Step(c, kek, policy, s, LoadSecret(w)))
  {
    hide IssuedOk, TicketsDistinct, WarningsOk, TicketsOk, Consistent, SecretOf;
    var t := TaskOf(s, w);
    if t.Checked? {
      assert TaskOk(c, root, s, t);
      TaskStep(c, root, policy, s, w, TaskOf(Step(c, kek, policy, s, LoadSecret(w)), w));
    }
  }

  /** The bump takes the next slot, which nobody had. */
  lemma ReserveTickets(policy: Policy, s: State, v: VersionId, db: Db, n: nat)
    requires TicketsOk(policy, s) && WarningsOk(policy, s) && v.0 in s.born && s.db.keys.Keys <= s.born
    requires IncrementUsageIfBelow(s.db, v.0, v.1, policy.hard) == (db, Some(n))
    ensures Ticket(v, n) !in s.reserved
    ensures var s' := s.(db := db, reserved := s.reserved + {Ticket(v, n)},
                         warned := if n == policy.soft then s.warned + [v] else s.warned);
      TicketsOk(policy, s') && WarningsOk(policy, s') && Extends(s, s')
  {
    var s' := s.(db := db, reserved := s.reserved + {Ticket(v, n)},
                 warned := if n == policy.soft then s.warned + [v] else s.warned);
    assert v == (v.0, v.1);
    assert Ticket(v, n) !in s.reserved;
    ReserveWarnings(policy, s, s', v, n);
  }

  lemma ReserveWarnings(policy: Policy, s: State, s': State, v: VersionId, n: nat)
    requires WarningsOk(policy, s) && Ticket(v, n) !in s.reserved
    requires s'.reserved == s.reserved + {Ticket(v, n)}
    requires s'.warned == if n == policy.soft then s.warned + [v] else s.warned
    ensures WarningsOk(policy, s')
  {}

  lemma ReserveStep(c: Crypto, root: Option<bytes>, policy: Policy, s: State, w: nat)
    requires Inv(c, root, policy, s)
    ensures Inv(c, root, policy, StepReserve(policy, s, w)) && Extends(s, StepReserve(policy, s, w))
  {
    hide IssuedOk, WarningsOk, TicketsOk, Consistent, Holds, Extends, IncrementUsageIfBelow;
    var t := TaskOf(s, w);
    if t.Loaded? {
      assert TaskOk(c, root, s, t);
      assert t.v == (t.v.0, t.v.1);
      var (db, count) := IncrementUsageIfBelow(s.db, t.v.0, t.v.1, policy.hard);
      if count.None? {
        TaskStep(c, root, policy, s, w, Idle);
        ExtendsSelf(s, WithTask(s, w, Idle));
      } else {
        ReserveTickets(policy, s, t.v, db, count.value);
        IncrementConsistent(s.db, t.v.0, t.v.1, policy.hard);
        IncrementKeepsKeys(s.db, t.v.0, t.v.1, policy.hard);
        ReservedState(c, root, policy, s, w, db, count.value);
      }
    } else {
      ExtendsSelf(s, s);
    }
  }

  lemma ExtendsSelf(s: State, s': State)
    requires s'.db == s.db && s'.born == s.born && s'.reserved == s.reserved
    ensures Extends(s, s')
  {}

  lemma IncrementKeepsKeys(db: Db, id: string, version: nat, hardLimit: int)
    ensures IncrementUsageIfBelow(db, id, version, hardLimit).0.keys == db.keys
  {}

  lemma ReservedState(c: Crypto, root: Option<bytes>, policy: Policy, s: State, w: nat, db: Db, n: nat)
    requires Inv(c, root, policy, s) && TaskOf(s, w).Loaded? && Consistent(db) && db.keys == s.db.keys
    requires var t := TaskOf(s, w);
      var s1 := s.(db := db, reserved := s.reserved + {Ticket(t.v, n)},
                   warned := if n == policy.soft then s.warned + [t.v] else s.warned);
      Ticket(t.v, n) !in s.reserved && TicketsOk(policy, s1) && WarningsOk(policy, s1) && Extends(s, s1)
    ensures var t := TaskOf(s, w);
      var s1 := s.(db := db, reserved := s.reserved + {Ticket(t.v, n)},
                   warned := if n == policy.soft then s.warned + [t.v] else s.warned);
      var s' := WithTask(s1, w, Reserved(t.v, t.suite, t.secret, t.plain, t.aad, n));
      Inv(c, root, policy, s') && Extends(s, s')
  {
    hide WarningsOk, TicketsOk, Consistent, Holds, IssuedOk, Extends;
    var t := TaskOf(s, w);
    assert TaskOk(c, root, s, t);
    var s1 := s.(db := db, reserved := s.reserved + {Ticket(t.v, n)},
                 warned := if n == policy.soft then s.warned + [t.v] else s.warned);
    var s' := WithTask(s1, w, Reserved(t.v, t.suite, t.secret, t.plain, t.aad, n));
    SameTables(policy, s1, s');
    ExtendsVia(s, s1, s');
    forall x | x in s'.tasks
      ensures TaskOk(c, root, s', s'.tasks[x])
    {
      TaskLater(c, root, s, s', if x == w then t else s.tasks[x]);
    }
    forall i | 0 <= i < |s'.issued|
      ensures IssuedOk(c, root, s', s'.issued[i])
    {
      IssuedLater(c, root, s, s', s.issued[i]);
    }
    IssuedReserved(c, root, s);
    assert TicketsDistinct(s') by {
      forall x | x in s.tasks && x != w && s.tasks[x].Reserved?
        ensures Ticket(s.tasks[x].v, s.tasks[x].count) in s.reserved
      {
        assert TaskOk(c, root, s, s.tasks[x]);
      }
    }
  }

  lemma IssuedReserved(c: Crypto, root: Option<bytes>, s: State)
    requires forall i :: 0 <= i < |s.issued| ==> IssuedOk(c, root, s, s.issued[i])
    ensures forall i :: 0 <= i < |s.issued| ==> s.issued[i].ticket in s.reserved
  {
    hide Holds, CiphertextText, Seal;
  }

  lemma SameTables(policy: Policy, s: State, s': State)
    requires s'.db == s.db && s'.born == s.born && s'.reserved == s.reserved && s'.warned == s.warned
    ensures TicketsOk(policy, s) ==> TicketsOk(policy, s')
    ensures WarningsOk(policy, s) ==> WarningsOk(policy, s')
  {}

  lemma ExtendsVia(s: State, s1: State, s': State)
    requires Extends(s, s1) && s'.db == s1.db && s'.born == s1.born && s'.reserved == s1.reserved
    ensures Extends(s, s')
  {}

  lemma EmitStep(c: Crypto, root: Option<bytes>, policy: Policy, s: State, w: nat, nonce: bytes)
    requires Inv(c, root, policy, s)
    ensures Inv(c, root, policy, StepEmit(c, s, w, nonce)) && Extends(s, StepEmit(c, s, w, nonce))
  {
    hide WarningsOk, TicketsOk, Consistent, Holds, IssuedOk, Extends, CiphertextText, Seal;
    var s' := StepEmit(c, s, w, nonce);
    var t := TaskOf(s, w);
    ExtendsSelf(s, s');
    if s' != s {
      if s'.issued == s.issued {
        TaskStep(c, root, policy, s, w, Idle);
      } else {
        assert TaskOk(c, root, s, t);
        SameTables(policy, s, s');
        EmittedDistinct(s, w, s'.issued[|s.issued|]);
        EmittedOk(c, root, s, s', t, nonce);
        hide TicketsDistinct;
        forall x | x in s'.tasks
          ensures TaskOk(c, root, s', s'.tasks[x])
        {
          TaskLater(c, root, s, s', if x == w then Idle else s.tasks[x]);
        }
        forall i | 0 <= i < |s'.issued|
          ensures IssuedOk(c, root, s', s'.issued[i])
        {
          if i < |s.issued| {
            IssuedLater(c, root, s, s', s.issued[i]);
          }
        }
      }
    }
  }

  lemma EmittedDistinct(s: State, w: nat, i: Issued)
    requires TicketsDistinct(s) && w in s.tasks && s.tasks[w].Reserved?
    requires i.ticket == Ticket(s.tasks[w].v, s.tasks[w].count)
    ensures TicketsDistinct(WithTask(s.(issued := s.issued + [i]), w, Idle))
  {}

  lemma EmittedOk(c: Crypto, root: Option<bytes>, s: State, s': State, t: Task, nonce: bytes)
    requires t.Reserved? && TaskOk(c, root, s, t) && s'.db == s.db && s'.born == s.born && s'.reserved == s.reserved
    requires |nonce| == NONCE_LEN && Seal(c.gcm, t.secret, nonce, t.plain, t.aad).Some?
    requires t.suite < 0x100 && t.v.1 < 0x1_0000_0000
    ensures IssuedOk(c, root, s', Issued(Ticket(t.v, t.count), t.plain, t.aad,
      CiphertextText(t.suite, t.v.1, Seal(c.gcm, t.secret, nonce, t.plain, t.aad).value), t.secret, nonce))
  {
    hide CiphertextText;
  }

  lemma StepKeepsInv(c: Crypto, kek: Option<bytes>, root: Option<bytes>, policy: Policy, s: State, e: Event)
    requires Inv(c, root, policy, s) && (kek.Some? ==> kek == root)
    ensures Inv(c, root, policy, Step(c, kek, policy, s, e)) && Extends(s, Step(c, kek, policy, s, e))
  {
    hide Inv, Extends, StepCreate, StepFinishRotate, StepReserve, StepEmit;
    match e {
      case Create(_, _, _, _, _, _, _) => CreateStep(c, kek, root, policy, s, e);
      case FinishRotate(_, _, _, _, _) => FinishRotateStep(c, kek, root, policy, s, e);
      case Destroy(id) => DestroyStep(c, root, policy, s, id);
      case ChangeState(id, state, deletionAt) =>
        ExtendsSelf(s, s);
        if id in s.db.keys {
          RowStep(c, root, policy, s, id, s.db.keys[id].(state := state, deletionAt := deletionAt));
        }
      case ChangePolicy(id, days) =>
        ExtendsSelf(s, s);
        if id in s.db.keys {
          RowStep(c, root, policy, s, id, s.db.keys[id].(rotationDays := days));
        }
      case LoadSecret(w) => LoadStep(c, kek, root, policy, s, w);
      case Reserve(w) => ReserveStep(c, root, policy, s, w);
      case Emit(w, nonce) => EmitStep(c, root, policy, s, w, nonce);
      case _ => BeginStep(c, kek, root, policy, s, e);
    }
  }

  // ---------------------------------------------------------- nonce budget ----

  /** The slots of a version that have been reserved. */
  ghost function Slots(s: State, v: VersionId): set<nat> {
    set t | t in s.reserved && t.v == v :: t.count
  }

  /** How many ciphertexts were handed out under a version. */
  function CountIssued(issued: seq<Issued>, v: VersionId): nat {
    if issued == [] then 0
    else CountIssued(issued[..|issued| - 1], v) + if issued[|issued| - 1].ticket.v == v then 1 else 0
  }

  function UpTo(n: nat): (r: set<nat>)
    ensures |r| == n && forall i :: i in r <==> 1 <= i <= n
  {
    if n == 0 then {} else UpTo(n - 1) + {n}
  }

  lemma SubsetSize(a: set<nat>, b: set<nat>)
    requires a <= b
    ensures |a| <= |b|
  {
    assert b == a + (b - a);
  }

  lemma {:induction false} IssuedFitSlots(issued: seq<Issued>, slots: set<nat>, v: VersionId)
    requires forall i :: 0 <= i < |issued| && issued[i].ticket.v == v ==> issued[i].ticket.count in slots
    requires forall i, j :: 0 <= i < j < |issued| ==> issued[i].ticket != issued[j].ticket
    ensures CountIssued(issued, v) <= |slots|
  {
    if issued != [] {
      var last := issued[|issued| - 1];
      var front := issued[..|issued| - 1];
      if last.ticket.v == v {
        var rest := slots - {last.ticket.count};
        forall i | 0 <= i < |front| && front[i].ticket.v == v
          ensures front[i].ticket.count in rest
        {
          assert front[i] == issued[i];
        }
        IssuedFitSlots(front, rest, v);
        assert |rest| == |slots| - 1;
      } else {
        IssuedFitSlots(front, slots, v);
      }
    }
  }

  /**
    Under every version: ciphertexts <= reservations <= hard limit; while the row
    exists the counter is the number of reservations; and at most one warning fires,
    exactly once the soft limit has been reached.
   */
  lemma NonceBudget(c: Crypto, root: Option<bytes>, policy: Policy, s: State, v: VersionId)
    requires Inv(c, root, policy, s)
    ensures CountIssued(s.issued, v) <= |Slots(s, v)|
    ensures |Slots(s, v)| <= if policy.hard >= 0 then policy.hard else 0
    ensures v in s.db.versions ==> s.db.versions[v].usage == |Slots(s, v)|
    ensures multiset(s.warned)[v] <= 1
    ensures v in s.db.versions && policy.soft >= 1 ==> (v in s.warned <==> s.db.versions[v].usage >= policy.soft)
  {
    hide Consistent, TaskOk;
    var slots := Slots(s, v);
    IssuedReserved(c, root, s);
    forall i | 0 <= i < |s.issued| && s.issued[i].ticket.v == v
      ensures s.issued[i].ticket.count in slots
    {
      assert s.issued[i].ticket in s.reserved;
    }
    IssuedFitSlots(s.issued, slots, v);
    SlotsBounded(policy, s, v);
    WarnedOnce(s.warned, v);
  }

  lemma SlotsBounded(policy: Policy, s: State, v: VersionId)
    requires TicketsOk(policy, s)
    ensures |Slots(s, v)| <= if policy.hard >= 0 then policy.hard else 0
    ensures v in s.db.versions ==> s.db.versions[v].usage == |Slots(s, v)|
  {
    var slots := Slots(s, v);
    var hard: nat := if policy.hard >= 0 then policy.hard else 0;
    forall n | n in slots
      ensures n in UpTo(hard)
    {
      assert Ticket(v, n) in s.reserved;
    }
    SubsetSize(slots, UpTo(hard));
    if v in s.db.versions {
      var usage := s.db.versions[v].usage;
      forall n: nat
        ensures n in slots <==> n in UpTo(usage)
      {
        if Ticket(v, n) in s.reserved {
          assert n in slots;
        }
      }
      assert slots == UpTo(usage);
    }
  }

  lemma {:induction false} WarnedOnce(warned: seq<VersionId>, v: VersionId)
    requires forall i, j :: 0 <= i < j < |warned| ==> warned[i] != warned[j]
    ensures multiset(warned)[v] <= 1
  {
    if warned != [] {
      var front, last := warned[..|warned| - 1], warned[|warned| - 1];
      WarnedOnce(front, v);
      assert warned == front + [last];
      if last == v {
        assert v !in front;
      }
    }
  }

  // ---------------------------------------------------- starting from tables ----

  /** The slots that the counters of the tables stand for. */
  function SlotsOf(db: Db): set<Ticket> {
    set v, n | v in db.versions && n in UpTo(db.versions[v].usage) :: Ticket(v, n)
  }

  lemma {:induction false} Listed(s: set<VersionId>) returns (r: seq<VersionId>)
    ensures forall v :: v in r <==> v in s
    ensures forall i, j :: 0 <= i < j < |r| ==> r[i] != r[j]
    ensures s == {} ==> r == []
  {
    if s == {} {
      r := [];
    } else {
      var v :| v in s;
      r := Listed(s - {v});
      r := [v] + r;
    }
  }

  /** Any exact tables with counters within the limit can be where a run starts. */
  lemma OfTables(c: Crypto, root: Option<bytes>, policy: Policy, db: Db) returns (s: State)
    requires Consistent(db)
    requires forall v :: v in db.versions ==> db.versions[v].usage == 0 || db.versions[v].usage <= policy.hard
    ensures Inv(c, root, policy, s) && s.db == db && s.tasks == map[]
    ensures db == NO_KEYS ==> s == START
  {
    var crossed := set v | v in db.versions && 1 <= policy.soft <= db.versions[v].usage;
    var warned := Listed(crossed);
    s := State(db, map[], db.keys.Keys, SlotsOf(db), warned, []);
    assert forall v, n: nat :: Ticket(v, n) in s.reserved <==> v in db.versions && 1 <= n <= db.versions[v].usage;
    forall t | t in s.reserved
      ensures t.v in db.versions && t.v.0 in s.born
    {
      VersionAt(db, t.v);
    }
  }

  // ------------------------------------------------------------- durability ----

  /** Whatever was handed out decrypts to what went in while its key exists, is enabled, and the store is unlocked. */
  lemma IssuedDecrypts(c: Crypto, root: Option<bytes>, policy: Policy, s: State, i: nat)
    requires Lawful(c.gcm) && Inv(c, root, policy, s) && i < |s.issued| && root.Some?
    requires var id := s.issued[i].ticket.v.0; id in s.db.keys && s.db.keys[id].state == Enabled
    ensures Decrypt(c, root, s.db, s.issued[i].ticket.v.0, s.issued[i].text, s.issued[i].aad) == Ok(s.issued[i].plain)
  {
    var x := s.issued[i];
    assert IssuedOk(c, root, s, x);
    hide TaskOk, TicketsOk, TicketsDistinct, WarningsOk, Consistent, Seal, Open, CiphertextText, ParseCiphertext;
    var v := x.ticket.v;
    assert v == (v.0, v.1);
    CurrentJoins(s.db, v.0);
    OpenSeal(c.gcm, x.secret, x.nonce, x.plain, x.aad);
    var blob := Seal(c.gcm, x.secret, x.nonce, x.plain, x.aad).value;
    var suite: nat :| suite < 0x100 && x.text == CiphertextText(suite, v.1, blob);
    CiphertextRoundTrip(suite, v.1, blob);
  }

  /** The secret that a creation or rotation stores. */
  ghost predicate Stores(e: Event, secret: bytes) {
    (e.Create? || e.FinishRotate?) && e.secret == secret
  }

  /** A version that an event brings into being holds the secret that came with it. */
  lemma StoredIsHeld(c: Crypto, kek: Option<bytes>, root: Option<bytes>, policy: Policy,
                     s: State, e: Event, v: VersionId, secret: bytes)
    requires Lawful(c.gcm) && (kek.Some? ==> kek == root) && Stores(e, secret)
    requires v !in s.db.versions && v in Step(c, kek, policy, s, e).db.versions
    ensures Holds(c, root, Step(c, kek, policy, s, e).db, v, secret) && root.Some?
  {
    hide Lawful, Seal, Open;
    var id := if e.Create? then (e.id, 1) else (TaskOf(s, e.w).id, TaskOf(s, e.w).seen + 1);
    assert v == id;
    WrapHolds(c, kek, v, e.suite, secret, e.nonce, e.now);
  }

  lemma WrapHolds(c: Crypto, kek: Option<bytes>, v: VersionId, suite: nat, secret: bytes, nonce: bytes, now: int)
    requires Lawful(c.gcm) && WrapVersion(c, kek, v, suite, secret, nonce, now).Some?
    ensures var row := WrapVersion(c, kek, v, suite, secret, nonce, now).value;
      kek.Some? && Open(c.gcm, kek.value, row.wrapped, KeyAad(c, v)) == Some(secret)
  {
    OpenSeal(c.gcm, kek.value, nonce, secret, KeyAad(c, v));
  }

  /** A rotation that was overtaken, or whose key is gone, leaves the tables as they are. */
  lemma LosingRotateChangesNothing(c: Crypto, kek: Option<bytes>, root: Option<bytes>,
                                   policy: Policy, s: State, e: Event)
    requires Inv(c, root, policy, s) && e.FinishRotate? && TaskOf(s, e.w).Rotating?
    requires var t := TaskOf(s, e.w); t.id !in s.db.keys || s.db.keys[t.id].currentVersion != t.seen
    ensures Step(c, kek, policy, s, e).db == s.db
  {
    hide Consistent, WrapVersion, IssuedOk, TicketsOk, TicketsDistinct, WarningsOk;
    var t := TaskOf(s, e.w);
    assert TaskOk(c, root, s, t);
    var wrapped := WrapVersion(c, kek, (t.id, t.seen + 1), e.suite, e.secret, e.nonce, e.now);
    if wrapped.Some? {
      WrapFresh(c, kek, (t.id, t.seen + 1), e.suite, e.secret, e.nonce, e.now);
      RotateFromRead(s.db, t.id, t.seen, wrapped.value);
    }
  }

  /** Before a root key exists no version can hold a secret, so any root key fits. */
  lemma AnyRootFits(c: Crypto, root: Option<bytes>, policy: Policy, s: State)
    requires Inv(c, None, policy, s)
    ensures Inv(c, root, policy, s)
  {
    hide Consistent, TicketsOk, TicketsDistinct, WarningsOk, CiphertextText, Seal;
    forall w | w in s.tasks
      ensures TaskOk(c, root, s, s.tasks[w])
    {
      assert TaskOk(c, None, s, s.tasks[w]);
    }
    forall i | 0 <= i < |s.issued|
      ensures IssuedOk(c, root, s, s.issued[i])
    {
      assert IssuedOk(c, None, s, s.issued[i]);
    }
  }

  // ------------------------------------------------------------ quiet keys ----

  /** The key exists, is enabled, and is for encryption. */
  predicate Usable(db: Db, id: string) {
    id in db.keys && db.keys[id].state == Enabled && db.keys[id].keyType == AeadKey
  }

  /** A key that cannot be used, with no encryption under it on its way. */
  ghost predicate Quiet(s: State, id: string) {
    && id in s.born && !Usable(s.db, id)
    && forall w :: w in s.tasks ==> !Under(s.tasks[w], id)
  }

  /** The task is an encryption under the key. */
  predicate Under(t: Task, id: string) {
    (t.Checked? || t.Loaded? || t.Reserved?) && t.v.0 == id
  }

  /** The one event that makes a key usable again. */
  predicate Enables(s: State, e: Event, id: string) {
    e.ChangeState? && e.id == id && e.state == Enabled && id in s.db.keys && s.db.keys[id].keyType == AeadKey
  }

  /** No slot of the key was spent and no ciphertext under it handed out. */
  ghost predicate NothingSpent(s: State, s': State, id: string) {
    && (forall t: Ticket :: t.v.0 == id ==> (t in s'.reserved <==> t in s.reserved))
    && s.issued <= s'.issued
    && (forall i :: |s.issued| <= i < |s'.issued| ==> s'.issued[i].ticket.v.0 != id)
  }

  lemma StaysUnusable(c: Crypto, kek: Option<bytes>, policy: Policy, s: State, e: Event, id: string)
    requires id in s.born && !Usable(s.db, id) && !Enables(s, e, id) && s.db.keys.Keys <= s.born
    ensures var s' := Step(c, kek, policy, s, e); id in s'.born && !Usable(s'.db, id)
  {
    hide LoadVersion, WrapVersion, CiphertextText, Aead.Seal;
  }

  /** A worker begins nothing under a key that cannot be used. */
  lemma BeginsNothing(c: Crypto, kek: Option<bytes>, policy: Policy, s: State, e: Event, id: string, w: nat)
    requires !Usable(s.db, id) && !Under(TaskOf(s, w), id)
    ensures !Under(TaskOf(Step(c, kek, policy, s, e), w), id)
  {
    hide LoadVersion, WrapVersion, CiphertextText, Aead.Seal, CreateKey, RotateKey, IncrementUsageIfBelow;
  }

  lemma SpendsNothing(c: Crypto, kek: Option<bytes>, policy: Policy, s: State, e: Event, id: string)
    requires forall w :: !Under(TaskOf(s, w), id)
    ensures NothingSpent(s, Step(c, kek, policy, s, e), id)
  {
    hide LoadVersion, WrapVersion, CiphertextText, Aead.Seal, CreateKey, RotateKey, RequireEnabled;
    if e.Reserve? || e.Emit? {
      assert !Under(TaskOf(s, e.w), id);
    }
  }

  /** Whatever any worker does, but enabling it, a quiet key stays quiet and nothing is spent. */
  lemma QuietStep(c: Crypto, kek: Option<bytes>, policy: Policy, s: State, e: Event, id: string)
    requires Quiet(s, id) && !Enables(s, e, id) && s.db.keys.Keys <= s.born
    ensures Quiet(Step(c, kek, policy, s, e), id) && NothingSpent(s, Step(c, kek, policy, s, e), id)
  {
    hide Step, Usable, Enables, NothingSpent;
    var s' := Step(c, kek, policy, s, e);
    StaysUnusable(c, kek, policy, s, e, id);
    SpendsNothing(c, kek, policy, s, e, id);
    forall w | w in s'.tasks
      ensures !Under(s'.tasks[w], id)
    {
      BeginsNothing(c, kek, policy, s, e, id, w);
    }
  }

  lemma NothingSpentVia(s: State, s1: State, s2: State, id: string)
    requires NothingSpent(s, s1, id) && NothingSpent(s1, s2, id)
    ensures NothingSpent(s, s2, id)
  {}
}
