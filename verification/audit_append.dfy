/**
  Appending to the audit log from any number of replicas: each reads the head,
  builds a row on it, and inserts; an insert whose predecessor hash is already taken
  violates the UNIQUE index and is retried from the new head.
 */
module AuditAppend {
  import opened Bytes
  import opened Wrappers
  import opened AuditChain

  /** The row built for an entry on top of a given predecessor. */
  function BuildRow(c: Primitives, seqNo: nat, prev: bytes, e: Entry): Row {
    var h := Hash(c, HashInput(prev, e));
    Row(seqNo, e, prev, h, Sign(c, h))
  }

  /** The UNIQUE index on predecessor hashes has this slot. */
  ghost predicate Taken(rows: seq<Row>, prev: bytes) {
    exists i :: 0 <= i < |rows| && rows[i].prevHash == prev
  }

  lemma BuiltRowIsGood(c: Primitives, seqNo: nat, prev: bytes, e: Entry)
    requires VerifyAcceptsSign(c)
    ensures GoodRow(c, prev, BuildRow(c, seqNo, prev, e))
  {}

  /** In a chain, every earlier head is taken; only the current one can be free. */
  lemma EarlierHeadsTaken(c: Primitives, rows: seq<Row>, at: nat)
    requires Chain(c, rows) && at < |rows|
    ensures Taken(rows, Head(rows[..at]))
  {
    ChainAt(c, rows, at);
  }

  /** A chain none of whose digests collide or look like the start of the log. */
  ghost predicate CleanHashes(c: Primitives, rows: seq<Row>) {
    DigestsAre48Bytes(c) && CollisionFree(c, rows, rows) && NoZeroPrefix(rows)
  }

  /** Then the current head is free. */
  lemma HeadIsFree(c: Primitives, rows: seq<Row>)
    requires Chain(c, rows) && CleanHashes(c, rows)
    ensures !Taken(rows, Head(rows))
  {
    if Taken(rows, Head(rows)) {
      var i :| 0 <= i < |rows| && rows[i].prevHash == Head(rows);
      ChainIsLinked(c, rows);
      ChainAt(c, rows, i);
      assert rows[..|rows|] == rows;
      HeadsDiffer(c, rows, i, |rows|);
    }
  }

  lemma CleanPrefix(c: Primitives, rows: seq<Row>, n: nat)
    requires CleanHashes(c, rows) && n <= |rows|
    ensures CleanHashes(c, rows[..n])
  {}

  // -------------------------------------------------------- interleavings ----

  /**
    An appender between two of its transactions. `from` is the length of the log when
    the call began, `at` when the head was read: bookkeeping for the proofs only.
   */
  datatype Appender =
    | Idle
    | Trying(entry: Entry, attempt: nat, from: nat)
    | Holding(entry: Entry, attempt: nat, from: nat, prev: bytes, at: nat)
    | Failed(from: nat, until: nat)

  datatype System = System(rows: seq<Row>, nextSeq: nat, appenders: map<nat, Appender>)

  datatype Event =
    | Begin(id: nat, entry: Entry)
    | ReadHead(id: nat)
    | Insert(id: nat)

  const MAX_RETRIES: nat := 8

  function AppenderOf(s: System, id: nat): Appender {
    if id in s.appenders then s.appenders[id] else Idle
  }

  ghost function Step(c: Primitives, s: System, event: Event): System {
    var a := AppenderOf(s, event.id);
    match event
    case Begin(id, e) =>
      if a.Idle? || a.Failed? then s.(appenders := s.appenders[id := Trying(e, 0, |s.rows|)]) else s
    case ReadHead(id) =>
      if a.Trying? then
        s.(appenders := s.appenders[id := Holding(a.entry, a.attempt, a.from, Head(s.rows), |s.rows|)])
      else s
    case Insert(id) =>
      if !a.Holding? then s
      else if Taken(s.rows, a.prev) then
        // IntegrityError: the transaction rolls back; the sequence number may be lost.
        var next := if a.attempt + 1 == MAX_RETRIES then Failed(a.from, |s.rows|)
                    else Trying(a.entry, a.attempt + 1, a.from);
        s.(nextSeq := s.nextSeq + 1, appenders := s.appenders[id := next])
      else
        s.(rows := s.rows + [BuildRow(c, s.nextSeq, a.prev, a.entry)], nextSeq := s.nextSeq + 1,
           appenders := s.appenders[id := Idle])
  }

  ghost function Run(c: Primitives, s: System, events: seq<Event>): System
    decreases |events|
  {
    if events == [] then s else Run(c, Step(c, s, events[0]), events[1..])
  }

  const EMPTY: System := System([], 0, map[])

  /** What an appender remembers is true of the log it looked at. */
  ghost predicate Sincere(c: Primitives, rows: seq<Row>, a: Appender) {
    match a
    case Idle => true
    case Trying(_, attempt, from) => from <= |rows| && attempt < MAX_RETRIES
      && (CleanHashes(c, rows) ==> |rows| >= from + attempt)
    case Holding(_, attempt, from, prev, at) => from <= at <= |rows| && attempt < MAX_RETRIES
      && prev == Head(rows[..at]) && (CleanHashes(c, rows) ==> at >= from + attempt)
    case Failed(from, until) => from <= until <= |rows| && (CleanHashes(c, rows) ==> until >= from + MAX_RETRIES)
  }

  ghost predicate Ordered(rows: seq<Row>, nextSeq: nat) {
    && (forall i, j :: 0 <= i < j < |rows| ==> rows[i].seqNo < rows[j].seqNo)
    && (forall i :: 0 <= i < |rows| ==> rows[i].seqNo < nextSeq)
  }

  ghost predicate Inv(c: Primitives, s: System) {
    && Chain(c, s.rows)
    && Ordered(s.rows, s.nextSeq)
    && (forall id :: id in s.appenders ==> Sincere(c, s.rows, s.appenders[id]))
  }

  /** An insert that commits extends the current head: the log never forks. */
  lemma InsertExtendsHead(c: Primitives, s: System, id: nat)
    requires Inv(c, s) && AppenderOf(s, id).Holding? && !Taken(s.rows, AppenderOf(s, id).prev)
    ensures AppenderOf(s, id).prev == Head(s.rows) && AppenderOf(s, id).at == |s.rows|
  {
    var a := AppenderOf(s, id);
    assert Sincere(c, s.rows, a);
    if a.at < |s.rows| {
      EarlierHeadsTaken(c, s.rows, a.at);
    }
    assert s.rows[..|s.rows|] == s.rows;
  }

  /** A rejected insert means that somebody else committed since the head was read. */
  lemma RejectionMeansProgress(c: Primitives, s: System, id: nat)
    requires Inv(c, s) && AppenderOf(s, id).Holding? && Taken(s.rows, AppenderOf(s, id).prev)
    requires CleanHashes(c, s.rows)
    ensures AppenderOf(s, id).at < |s.rows|
  {
    var a := AppenderOf(s, id);
    assert Sincere(c, s.rows, a);
    if a.at == |s.rows| {
      assert s.rows[..a.at] == s.rows;
      HeadIsFree(c, s.rows);
    }
  }

  lemma SincereLater(c: Primitives, rows: seq<Row>, longer: seq<Row>, a: Appender)
    requires rows <= longer && Sincere(c, rows, a)
    ensures Sincere(c, longer, a)
  {
    hide CleanHashes;
    assert longer[..|rows|] == rows;
    if CleanHashes(c, longer) {
      CleanPrefix(c, longer, |rows|);
    }
    if a.Holding? {
      assert longer[..a.at] == rows[..a.at];
    }
  }

  lemma StepKeepsInv(c: Primitives, s: System, event: Event)
    requires VerifyAcceptsSign(c) && Inv(c, s)
    ensures Inv(c, Step(c, s, event)) && s.rows <= Step(c, s, event).rows
  {
    hide CleanHashes, BuildRow, Chain;
    var s' := Step(c, s, event);
    var a := AppenderOf(s, event.id);
    assert Sincere(c, s.rows, a);
    if event.ReadHead? {
      assert s.rows[..|s.rows|] == s.rows;
    }
    if event.Insert? && a.Holding? {
      if Taken(s.rows, a.prev) {
        if CleanHashes(c, s.rows) {
          RejectionMeansProgress(c, s, event.id);
        }
      } else {
        InsertExtendsHead(c, s, event.id);
        var row := BuildRow(c, s.nextSeq, a.prev, a.entry);
        assert row.seqNo == s.nextSeq by { BuiltSeqNo(c, s.nextSeq, a.prev, a.entry); }
        BuiltRowIsGood(c, s.nextSeq, a.prev, a.entry);
        ChainExtends(c, s.rows, row);
      }
    }
    forall id | id in s'.appenders
      ensures Sincere(c, s'.rows, s'.appenders[id])
    {
      if id != event.id {
        SincereLater(c, s.rows, s'.rows, s.appenders[id]);
      }
    }
  }

  lemma BuiltSeqNo(c: Primitives, seqNo: nat, prev: bytes, e: Entry)
    ensures BuildRow(c, seqNo, prev, e).seqNo == seqNo
  {}

  /** Every interleaving keeps one signed chain, and never rewrites it. */
  lemma {:induction false} RunKeepsInv(c: Primitives, s: System, events: seq<Event>)
    requires VerifyAcceptsSign(c) && Inv(c, s)
    ensures Inv(c, Run(c, s, events)) && s.rows <= Run(c, s, events).rows
    decreases |events|
  {
    if events != [] {
      StepKeepsInv(c, s, events[0]);
      RunKeepsInv(c, Step(c, s, events[0]), events[1..]);
    }
  }

  /** From the empty log, whatever the interleaving: one chain in which no predecessor repeats. */
  lemma EveryRunIsOneChain(c: Primitives, events: seq<Event>)
    requires VerifyAcceptsSign(c)
    ensures Chain(c, Run(c, EMPTY, events).rows)
    ensures UniquePrev(Run(c, EMPTY, events).rows)
    ensures Ordered(Run(c, EMPTY, events).rows, Run(c, EMPTY, events).nextSeq)
  {
    RunKeepsInv(c, EMPTY, events);
    RunKeepsUnique(c, EMPTY, events);
  }

  ghost predicate UniquePrev(rows: seq<Row>) {
    forall i, j :: 0 <= i < j < |rows| ==> rows[i].prevHash != rows[j].prevHash
  }

  lemma {:induction false} RunKeepsUnique(c: Primitives, s: System, events: seq<Event>)
    requires UniquePrev(s.rows)
    ensures UniquePrev(Run(c, s, events).rows)
    decreases |events|
  {
    if events != [] {
      RunKeepsUnique(c, Step(c, s, events[0]), events[1..]);
    }
  }

  /**
    A call that gave up was overtaken: while it ran, without inserting anything itself,
    the log grew by at least as many rows as it made attempts.
   */
  lemma ExhaustionMeansProgress(c: Primitives, events: seq<Event>, id: nat)
    requires VerifyAcceptsSign(c)
    requires AppenderOf(Run(c, EMPTY, events), id).Failed? && CleanHashes(c, Run(c, EMPTY, events).rows)
    ensures AppenderOf(Run(c, EMPTY, events), id).until >= AppenderOf(Run(c, EMPTY, events), id).from + 8
  {
    RunKeepsInv(c, EMPTY, events);
  }

  /** An append that nobody interleaves with commits at once. */
  lemma QuietAppendCommits(c: Primitives, s: System, id: nat)
    requires Inv(c, s) && CleanHashes(c, s.rows) && AppenderOf(s, id).Trying?
    ensures var s' := Run(c, s, [ReadHead(id), Insert(id)]);
            s'.rows == s.rows + [BuildRow(c, s.nextSeq, Head(s.rows), AppenderOf(s, id).entry)]
  {
    HeadIsFree(c, s.rows);
    hide CleanHashes, Chain, BuildRow, Taken;
    var held := Step(c, s, ReadHead(id));
    assert [ReadHead(id), Insert(id)][1..] == [Insert(id)];
    assert [Insert(id)][1..] == [];
    assert Run(c, held, [Insert(id)]) == Run(c, Step(c, held, Insert(id)), []);
  }

  // ------------------------------------------------------- the retry loop ----

  datatype AppendError = IntegrityError | NoAttempt

  /** The table, with its UNIQUE index and its sequence, as every replica sees it. */
  class AuditTable {
    var rows: seq<Row>
    var nextSeq: nat

    ghost predicate Valid(c: Primitives)
      reads this
    {
      Chain(c, rows) && UniquePrev(rows) && Ordered(rows, nextSeq)
    }

    constructor ()
      ensures rows == [] && nextSeq == 0
    {
      rows, nextSeq := [], 0;
    }

    /** One transaction's INSERT: refused if the predecessor's slot is taken. */
    method InsertRow(c: Primitives, prev: bytes, e: Entry) returns (r: Result<nat, AppendError>)
      modifies this
      ensures nextSeq == old(nextSeq) + 1
      ensures Taken(old(rows), prev) ==> r == Err(IntegrityError) && rows == old(rows)
      ensures !Taken(old(rows), prev) ==>
        r == Ok(old(nextSeq)) && rows == old(rows) + [BuildRow(c, old(nextSeq), prev, e)]
    {
      var seqNo := nextSeq;
      nextSeq := nextSeq + 1;
      if exists i | 0 <= i < |rows| :: rows[i].prevHash == prev {
        return Err(IntegrityError);
      }
      rows := rows + [BuildRow(c, seqNo, prev, e)];
      return Ok(seqNo);
    }

    /** What other replicas append meanwhile, each on the head of the moment. */
    method OthersAppend(c: Primitives, entries: seq<Entry>)
      requires VerifyAcceptsSign(c) && Valid(c)
      modifies this
      ensures Valid(c) && old(rows) <= rows
      ensures entries == [] ==> rows == old(rows)
    {
      for i := 0 to |entries|
        invariant Valid(c) && old(rows) <= rows
        invariant i == 0 ==> rows == old(rows)
      {
        var prev := Head(rows);
        RowFits(c, rows, nextSeq, prev, entries[i]);
        var _ := InsertRow(c, prev, entries[i]);
      }
    }

    /** One transaction: read the head, build on it, insert; others append in between. */
    method Attempt(c: Primitives, e: Entry, others: seq<Entry>) returns (r: Result<nat, AppendError>)
      requires VerifyAcceptsSign(c) && Valid(c)
      modifies this
      ensures Valid(c) && old(rows) <= rows
      ensures r.Ok? ==> AppendedLast(c, rows, r.value, e)
      ensures r.Err? ==> r.error == IntegrityError && (CleanHashes(c, rows) ==> |rows| > |old(rows)|)
      ensures r.Err? && others == [] ==> !CleanHashes(c, rows)
    {
      hide CleanHashes, BuildRow, Taken, Chain, UniquePrev, Ordered;
      var prevHash := Head(rows);
      OthersAppend(c, others);
      RowFits(c, rows, nextSeq, prevHash, e);
      StaleHeadTaken(c, old(rows), rows);
      r := InsertRow(c, prevHash, e);
      if r.Ok? {
        assert rows[..|rows| - 1] == old(rows);
      } else {
        RejectedAttempt(c, old(rows), rows);
      }
    }

    /**
      The append with its retry loop. `others[k]` is what the rest of the fleet appends
      between the read and the insert of attempt k.
     */
    method AppendAudit(c: Primitives, e: Entry, maxRetries: nat, others: seq<seq<Entry>>)
      returns (r: Result<nat, AppendError>)
      requires VerifyAcceptsSign(c) && Valid(c) && |others| == maxRetries
      modifies this
      ensures Valid(c) && old(rows) <= rows
      ensures r.Ok? ==> AppendedLast(c, rows, r.value, e)
      ensures r == Err(IntegrityError) ==> CleanHashes(c, rows) ==> |rows| >= |old(rows)| + maxRetries
      ensures r == Err(NoAttempt) <==> maxRetries == 0
      ensures r == Err(IntegrityError) ==> CleanHashes(c, rows) ==> forall k :: 0 <= k < maxRetries ==> others[k] != []
    {
      hide CleanHashes, AppendedLast, Valid;
      for attempt := 0 to maxRetries
        invariant Valid(c) && old(rows) <= rows
        invariant CleanHashes(c, rows) ==> |rows| >= |old(rows)| + attempt
        invariant CleanHashes(c, rows) ==> forall k :: 0 <= k < attempt ==> others[k] != []
        invariant attempt == maxRetries ==> maxRetries == 0
      {
        ghost var seen := rows;
        r := Attempt(c, e, others[attempt]);
        if r.Ok? {
          return;
        }
        if CleanHashes(c, rows) {
          CleanPrefix(c, rows, |seen|);
          assert rows[..|seen|] == seen;
        }
        if attempt == maxRetries - 1 {
          return;
        }
      }
      return Err(NoAttempt);
    }
  }

  /** The last row carries the entry on top of the head before it. */
  ghost predicate AppendedLast(c: Primitives, rows: seq<Row>, seqNo: nat, e: Entry) {
    rows != [] && rows[|rows| - 1] == BuildRow(c, seqNo, Head(rows[..|rows| - 1]), e)
  }

  lemma RowFits(c: Primitives, rows: seq<Row>, nextSeq: nat, prev: bytes, e: Entry)
    requires VerifyAcceptsSign(c) && Chain(c, rows) && UniquePrev(rows) && Ordered(rows, nextSeq)
    ensures Ordered(rows, nextSeq + 1)
    ensures prev == Head(rows) && !Taken(rows, prev) ==>
      var longer := rows + [BuildRow(c, nextSeq, prev, e)];
      Chain(c, longer) && UniquePrev(longer) && Ordered(longer, nextSeq + 1)
  {
    var row := BuildRow(c, nextSeq, prev, e);
    BuiltRowIsGood(c, nextSeq, prev, e);
    if prev == Head(rows) {
      ChainExtends(c, rows, row);
    }
  }

  /** A head read before others committed is taken by the time of the insert. */
  lemma StaleHeadTaken(c: Primitives, seen: seq<Row>, rows: seq<Row>)
    requires Chain(c, rows) && seen <= rows
    ensures Taken(rows, Head(seen)) || rows == seen
  {
    assert rows[..|seen|] == seen;
    if |seen| < |rows| {
      EarlierHeadsTaken(c, rows, |seen|);
    }
  }

  lemma RejectedAttempt(c: Primitives, seen: seq<Row>, rows: seq<Row>)
    requires Chain(c, rows) && seen <= rows && Taken(rows, Head(seen))
    ensures CleanHashes(c, rows) ==> CleanHashes(c, seen) && |rows| > |seen|
  {
    hide CleanHashes, Chain, Taken;
    assert rows[..|seen|] == seen;
    if CleanHashes(c, rows) {
      CleanPrefix(c, rows, |seen|);
      if |rows| == |seen| {
        HeadIsFree(c, rows);
      }
    }
  }
}
