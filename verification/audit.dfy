/**
  The hash-chained audit log: rows, the chain they form, its verifier, and what the
  head of a verified chain determines.

  The hash function and the signature scheme are parameters. Nothing here assumes
  that the hash has no collisions at all, which no 48-byte digest satisfies; lemmas
  that need it say so of the inputs that the chains at hand have hashed.
 */
module AuditChain {
  import opened Bytes
  import opened Wrappers

  datatype Entry = Entry(ts: bytes, actor: bytes, action: bytes, target: Option<bytes>, detail: Option<bytes>)

  datatype Row = Row(seqNo: nat, entry: Entry, prevHash: bytes, entryHash: bytes, signature: bytes)

  /** SHA-384, and the hybrid signature under one fixed key pair. */
  datatype Primitives = Primitives(sha384: bytes -> bytes, signer: bytes -> bytes, verifier: (bytes, bytes) -> bool)

  function Hash(c: Primitives, m: bytes): bytes {
    c.sha384(m)
  }

  function Sign(c: Primitives, m: bytes): bytes {
    c.signer(m)
  }

  predicate Verify(c: Primitives, m: bytes, signature: bytes) {
    c.verifier(m, signature)
  }

  /** A signature made with the private key verifies under the public key. */
  ghost predicate VerifyAcceptsSign(c: Primitives) {
    forall m :: Verify(c, m, Sign(c, m))
  }

  ghost predicate DigestsAre48Bytes(c: Primitives) {
    forall m :: |Hash(c, m)| == 48
  }

  const BAR: bytes := [124]
  const NONE_TEXT: bytes := [78, 111, 110, 101]
  const GENESIS: bytes := [0, 0, 0, 0, 0, 0, 0, 0, 0, 0, 0, 0, 0, 0, 0, 0,
                           0, 0, 0, 0, 0, 0, 0, 0, 0, 0, 0, 0, 0, 0, 0, 0]

  /** The text that is hashed: five fields joined by bars, a missing target as nothing. */
  function Payload(e: Entry): bytes {
    e.ts + BAR + e.actor + BAR + e.action + BAR
    + (match e.target case None => [] case Some(t) => t) + BAR
    + (match e.detail case None => NONE_TEXT case Some(d) => d)
  }

  /** What the i-th link of a chain hashes. */
  function HashInput(prev: bytes, e: Entry): bytes {
    prev + Payload(e)
  }

  /** The hash the next row must name as its predecessor. */
  function Head(rows: seq<Row>): bytes {
    if rows == [] then GENESIS else rows[|rows| - 1].entryHash
  }

  predicate GoodLink(c: Primitives, prev: bytes, row: Row) {
    row.prevHash == prev && row.entryHash == Hash(c, HashInput(prev, row.entry))
  }

  predicate GoodRow(c: Primitives, prev: bytes, row: Row) {
    GoodLink(c, prev, row) && Verify(c, row.entryHash, row.signature)
  }

  /** Every row names its predecessor's hash and carries its own. */
  ghost predicate Linked(c: Primitives, rows: seq<Row>) {
    forall i :: 0 <= i < |rows| ==> GoodLink(c, Head(rows[..i]), rows[i])
  }

  /** A linked chain whose signatures all verify. */
  ghost predicate Chain(c: Primitives, rows: seq<Row>) {
    forall i :: 0 <= i < |rows| ==> GoodRow(c, Head(rows[..i]), rows[i])
  }

  lemma ChainIsLinked(c: Primitives, rows: seq<Row>)
    requires Chain(c, rows)
    ensures Linked(c, rows)
  {
    forall i | 0 <= i < |rows|
      ensures GoodLink(c, Head(rows[..i]), rows[i])
    {
      assert GoodRow(c, Head(rows[..i]), rows[i]);
    }
  }

  lemma ChainPrefix(c: Primitives, rows: seq<Row>, n: nat)
    requires Chain(c, rows) && n <= |rows|
    ensures Chain(c, rows[..n])
  {
    forall i | 0 <= i < n
      ensures GoodRow(c, Head(rows[..n][..i]), rows[..n][i])
    {
      assert rows[..n][..i] == rows[..i];
      assert GoodRow(c, Head(rows[..i]), rows[i]);
    }
  }

  lemma ChainExtends(c: Primitives, rows: seq<Row>, row: Row)
    requires Chain(c, rows)
    ensures Chain(c, rows + [row]) <==> GoodRow(c, Head(rows), row)
  {
    var longer := rows + [row];
    assert longer[..|rows|] == rows;
    if GoodRow(c, Head(rows), row) {
      forall i | 0 <= i < |longer|
        ensures GoodRow(c, Head(longer[..i]), longer[i])
      {
        if i < |rows| {
          assert longer[..i] == rows[..i];
        }
      }
    }
    if Chain(c, longer) {
      assert GoodRow(c, Head(longer[..|rows|]), longer[|rows|]);
    }
  }

  // ------------------------------------------------------------- verifier ----

  /** Row i is the first that does not continue the chain before it. */
  ghost predicate FirstBad(c: Primitives, rows: seq<Row>, i: nat) {
    i < |rows| && Chain(c, rows[..i]) && !GoodRow(c, Head(rows[..i]), rows[i])
  }

  lemma ChainAt(c: Primitives, rows: seq<Row>, i: nat)
    requires Chain(c, rows) && i < |rows|
    ensures GoodRow(c, Head(rows[..i]), rows[i])
  {}

  /** At most one row is the first bad one, and with it there is no chain. */
  lemma FirstBadBreaks(c: Primitives, rows: seq<Row>, i: nat, n: nat)
    requires FirstBad(c, rows, i) && i < n <= |rows|
    ensures !Chain(c, rows[..n]) && !FirstBad(c, rows, n)
  {
    hide GoodRow;
    assert rows[..n][..i] == rows[..i] && rows[..n][i] == rows[i];
    if Chain(c, rows[..n]) {
      ChainAt(c, rows[..n], i);
    }
  }

  ghost predicate PredecessorNamed(rows: seq<Row>, i: nat)
    requires 0 < i < |rows|
  {
    rows[i].prevHash == rows[i - 1].entryHash
  }

  /** A chain, row by row. */
  lemma ChainSaysOfRows(c: Primitives, rows: seq<Row>)
    requires Chain(c, rows)
    ensures forall i :: 0 <= i < |rows| ==> Verify(c, rows[i].entryHash, rows[i].signature)
    ensures forall i :: 0 <= i < |rows| ==> rows[i].entryHash == Hash(c, rows[i].prevHash + Payload(rows[i].entry))
    ensures forall i :: 0 < i < |rows| ==> PredecessorNamed(rows, i)
    ensures rows != [] ==> rows[0].prevHash == GENESIS
  {
    hide Payload;
    forall i | 0 <= i < |rows|
      ensures Verify(c, rows[i].entryHash, rows[i].signature)
      ensures rows[i].entryHash == Hash(c, rows[i].prevHash + Payload(rows[i].entry))
      ensures if i == 0 then rows[i].prevHash == GENESIS else PredecessorNamed(rows, i)
    {
      ChainAt(c, rows, i);
    }
  }

  /** Walks arbitrary rows with a running hash; reports the first one that breaks the chain. */
  method VerifyChain(c: Primitives, rows: seq<Row>) returns (ok: bool, bad: Option<nat>)
    ensures ok <==> Chain(c, rows)
    ensures ok ==> bad == None
    ensures !ok ==> exists i: nat :: FirstBad(c, rows, i) && bad == Some(rows[i].seqNo)
    ensures ok ==> forall i :: 0 <= i < |rows| ==> Verify(c, rows[i].entryHash, rows[i].signature)
    ensures ok ==> forall i :: 0 <= i < |rows| ==>
      rows[i].entryHash == Hash(c, rows[i].prevHash + Payload(rows[i].entry))
    ensures ok ==> forall i :: 0 < i < |rows| ==> PredecessorNamed(rows, i)
    ensures ok && rows != [] ==> rows[0].prevHash == GENESIS
  {
    var prevHash := GENESIS;
    for i := 0 to |rows|
      invariant Chain(c, rows[..i]) && prevHash == Head(rows[..i])
    {
      var r := rows[i];
      ghost var wrong := r.prevHash != prevHash || Hash(c, prevHash + Payload(r.entry)) != r.entryHash
                         || !Verify(c, Hash(c, prevHash + Payload(r.entry)), r.signature);
      assert wrong <==> !GoodRow(c, Head(rows[..i]), r);
      if wrong {
        assert FirstBad(c, rows, i);
        FirstBadBreaks(c, rows, i, |rows|);
        assert rows[..|rows|] == rows;
      }
      if r.prevHash != prevHash {
        return false, Some(r.seqNo);
      }
      var expected := Hash(c, prevHash + Payload(r.entry));
      if expected != r.entryHash {
        return false, Some(r.seqNo);
      }
      if !Verify(c, expected, r.signature) {
        return false, Some(r.seqNo);
      }
      ChainExtends(c, rows[..i], r);
      assert rows[..i + 1] == rows[..i] + [r];
      prevHash := expected;
    }
    assert rows[..|rows|] == rows;
    ChainSaysOfRows(c, rows);
    return true, None;
  }

  // --------------------------------------------- what the head determines ----

  /** No two different inputs hashed along these chains have the same digest. */
  ghost predicate CollisionFree(c: Primitives, left: seq<Row>, right: seq<Row>) {
    forall i, j :: 0 <= i < |left| && 0 <= j < |right| && left[i].entryHash == right[j].entryHash
      ==> HashInput(left[i].prevHash, left[i].entry) == HashInput(right[j].prevHash, right[j].entry)
  }

  /** No digest in the chain could be mistaken for the start of the log. */
  ghost predicate NoZeroPrefix(rows: seq<Row>) {
    forall i :: 0 <= i < |rows| ==> !(GENESIS <= rows[i].entryHash)
  }

  lemma HeadShape(c: Primitives, rows: seq<Row>, i: nat)
    requires Linked(c, rows) && i <= |rows| && DigestsAre48Bytes(c)
    ensures |Head(rows[..i])| == if i == 0 then 32 else 48
    ensures i < |rows| ==> rows[i].prevHash == Head(rows[..i])
  {
    if i < |rows| {
      assert GoodLink(c, Head(rows[..i]), rows[i]);
    }
    if i > 0 {
      assert GoodLink(c, Head(rows[..i - 1]), rows[i - 1]);
    }
  }

  lemma SplitInputs(prev1: bytes, e1: Entry, prev2: bytes, e2: Entry)
    requires HashInput(prev1, e1) == HashInput(prev2, e2) && |prev1| == |prev2|
    ensures prev1 == prev2 && Payload(e1) == Payload(e2)
  {
    assert HashInput(prev1, e1)[..|prev1|] == prev1 && HashInput(prev2, e2)[..|prev2|] == prev2;
    assert HashInput(prev1, e1)[|prev1|..] == Payload(e1) && HashInput(prev2, e2)[|prev2|..] == Payload(e2);
  }

  /** Two rows stand for the same event: same text, same place in the chain. */
  ghost predicate SameRecord(a: Row, b: Row) {
    Payload(a.entry) == Payload(b.entry) && a.prevHash == b.prevHash && a.entryHash == b.entryHash
  }

  ghost predicate SameHistory(left: seq<Row>, right: seq<Row>) {
    |left| == |right| && forall i :: 0 <= i < |left| ==> SameRecord(left[i], right[i])
  }

  ghost predicate AllBarFree(rows: seq<Row>) {
    forall i :: 0 <= i < |rows| ==> BarFree(rows[i].entry)
  }

  /** The rows tell the same events: text by text, not only as joined. */
  ghost predicate SameEvents(left: seq<Row>, right: seq<Row>) {
    |left| == |right| && forall i :: 0 <= i < |left| ==> Texts(left[i].entry) == Texts(right[i].entry)
  }

  /** Against a log without bars, the same history is the same events. */
  lemma HistoryIsEvents(left: seq<Row>, right: seq<Row>)
    requires SameHistory(left, right) && AllBarFree(right)
    ensures SameEvents(left, right)
  {
    hide Payload, Texts, BarFree;
    forall i | 0 <= i < |left|
      ensures Texts(left[i].entry) == Texts(right[i].entry)
    {
      PayloadPinsTexts(right[i].entry);
    }
  }

  /** Rows that a verifier cannot tell apart. */
  ghost predicate Lookalike(a: Row, b: Row) {
    && a.prevHash == b.prevHash && a.entryHash == b.entryHash && a.signature == b.signature
    && Payload(a.entry) == Payload(b.entry)
  }

  ghost predicate Lookalikes(left: seq<Row>, right: seq<Row>) {
    |left| == |right| && forall i :: 0 <= i < |left| ==> Lookalike(left[i], right[i])
  }

  lemma SameInput(prev: bytes, d: Entry, e: Entry)
    requires Payload(d) == Payload(e)
    ensures HashInput(prev, d) == HashInput(prev, e)
  {}

  lemma LookalikeIsGood(c: Primitives, prev: bytes, a: Row, b: Row)
    requires GoodRow(c, prev, a) && Lookalike(b, a)
    ensures GoodRow(c, prev, b)
  {
    hide HashInput, Payload;
    SameInput(prev, a.entry, b.entry);
  }

  lemma LookalikesAreChain(c: Primitives, rows: seq<Row>, edited: seq<Row>)
    requires Chain(c, rows) && Lookalikes(edited, rows)
    ensures Chain(c, edited) && Head(edited) == Head(rows) && SameHistory(edited, rows)
  {
    hide GoodRow, Payload;
    forall k | 0 <= k < |edited|
      ensures GoodRow(c, Head(edited[..k]), edited[k])
    {
      SameHead(rows, edited, k);
      LookalikeIsGood(c, Head(rows[..k]), rows[k], edited[k]);
    }
  }

  lemma LookalikesCollide(c: Primitives, rows: seq<Row>, edited: seq<Row>)
    requires CollisionFree(c, rows, rows) && Lookalikes(edited, rows)
    ensures CollisionFree(c, edited, rows)
  {
    hide HashInput, Payload;
    forall k | 0 <= k < |edited|
      ensures HashInput(edited[k].prevHash, edited[k].entry) == HashInput(rows[k].prevHash, rows[k].entry)
    {
      SameInput(rows[k].prevHash, rows[k].entry, edited[k].entry);
    }
  }

  /** A row's entry replaced by one with the same payload: nothing that is hashed or signed changes. */
  lemma EditGoesUnseen(c: Primitives, rows: seq<Row>, i: nat, e: Entry)
    requires Chain(c, rows) && CollisionFree(c, rows, rows) && i < |rows| && Payload(e) == Payload(rows[i].entry)
    ensures var edited := rows[i := rows[i].(entry := e)];
      Chain(c, edited) && Head(edited) == Head(rows) && CollisionFree(c, edited, rows) && Lookalikes(edited, rows)
  {
    hide Payload, HashInput, CollisionFree, Chain, Head;
    var edited := rows[i := rows[i].(entry := e)];
    LookalikesAreChain(c, rows, edited);
    LookalikesCollide(c, rows, edited);
  }

  lemma SameHead(rows: seq<Row>, edited: seq<Row>, k: nat)
    requires |rows| == |edited| && k <= |rows|
    requires forall i :: 0 <= i < |rows| ==> rows[i].entryHash == edited[i].entryHash
    ensures Head(rows[..k]) == Head(edited[..k])
  {}

  /**
    Equal heads: walking back from them, the records agree, until one chain starts.
    Then the other has started too, unless a digest begins like the start of the log.
   */
  lemma {:induction false} HeadDetermines(c: Primitives, left: seq<Row>, right: seq<Row>, m: nat, n: nat)
    requires Linked(c, left) && Linked(c, right) && DigestsAre48Bytes(c) && CollisionFree(c, left, right)
    requires m <= |left| && n <= |right| && Head(left[..m]) == Head(right[..n])
    requires m == n || (NoZeroPrefix(left) && NoZeroPrefix(right))
    ensures m == n
    ensures forall i :: 0 <= i < m ==> SameRecord(left[i], right[i])
  {
    hide Payload, HashInput, Hash, NoZeroPrefix, DigestsAre48Bytes, Linked;
    HeadShape(c, left, m);
    HeadShape(c, right, n);
    if m > 0 {
      var l, r := left[m - 1], right[n - 1];
      HeadShape(c, left, m - 1);
      HeadShape(c, right, n - 1);
      assert l.entryHash == r.entryHash;
      if (m == 1) != (n == 1) {
        StartMismatch(c, left, right, m, n);
      } else {
        SplitInputs(l.prevHash, l.entry, r.prevHash, r.entry);
        HeadDetermines(c, left, right, m - 1, n - 1);
      }
    }
  }

  lemma ShorterPrevIsPrefix(prev1: bytes, e1: Entry, prev2: bytes, e2: Entry)
    requires HashInput(prev1, e1) == HashInput(prev2, e2) && |prev1| <= |prev2|
    ensures prev1 <= prev2
  {
    hide Payload;
    var input := HashInput(prev1, e1);
    assert input[..|prev1|] == prev1 && input[..|prev2|] == prev2;
  }

  /** A first row that hashes the same text as a later row of another chain. */
  lemma FirstMeetsLater(c: Primitives, left: seq<Row>, right: seq<Row>, n: nat)
    requires Linked(c, left) && Linked(c, right) && DigestsAre48Bytes(c) && left != [] && 1 < n <= |right|
    requires HashInput(left[0].prevHash, left[0].entry) == HashInput(right[n - 1].prevHash, right[n - 1].entry)
    ensures !NoZeroPrefix(right)
  {
    hide HashInput, Hash, Linked, DigestsAre48Bytes;
    HeadShape(c, left, 0);
    HeadShape(c, right, n - 1);
    assert left[0].prevHash == GENESIS;
    ShorterPrevIsPrefix(left[0].prevHash, left[0].entry, right[n - 1].prevHash, right[n - 1].entry);
    assert right[n - 2].entryHash == right[n - 1].prevHash;
  }

  lemma StartMismatch(c: Primitives, left: seq<Row>, right: seq<Row>, m: nat, n: nat)
    requires Linked(c, left) && Linked(c, right) && DigestsAre48Bytes(c)
    requires 0 < m <= |left| && 0 < n <= |right| && (m == 1) != (n == 1)
    requires HashInput(left[m - 1].prevHash, left[m - 1].entry) == HashInput(right[n - 1].prevHash, right[n - 1].entry)
    ensures !NoZeroPrefix(left) || !NoZeroPrefix(right)
  {
    hide HashInput, Linked, NoZeroPrefix, DigestsAre48Bytes;
    if m == 1 {
      FirstMeetsLater(c, left, right, n);
    } else {
      FirstMeetsLater(c, right, left, m);
    }
  }

  /** The heads after different numbers of rows differ, so a chain never revisits one. */
  lemma HeadsDiffer(c: Primitives, rows: seq<Row>, i: nat, j: nat)
    requires Linked(c, rows) && DigestsAre48Bytes(c) && CollisionFree(c, rows, rows) && NoZeroPrefix(rows)
    requires i < j <= |rows|
    ensures Head(rows[..i]) != Head(rows[..j])
  {
    if Head(rows[..i]) == Head(rows[..j]) {
      HeadDetermines(c, rows, rows, i, j);
    }
  }

  /**
    That last hypothesis is needed: a digest that begins like the start of the log can
    make a chain come back to a head although no two different inputs collide.
   */
  lemma ZeroPrefixRevisits() returns (c: Primitives, rows: seq<Row>)
    ensures Linked(c, rows) && DigestsAre48Bytes(c) && CollisionFree(c, rows, rows)
    ensures |rows| == 2 && Head(rows[..1]) == Head(rows[..2]) && !NoZeroPrefix(rows)
  {
    var tail: bytes := [0, 1, 2, 3, 4, 5, 6, 7, 8, 9, 10, 11, 12, 13, 14, 15];
    var h := GENESIS + tail;
    c := Primitives(m => h, m => [], (m, signature) => true);
    var e := Entry([], [], [], None, None);
    var d := e.(ts := tail);
    rows := [Row(0, d, GENESIS, h, []), Row(1, e, h, h, [])];
    ZeroPrefixInputs(tail, d, e);
    hide HashInput;
    assert rows[..0] == [] && rows[..1] == [rows[0]] && rows[..2] == rows;
    assert GoodLink(c, Head(rows[..0]), rows[0]) && GoodLink(c, Head(rows[..1]), rows[1]);
    assert GENESIS <= rows[0].entryHash;
  }

  lemma ZeroPrefixInputs(tail: bytes, d: Entry, e: Entry)
    requires d == e.(ts := tail + e.ts)
    ensures HashInput(GENESIS, d) == HashInput(GENESIS + tail, e)
  {
    hide GENESIS, JoinTexts;
    TailInPayload(tail, d, e);
  }

  lemma TailInPayload(tail: bytes, d: Entry, e: Entry)
    requires d == e.(ts := tail + e.ts)
    ensures Payload(d) == tail + Payload(e)
  {}

  // -------------------------------------------------------------- tampering ----

  /** Signatures verify for no other digests: the key holder signed these, and nobody forges. */
  ghost predicate OnlySigned(c: Primitives, signed: iset<bytes>) {
    forall h, signature :: Verify(c, h, signature) ==> h in signed
  }

  /** A row whose digest nobody signed breaks every log that contains it, there or earlier. */
  lemma UnsignedRowIsRejected(c: Primitives, rows: seq<Row>, signed: iset<bytes>, i: nat)
    requires OnlySigned(c, signed) && i < |rows| && rows[i].entryHash !in signed
    ensures !Chain(c, rows)
    ensures Chain(c, rows[..i]) ==> FirstBad(c, rows, i)
  {
    hide Payload, HashInput;
    if Chain(c, rows) {
      ChainAt(c, rows, i);
    }
  }

  /**
    What verifies under the key that signed a log's digests and no others is a beginning
    of that log: rows can neither be rewritten, nor added, nor left out in the middle.
   */
  lemma AcceptedIsPrefix(c: Primitives, log: seq<Row>, rows: seq<Row>)
    requires Chain(c, log) && Chain(c, rows) && OnlySigned(c, iset r | r in log :: r.entryHash)
    requires DigestsAre48Bytes(c) && CollisionFree(c, rows, log) && NoZeroPrefix(log)
    ensures |rows| <= |log| && SameHistory(rows, log[..|rows|])
  {
    hide Chain, CollisionFree, Linked, NoZeroPrefix, SameRecord, OnlySigned, DigestsAre48Bytes;
    ChainIsLinked(c, log);
    ChainIsLinked(c, rows);
    if rows != [] {
      var n := |rows|;
      SignedRows(c, log, rows);
      var j := WhereSigned(log, rows[n - 1]);
      assert rows[..n] == rows && log[..j + 1][j] == log[j];
      HeadDetermines(c, rows, log, n, j + 1);
    }
  }

  lemma WhereSigned(log: seq<Row>, row: Row) returns (j: nat)
    requires row.entryHash in (iset r | r in log :: r.entryHash)
    ensures j < |log| && log[j].entryHash == row.entryHash
  {
    var r :| r in log && r.entryHash == row.entryHash;
    j :| 0 <= j < |log| && log[j] == r;
  }

  /** Its digests are all among the signed ones, so none looks like the start of the log either. */
  lemma SignedRows(c: Primitives, log: seq<Row>, rows: seq<Row>)
    requires Chain(c, rows) && OnlySigned(c, iset r | r in log :: r.entryHash) && NoZeroPrefix(log)
    ensures forall i :: 0 <= i < |rows| ==> rows[i].entryHash in (iset r | r in log :: r.entryHash)
    ensures NoZeroPrefix(rows)
  {
    hide Payload, Hash, Chain;
    ChainSaysOfRows(c, rows);
    var signed := iset r | r in log :: r.entryHash;
    forall i | 0 <= i < |rows|
      ensures rows[i].entryHash in signed && !(GENESIS <= rows[i].entryHash)
    {
      assert Verify(c, rows[i].entryHash, rows[i].signature);
      assert rows[i].entryHash in signed;
      var r :| r in log && r.entryHash == rows[i].entryHash;
      var k :| 0 <= k < |log| && log[k] == r;
    }
  }

  // ------------------------------------------------------ text of an entry ----

  function Text(field: Option<bytes>, missing: bytes): bytes {
    match field case None => missing case Some(t) => t
  }

  /** The five texts that are joined; a missing target and detail as they are written. */
  function Texts(e: Entry): (t: seq<bytes>)
    ensures |t| == 5
  {
    [e.ts, e.actor, e.action, Text(e.target, []), Text(e.detail, NONE_TEXT)]
  }

  function FromTexts(t: seq<bytes>): (e: Entry)
    requires |t| == 5
    ensures Texts(e) == t
  {
    Entry(t[0], t[1], t[2], Some(t[3]), Some(t[4]))
  }

  function JoinTexts(t: seq<bytes>): bytes
    requires t != []
  {
    if |t| == 1 then t[0] else t[0] + BAR + JoinTexts(t[1..])
  }

  lemma JoinOfFive(a: bytes, b: bytes, c: bytes, d: bytes, e: bytes)
    ensures JoinTexts([a, b, c, d, e]) == a + BAR + (b + BAR + (c + BAR + (d + BAR + e)))
  {
    hide BAR;
    assert [d, e][1..] == [e] && [c, d, e][1..] == [d, e];
    assert [b, c, d, e][1..] == [c, d, e] && [a, b, c, d, e][1..] == [b, c, d, e];
    assert JoinTexts([d, e]) == d + BAR + e;
    assert JoinTexts([c, d, e]) == c + BAR + (d + BAR + e);
    assert JoinTexts([b, c, d, e]) == b + BAR + (c + BAR + (d + BAR + e));
  }

  lemma PayloadIsJoin(e: Entry)
    ensures Payload(e) == JoinTexts(Texts(e))
  {
    hide BAR, JoinTexts;
    var t := Texts(e);
    JoinOfFive(t[0], t[1], t[2], t[3], t[4]);
    assert t == [t[0], t[1], t[2], t[3], t[4]];
  }

  /** None of the texts contains a bar. */
  ghost predicate BarFree(e: Entry) {
    forall i :: 0 <= i < 5 ==> 124 !in Texts(e)[i]
  }

  function Bars(s: bytes): nat {
    if s == [] then 0 else Bars(s[1..]) + if s[0] == 124 then 1 else 0
  }

  lemma {:induction false} BarsOfConcat(a: bytes, b: bytes)
    ensures Bars(a + b) == Bars(a) + Bars(b)
  {
    if a == [] {
      assert a + b == b;
    } else {
      assert (a + b)[1..] == a[1..] + b;
      BarsOfConcat(a[1..], b);
    }
  }

  lemma {:induction false} NoBars(s: bytes)
    ensures Bars(s) == 0 <==> 124 !in s
  {
    if s != [] {
      NoBars(s[1..]);
      assert s == [s[0]] + s[1..];
    }
  }

  /** The bars in the texts, all together. */
  function BarsIn(t: seq<bytes>): nat {
    if t == [] then 0 else Bars(t[0]) + BarsIn(t[1..])
  }

  lemma {:induction false} BarsOfJoin(t: seq<bytes>)
    requires t != []
    ensures Bars(JoinTexts(t)) == BarsIn(t) + |t| - 1
  {
    hide Bars;
    if |t| > 1 {
      BarsOfJoin(t[1..]);
      OneBar();
      BarsOfConcat(t[0] + BAR, JoinTexts(t[1..]));
      BarsOfConcat(t[0], BAR);
    }
  }

  lemma OneBar()
    ensures Bars(BAR) == 1
  {
    assert BAR[1..] == [];
  }

  lemma {:induction false} NoBarsIn(t: seq<bytes>)
    ensures BarsIn(t) == 0 <==> forall i :: 0 <= i < |t| ==> 124 !in t[i]
  {
    hide Bars;
    if t != [] {
      NoBars(t[0]);
      NoBarsIn(t[1..]);
      assert forall i :: 1 <= i < |t| ==> t[i] == t[1..][i - 1];
    }
  }

  /** How many bytes precede the first bar. */
  function BarIndex(s: bytes): nat {
    if s == [] || s[0] == 124 then 0 else 1 + BarIndex(s[1..])
  }

  lemma {:induction false} BarIndexAfter(a: bytes, x: bytes)
    requires 124 !in a
    ensures BarIndex(a + BAR + x) == |a|
  {
    if a != [] {
      assert (a + BAR + x)[1..] == a[1..] + BAR + x;
      BarIndexAfter(a[1..], x);
    }
  }

  lemma CutAtBar(a: bytes, x: bytes, b: bytes, y: bytes)
    requires a + BAR + x == b + BAR + y && 124 !in a && 124 !in b
    ensures a == b && x == y
  {
    BarIndexAfter(a, x);
    BarIndexAfter(b, y);
    assert (a + BAR + x)[..|a|] == a && (b + BAR + y)[..|b|] == b;
    assert (a + BAR + x)[|a| + 1..] == x && (b + BAR + y)[|b| + 1..] == y;
  }

  /** Joined texts without bars come apart again. */
  lemma {:induction false} JoinPinsTexts(t: seq<bytes>, u: seq<bytes>)
    requires |t| == |u| > 0 && JoinTexts(t) == JoinTexts(u)
    requires forall i :: 0 <= i < |t| ==> 124 !in t[i] && 124 !in u[i]
    ensures t == u
  {
    if |t| > 1 {
      CutAtBar(t[0], JoinTexts(t[1..]), u[0], JoinTexts(u[1..]));
      JoinPinsTexts(t[1..], u[1..]);
      assert t == [t[0]] + t[1..] && u == [u[0]] + u[1..];
    }
  }

  /** The boundary between two neighbours can be moved to a bar in either of them. */
  lemma {:induction false} JoinShift(front: seq<bytes>, x: bytes, y: bytes, z: bytes, rest: seq<bytes>)
    ensures JoinTexts(front + [x + BAR + y, z] + rest) == JoinTexts(front + [x, y + BAR + z] + rest)
  {
    var t, u := front + [x + BAR + y, z] + rest, front + [x, y + BAR + z] + rest;
    if front == [] {
      hide BAR;
      assert t[1..] == [z] + rest && u[1..] == [y + BAR + z] + rest;
      if rest == [] {
        assert t[1..] == [z] && u[1..] == [y + BAR + z];
      } else {
        assert ([z] + rest)[1..] == rest && ([y + BAR + z] + rest)[1..] == rest;
      }
    } else {
      assert t[1..] == front[1..] + [x + BAR + y, z] + rest;
      assert u[1..] == front[1..] + [x, y + BAR + z] + rest;
      JoinShift(front[1..], x, y, z, rest);
    }
  }

  lemma SplitAtBar(s: bytes) returns (x: bytes, y: bytes)
    requires 124 in s
    ensures s == x + BAR + y && |x| < |s|
  {
    var k :| 0 <= k < |s| && s[k] == 124;
    x, y := s[..k], s[k + 1..];
  }

  /** An entry with a bar in a text shares its payload with one whose texts differ. */
  lemma MoveBoundary(d: Entry, i: nat) returns (e: Entry)
    requires i < 5 && 124 in Texts(d)[i]
    ensures Payload(e) == Payload(d) && Texts(e) != Texts(d)
  {
    var t := Texts(d);
    var x, y := SplitAtBar(t[i]);
    hide BAR, Payload, Texts, JoinTexts;
    PayloadIsJoin(d);
    if i < 4 {
      var u := t[..i] + [x, y + BAR + t[i + 1]] + t[i + 2..];
      assert t == t[..i] + [x + BAR + y, t[i + 1]] + t[i + 2..];
      JoinShift(t[..i], x, y, t[i + 1], t[i + 2..]);
      e := FromTexts(u);
      assert u[i] == x;
    } else {
      var u := t[..3] + [t[3] + BAR + x, y];
      assert t == t[..3] + [t[3], x + BAR + y] + [] && u == t[..3] + [t[3] + BAR + x, y] + [];
      JoinShift(t[..3], t[3], x, y, []);
      e := FromTexts(u);
      assert |u[3]| > |t[3]| by { BarLength(t[3], x); }
    }
    PayloadIsJoin(e);
  }

  lemma BarLength(a: bytes, x: bytes)
    ensures |a + BAR + x| == |a| + 1 + |x|
  {}

  /** The payload pins an entry's five texts, against every other entry, exactly if none contains a bar. */
  lemma PayloadPinsTexts(d: Entry)
    ensures (forall e :: Payload(e) == Payload(d) ==> Texts(e) == Texts(d)) <==> BarFree(d)
  {
    hide Payload, Texts, JoinTexts, BarsIn;
    if BarFree(d) {
      forall e | Payload(e) == Payload(d)
        ensures Texts(e) == Texts(d)
      {
        PayloadIsJoin(d);
        PayloadIsJoin(e);
        BarsOfJoin(Texts(d));
        BarsOfJoin(Texts(e));
        NoBarsIn(Texts(d));
        NoBarsIn(Texts(e));
        JoinPinsTexts(Texts(d), Texts(e));
      }
    } else {
      var i: nat :| i < 5 && 124 in Texts(d)[i];
      var e := MoveBoundary(d, i);
      assert Payload(e) == Payload(d) && Texts(e) != Texts(d);
    }
  }

  /** The bytes of an ASCII text. */
  function Ascii(s: string): (b: bytes)
    ensures |b| == |s|
  {
    seq(|s|, i requires 0 <= i < |s| => (s[i] as int % 0x80) as byte)
  }

  /** A missing detail is written as Python writes None, and the start of the log is 32 zero bytes. */
  lemma Constants()
    ensures NONE_TEXT == Ascii("None") && BAR == Ascii("|")
    ensures |GENESIS| == 32 && forall i :: 0 <= i < 32 ==> GENESIS[i] == 0
  {}

  /** A detail as json.dumps writes it, up to and from a bar in the key's name. */
  const DETAIL_FRONT: string := "{\"name\": \"a"
  const DETAIL_REST: string := "b\", \"namespace_id\": \"n1\", \"type\": \"aead\"}"

  /** The entry that creating a key named "a|b" writes, and one that differs from it in every text. */
  lemma BarsAreAmbiguous() returns (d: Entry, e: Entry)
    ensures d == Entry(Ascii("2026-07-01T12:00:00+00:00"), Ascii("principal:p1"), Ascii("key.create"),
                       Some(Ascii("k1")),
                       Some(Ascii(DETAIL_FRONT) + BAR + Ascii(DETAIL_REST)))
    ensures Payload(d) == Payload(e) && forall i :: 0 <= i < 5 ==> Texts(d)[i] != Texts(e)[i]
  {
    hide Ascii, BAR;
    var ts, actor := Ascii("2026-07-01T12:00:00+00:00"), Ascii("principal:p1");
    var action, target := Ascii("key.create"), Ascii("k1");
    var front, rest := Ascii(DETAIL_FRONT), Ascii(DETAIL_REST);
    d := Entry(ts, actor, action, Some(target), Some(front + BAR + rest));
    e := Entry(ts + BAR + actor, action, target, Some(front), Some(rest));
    BarLength(ts, actor);
    BarLength(front, rest);
    assert |front| == 11 && |rest| > 0;
  }
}
