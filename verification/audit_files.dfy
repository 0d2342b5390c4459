/**
  The two cross-checks of the audit log: a backup's manifest, which records the number
  of rows and the head, and the append-only file, whose chain is recomputed and whose
  head is compared with the database's.
 */
module AuditFiles {
  import opened Bytes
  import opened Wrappers
  import opened AuditChain
  import opened Base64
  import Appends = AuditAppend

  // -------------------------------------------------------------- backups ----

  datatype Manifest = Manifest(count: nat, headB64: string)

  function ChainHeadAndCount(rows: seq<Row>): Manifest {
    Manifest(|rows|, Encode(Standard, Head(rows)))
  }

  /** The verification command on an unlocked snapshot: exit code 0 or 1. */
  method VerifyBackup(c: Primitives, rows: seq<Row>, manifest: Manifest) returns (code: nat)
    ensures code == 0 <==> Chain(c, rows) && ChainHeadAndCount(rows) == manifest
    ensures code <= 1
  {
    hide Encode;
    var ok, _ := VerifyChain(c, rows);
    if !ok {
      return 1;
    }
    var found := ChainHeadAndCount(rows);
    if found.count != manifest.count {
      return 1;
    }
    if found.headB64 != manifest.headB64 {
      return 1;
    }
    return 0;
  }

  lemma EncodeInjective(a: bytes, b: bytes)
    requires Encode(Standard, a) == Encode(Standard, b)
    ensures a == b
  {
    hide Encode, Decode;
    DecodeEncode(Standard, a);
    DecodeEncode(Standard, b);
  }

  /** A snapshot that passes against a log's manifest tells the same history as that log. */
  lemma BackupDetectsEdits(c: Primitives, original: seq<Row>, snapshot: seq<Row>)
    requires Linked(c, original) && Chain(c, snapshot)
    requires ChainHeadAndCount(snapshot) == ChainHeadAndCount(original)
    requires DigestsAre48Bytes(c) && CollisionFree(c, snapshot, original)
    ensures SameHistory(snapshot, original)
  {
    hide Encode, Linked, Chain;
    ChainIsLinked(c, snapshot);
    EncodeInjective(Head(snapshot), Head(original));
    assert snapshot[..|snapshot|] == snapshot && original[..|original|] == original;
    HeadDetermines(c, snapshot, original, |snapshot|, |original|);
  }

  /** A snapshot that the verification command accepts against a log's manifest. */
  ghost predicate Accepted(c: Primitives, snapshot: seq<Row>, original: seq<Row>) {
    && Chain(c, snapshot) && ChainHeadAndCount(snapshot) == ChainHeadAndCount(original)
    && CollisionFree(c, snapshot, original)
  }

  /**
    The manifest pins every field of every row, against all snapshots, exactly if no text
    in the log contains a bar.
   */
  lemma ManifestPinsEvents(c: Primitives, original: seq<Row>)
    requires Chain(c, original) && DigestsAre48Bytes(c) && CollisionFree(c, original, original)
    ensures (forall s :: Accepted(c, s, original) ==> SameEvents(s, original)) <==> AllBarFree(original)
  {
    hide Encode, Chain, Linked, CollisionFree, SameHistory, BarFree;
    if AllBarFree(original) {
      ChainIsLinked(c, original);
      forall s | Accepted(c, s, original)
        ensures SameEvents(s, original)
      {
        BackupDetectsEdits(c, original, s);
        HistoryIsEvents(s, original);
      }
    } else {
      var edited := UnseenEdit(c, original);
      assert Accepted(c, edited, original);
    }
  }

  /** With a bar in the log, a copy with other fields that no verifier can tell from it. */
  lemma UnseenEdit(c: Primitives, rows: seq<Row>) returns (edited: seq<Row>)
    requires Chain(c, rows) && CollisionFree(c, rows, rows) && !AllBarFree(rows)
    ensures Chain(c, edited) && Head(edited) == Head(rows) && CollisionFree(c, edited, rows)
    ensures Lookalikes(edited, rows) && !SameEvents(edited, rows)
  {
    hide Chain, CollisionFree, Payload, Head, Texts;
    var i: nat :| i < |rows| && !BarFree(rows[i].entry);
    var k: nat :| k < 5 && 124 in Texts(rows[i].entry)[k];
    var e := MoveBoundary(rows[i].entry, k);
    EditGoesUnseen(c, rows, i, e);
    edited := rows[i := rows[i].(entry := e)];
    assert Texts(edited[i].entry) != Texts(rows[i].entry);
  }

  /**
    The manifest is read after the snapshot was taken. The pair verifies exactly when
    nothing was appended in between.
   */
  lemma FreshBackupVerifies(c: Primitives, rows: seq<Row>, taken: nat)
    requires Chain(c, rows) && taken <= |rows|
    ensures (Chain(c, rows[..taken]) && ChainHeadAndCount(rows[..taken]) == ChainHeadAndCount(rows))
      <==> taken == |rows|
  {
    hide Encode;
    ChainPrefix(c, rows, taken);
    assert rows[..|rows|] == rows;
  }

  // ------------------------------------------------- the append-only file ----

  /** A line of the file: blank, or the parsed fields of one entry. */
  datatype Line =
    | Blank
    | Record(entry: Entry, prevB64: string, hashB64: string)

  datatype FileCheck =
    | Intact(headB64: string)
    | Broken(line: nat)
    | Undecodable(line: nat)

  /** The running hash and the head text after some lines, if they form a chain. */
  ghost function FileState(c: Primitives, lines: seq<Line>): Option<(bytes, string)> {
    if lines == [] then Some((GENESIS, Encode(Standard, GENESIS)))
    else
      var line := lines[|lines| - 1];
      match FileState(c, lines[..|lines| - 1])
      case None => None
      case Some(state) =>
        if line.Blank? then Some(state)
        else
          var h := Hash(c, HashInput(state.0, line.entry));
          if Decode(Standard, line.prevB64) == Some(state.0) && Decode(Standard, line.hashB64) == Some(h)
          then Some((h, line.hashB64)) else None
  }

  lemma {:induction false} FileStatePrefix(c: Primitives, lines: seq<Line>, n: nat)
    requires n <= |lines| && FileState(c, lines[..n]).None?
    ensures FileState(c, lines).None?
  {
    hide Encode, Decode;
    if n < |lines| {
      assert lines[..|lines| - 1][..n] == lines[..n];
      FileStatePrefix(c, lines[..|lines| - 1], n);
    } else {
      assert lines[..n] == lines;
    }
  }

  /** Recomputes the chain from the file; names the first line that breaks it. */
  method VerifyFileChain(c: Primitives, lines: seq<Line>) returns (r: FileCheck)
    ensures r.Intact? ==> FileState(c, lines).Some? && r.headB64 == FileState(c, lines).value.1
    ensures !r.Intact? ==> FileState(c, lines).None?
    ensures !r.Intact? ==> 1 <= r.line <= |lines|
    ensures !r.Intact? ==> FileState(c, lines[..r.line - 1]).Some? && FileState(c, lines[..r.line]).None?
    ensures r.Intact? <==> forall k :: 0 <= k < |Records(lines)| ==> RecordFollows(c, Records(lines), k)
  {
    hide Encode, Decode, RecordFollows, Records;
    IntactMeans(c, lines);
    var prev := GENESIS;
    var headB64 := Encode(Standard, prev);
    for i := 0 to |lines|
      invariant FileState(c, lines[..i]) == Some((prev, headB64))
    {
      var n, line := i + 1, lines[i];
      assert lines[..n][..i] == lines[..i];
      if FileState(c, lines[..n]).None? {
        FileStatePrefix(c, lines, n);
      }
      if line.Blank? {
        continue;
      }
      var storedPrev := Decode(Standard, line.prevB64);
      if storedPrev.None? {
        return Undecodable(n);
      }
      if storedPrev.value != prev {
        return Broken(n);
      }
      var expected := Hash(c, prev + Payload(line.entry));
      var stored := Decode(Standard, line.hashB64);
      if stored.None? {
        return Undecodable(n);
      }
      if expected != stored.value {
        return Broken(n);
      }
      prev := expected;
      headB64 := line.hashB64;
    }
    assert lines[..|lines|] == lines;
    return Intact(headB64);
  }

  /** The lines that are not blank. */
  function Records(lines: seq<Line>): (r: seq<Line>)
    ensures forall k :: 0 <= k < |r| ==> r[k].Record?
  {
    if lines == [] then []
    else Records(lines[..|lines| - 1]) + if lines[|lines| - 1].Blank? then [] else [lines[|lines| - 1]]
  }

  /** The digest that the k-th record has to follow: that of the record before, or the start of the log. */
  function DigestBefore(records: seq<Line>, k: nat): Option<bytes>
    requires k <= |records| && forall i :: 0 <= i < |records| ==> records[i].Record?
  {
    if k == 0 then Some(GENESIS) else Decode(Standard, records[k - 1].hashB64)
  }

  /** The record names the digest before it, and carries the digest of that and its own text. */
  ghost predicate RecordFollows(c: Primitives, records: seq<Line>, k: nat)
    requires k < |records| && forall i :: 0 <= i < |records| ==> records[i].Record?
  {
    var before := DigestBefore(records, k);
    && before.Some? && Decode(Standard, records[k].prevB64) == before
    && Decode(Standard, records[k].hashB64) == Some(Hash(c, before.value + Payload(records[k].entry)))
  }

  /** A file is intact exactly if every record follows the one before it; its head is the last record's. */
  lemma {:induction false} IntactMeans(c: Primitives, lines: seq<Line>)
    ensures var records := Records(lines);
      FileState(c, lines).Some? <==> forall k :: 0 <= k < |records| ==> RecordFollows(c, records, k)
    ensures var records := Records(lines);
      FileState(c, lines).Some? ==>
        && DigestBefore(records, |records|) == Some(FileState(c, lines).value.0)
        && FileState(c, lines).value.1 == (if records == [] then Encode(Standard, GENESIS)
                                              else records[|records| - 1].hashB64)
  {
    hide Encode, Decode, HashInput, Payload;
    if lines != [] {
      var front, line := lines[..|lines| - 1], lines[|lines| - 1];
      IntactMeans(c, front);
      if line.Blank? {
        assert Records(front) + [] == Records(front);
      } else {
        RecordAppended(c, Records(front), line);
        if FileState(c, front).Some? {
          LastFollows(c, lines);
        }
      }
    }
  }

  lemma RecordAppended(c: Primitives, front: seq<Line>, line: Line)
    requires line.Record? && forall i :: 0 <= i < |front| ==> front[i].Record?
    ensures var records := front + [line];
      forall k :: 0 <= k < |front| ==> (RecordFollows(c, records, k) <==> RecordFollows(c, front, k))
  {
    hide Decode, Payload;
    var records := front + [line];
    forall k | 0 <= k < |front|
      ensures RecordFollows(c, records, k) <==> RecordFollows(c, front, k)
    {
      assert records[k] == front[k];
      assert DigestBefore(records, k) == DigestBefore(front, k);
    }
  }

  lemma LastFollows(c: Primitives, lines: seq<Line>)
    requires lines != [] && lines[|lines| - 1].Record? && FileState(c, lines[..|lines| - 1]).Some?
    requires var front := Records(lines[..|lines| - 1]);
      DigestBefore(front, |front|) == Some(FileState(c, lines[..|lines| - 1]).value.0)
    ensures var records := Records(lines);
      FileState(c, lines).Some? <==> RecordFollows(c, records, |records| - 1)
  {
    hide Encode, Decode, Payload;
    var front, records := Records(lines[..|lines| - 1]), Records(lines);
    assert records[|records| - 1] == lines[|lines| - 1];
    assert DigestBefore(records, |front|) == DigestBefore(front, |front|);
  }

  /** The rows that the non-blank lines of an intact file stand for. */
  ghost function FileRows(c: Primitives, lines: seq<Line>): seq<Row>
    requires FileState(c, lines).Some?
  {
    if lines == [] then []
    else
      var front, line := lines[..|lines| - 1], lines[|lines| - 1];
      if line.Blank? then FileRows(c, front)
      else FileRows(c, front) + [Row(0, line.entry, FileState(c, front).value.0, FileState(c, lines).value.0, [])]
  }

  lemma {:induction false} FileRowsLinked(c: Primitives, lines: seq<Line>)
    requires FileState(c, lines).Some?
    ensures Linked(c, FileRows(c, lines)) && Head(FileRows(c, lines)) == FileState(c, lines).value.0
    ensures Decode(Standard, FileState(c, lines).value.1) == Some(FileState(c, lines).value.0)
  {
    hide Encode, Decode, HashInput;
    if lines == [] {
      DecodeEncode(Standard, GENESIS);
    } else {
      var front, line := lines[..|lines| - 1], lines[|lines| - 1];
      FileRowsLinked(c, front);
      if line.Record? {
        LinkedExtends(c, FileRows(c, front), FileRows(c, lines)[|FileRows(c, front)|]);
      }
    }
  }

  lemma LinkedExtends(c: Primitives, rows: seq<Row>, row: Row)
    requires Linked(c, rows) && GoodLink(c, Head(rows), row)
    ensures Linked(c, rows + [row])
  {
    hide HashInput;
    var longer := rows + [row];
    forall i | 0 <= i < |longer|
      ensures GoodLink(c, Head(longer[..i]), longer[i])
    {
      if i < |rows| {
        assert longer[..i] == rows[..i];
      } else {
        assert longer[..i] == rows;
      }
    }
  }

  /** A file whose head is the database's tells the same history as the database. */
  lemma FileCrossCheck(c: Primitives, lines: seq<Line>, rows: seq<Row>)
    requires Chain(c, rows) && FileState(c, lines).Some?
    requires FileState(c, lines).value.1 == Encode(Standard, Head(rows))
    requires DigestsAre48Bytes(c) && CollisionFree(c, FileRows(c, lines), rows)
    requires NoZeroPrefix(FileRows(c, lines)) && NoZeroPrefix(rows)
    ensures SameHistory(FileRows(c, lines), rows)
  {
    hide Encode, Decode, Linked, Chain, FileState, FileRows;
    ChainIsLinked(c, rows);
    FileRowsLinked(c, lines);
    DecodeEncode(Standard, Head(rows));
    var left := FileRows(c, lines);
    assert left[..|left|] == left && rows[..|rows|] == rows;
    HeadDetermines(c, left, rows, |left|, |rows|);
  }

  /** What the sink writes for a committed row. */
  function MirrorLine(row: Row): Line {
    Record(row.entry, Encode(Standard, row.prevHash), Encode(Standard, row.entryHash))
  }

  function Mirror(rows: seq<Row>): seq<Line> {
    seq(|rows|, i requires 0 <= i < |rows| => MirrorLine(rows[i]))
  }

  /** A complete mirror in commit order passes the cross-check. */
  lemma {:induction false} MirrorPasses(c: Primitives, rows: seq<Row>)
    requires Chain(c, rows)
    ensures FileState(c, Mirror(rows)) == Some((Head(rows), Encode(Standard, Head(rows))))
  {
    hide Encode, Decode, HashInput;
    if rows != [] {
      var n := |rows| - 1;
      ChainPrefix(c, rows, n);
      MirrorPasses(c, rows[..n]);
      assert Mirror(rows)[..n] == Mirror(rows[..n]);
      ChainAt(c, rows, n);
      DecodeEncode(Standard, rows[n].prevHash);
      DecodeEncode(Standard, rows[n].entryHash);
    }
  }

  /** The rows of a mirror are those of the database, as far as a file keeps them. */
  lemma {:induction false} MirrorRows(c: Primitives, rows: seq<Row>)
    requires Chain(c, rows)
    ensures FileState(c, Mirror(rows)).Some? && |FileRows(c, Mirror(rows))| == |rows|
    ensures forall i :: 0 <= i < |rows| ==> MirroredRow(FileRows(c, Mirror(rows))[i], rows[i])
  {
    hide Encode, Decode, FileState, Chain, MirrorLine, MirroredRow;
    MirrorPasses(c, rows);
    if rows != [] {
      hide FileRows, Mirror, Head;
      var n := |rows| - 1;
      var front := rows[..n];
      ChainPrefix(c, rows, n);
      MirrorPasses(c, front);
      MirrorRows(c, front);
      MirrorRowsStep(c, rows);
      var kept, all := FileRows(c, Mirror(front)), FileRows(c, Mirror(rows));
      forall i | 0 <= i < |rows|
        ensures MirroredRow(all[i], rows[i])
      {
        if i < n {
          assert MirroredRow(kept[i], front[i]);
        }
      }
    }
  }

  lemma MirrorRowsStep(c: Primitives, rows: seq<Row>)
    requires Chain(c, rows) && rows != []
    requires FileState(c, Mirror(rows)) == Some((Head(rows), Encode(Standard, Head(rows))))
    requires var front := rows[..|rows| - 1];
      FileState(c, Mirror(front)) == Some((Head(front), Encode(Standard, Head(front))))
    ensures var n := |rows| - 1; var f := Row(0, rows[n].entry, Head(rows[..n]), Head(rows), []);
      FileRows(c, Mirror(rows)) == FileRows(c, Mirror(rows[..n])) + [f] && MirroredRow(f, rows[n])
  {
    hide Encode, FileState, Mirror, Chain;
    MirrorEnds(rows);
    ChainAt(c, rows, |rows| - 1);
  }

  lemma MirrorEnds(rows: seq<Row>)
    requires rows != []
    ensures var n := |rows| - 1;
      |Mirror(rows)| == n + 1 && Mirror(rows)[..n] == Mirror(rows[..n]) && Mirror(rows)[n] == MirrorLine(rows[n])
  {
    hide Encode;
  }

  ghost predicate MirroredRow(f: Row, row: Row) {
    f.entry == row.entry && f.prevHash == row.prevHash && f.entryHash == row.entryHash
  }

  /** A file that the verification command accepts against a database. */
  ghost predicate FileAccepted(c: Primitives, lines: seq<Line>, rows: seq<Row>) {
    && FileState(c, lines).Some? && FileState(c, lines).value.1 == Encode(Standard, Head(rows))
    && CollisionFree(c, FileRows(c, lines), rows) && NoZeroPrefix(FileRows(c, lines))
  }

  /** Likewise the database pins every field of the file exactly if no text in it contains a bar. */
  lemma DatabasePinsFile(c: Primitives, rows: seq<Row>)
    requires Chain(c, rows) && DigestsAre48Bytes(c) && CollisionFree(c, rows, rows) && NoZeroPrefix(rows)
    ensures (forall lines :: FileAccepted(c, lines, rows) ==> SameEvents(FileRows(c, lines), rows))
      <==> AllBarFree(rows)
  {
    hide Encode, Chain, CollisionFree, NoZeroPrefix, SameHistory, BarFree, FileState, FileRows;
    if AllBarFree(rows) {
      forall lines | FileAccepted(c, lines, rows)
        ensures SameEvents(FileRows(c, lines), rows)
      {
        FileCrossCheck(c, lines, rows);
        HistoryIsEvents(FileRows(c, lines), rows);
      }
    } else {
      var edited := UnseenEdit(c, rows);
      MirrorPasses(c, edited);
      MirrorRows(c, edited);
      MirrorAccepted(c, rows, edited);
      assert FileAccepted(c, Mirror(edited), rows);
    }
  }

  lemma MirrorAccepted(c: Primitives, rows: seq<Row>, edited: seq<Row>)
    requires Chain(c, edited) && Lookalikes(edited, rows) && CollisionFree(c, edited, rows) && NoZeroPrefix(rows)
    requires !SameEvents(edited, rows) && FileState(c, Mirror(edited)).Some?
    ensures CollisionFree(c, FileRows(c, Mirror(edited)), rows) && NoZeroPrefix(FileRows(c, Mirror(edited)))
    ensures !SameEvents(FileRows(c, Mirror(edited)), rows)
  {
    hide Encode, Chain, FileState, FileRows, Mirror, HashInput, Payload, Texts;
    MirrorRows(c, edited);
  }

  /** So does the mirror of any interleaving of appenders. */
  lemma MirrorOfAnyRunPasses(c: Primitives, events: seq<Appends.Event>)
    requires VerifyAcceptsSign(c)
    ensures var rows := Appends.Run(c, Appends.EMPTY, events).rows;
      FileState(c, Mirror(rows)) == Some((Head(rows), Encode(Standard, Head(rows))))
  {
    hide Encode, Decode;
    Appends.EveryRunIsOneChain(c, events);
    MirrorPasses(c, Appends.Run(c, Appends.EMPTY, events).rows);
  }
}
