/** Retention of the core's own records: the aged prefix that was already copied is verified
    once more, archived and deleted, in one transaction. */
module AccRetention {
  import opened Common
  import opened Accountability
  import opened Cursors

  // ---- the archive of a core chain ----

  datatype AccPart = AccPart(partNo: nat, rowCount: nat, firstSeq: int, lastSeq: int, minTs: int, maxTs: int,
                             header: AccHeader, rows: seq<CoreRecord>)

  datatype AccSegment = AccSegment(rowCount: nat, firstSeq: int, lastSeq: int, firstPrev: Option<Hash>, lastHash: Hash,
                                   minTs: int, maxTs: int, parts: seq<AccPart>)

  function RowsIn(parts: seq<AccPart>): seq<CoreRecord> {
    if parts == [] then [] else RowsIn(parts[..|parts| - 1]) + parts[|parts| - 1].rows
  }

  function Archived(segments: seq<AccSegment>): seq<CoreRecord> {
    if segments == [] then [] else Archived(segments[..|segments| - 1]) + RowsIn(segments[|segments| - 1].parts)
  }

  /** What a part's object says of itself. */
  datatype AccHeader = AccHeader(partNo: nat, rowCount: nat, firstSeq: int, lastSeq: int)

  /** A part as it is written from the rows of one fetch. */
  function PartOf(no: nat, rows: seq<CoreRecord>): AccPart
    requires rows != []
  {
    var first, last := rows[0], rows[|rows| - 1];
    AccPart(no, |rows|, first.seqNo, last.seqNo, first.ts, last.ts, AccHeader(no, |rows|, first.seqNo, last.seqNo), rows)
  }

  predicate PartsSound(parts: seq<AccPart>) {
    forall i :: 0 <= i < |parts| ==>
      var p, n := parts[i], |parts[i].rows|;
      && n > 0 && p.partNo == i + 1 && p.rowCount == n && p.firstSeq == p.rows[0].seqNo && p.lastSeq == p.rows[n - 1].seqNo
      && p.minTs == p.rows[0].ts && p.maxTs == p.rows[n - 1].ts
      && p.header == AccHeader(p.partNo, n, p.firstSeq, p.lastSeq)
  }

  /** The segment's record says of its rows what is true of them. */
  predicate Describes(s: AccSegment, rows: seq<CoreRecord>) {
    && rows != [] && RowsIn(s.parts) == rows && PartsSound(s.parts)
    && s.rowCount == |rows|
    && s.firstSeq == rows[0].seqNo && s.lastSeq == rows[|rows| - 1].seqNo
    && s.firstPrev == OrNone(rows[0].prevHash) && s.lastHash == rows[|rows| - 1].hash
    && s.minTs == rows[0].ts && s.maxTs == rows[|rows| - 1].ts
  }

  /** Where a walk from the very first record starts: sequence numbers begin at 1. */
  const ORIGIN := Position(Some(0), None, None)

  ghost predicate IndexSound(segments: seq<AccSegment>) {
    forall i :: 0 <= i < |segments| ==> Describes(segments[i], RowsIn(segments[i].parts))
  }

  /** Sound entries whose rows go on from a link, segment after segment. */
  ghost predicate TilesFrom(g: CoreLinker, p: Position, segments: seq<AccSegment>) {
    IndexSound(segments) && p.seqNo.Some? && Continues(g, p, Archived(segments))
  }

  /** The catalog of a core chain: every segment was verified, and each goes on from the
      one before, from record 1. */
  ghost predicate Tiles(g: CoreLinker, segments: seq<AccSegment>) { TilesFrom(g, ORIGIN, segments) }

  /** The newest archived link: the entry with the largest last sequence number. */
  function Newest(segments: seq<AccSegment>): Option<AccSegment> {
    if segments == [] then None
    else
      var best, last := Newest(segments[..|segments| - 1]), segments[|segments| - 1];
      if best.Some? && best.value.lastSeq >= last.lastSeq then best else Some(last)
  }

  /** The anchor, as the cursor a fresh puller resumes from. */
  function AnchorOf(segments: seq<AccSegment>): Option<Cursor> {
    match Newest(segments)
    case None => None
    case Some(s) => Some(Cursor(s.maxTs, s.lastSeq, Some(s.lastHash)))
  }

  /** Where a walk of the table starts. */
  function StartOf(anchor: Option<Cursor>): Position {
    if anchor.Some? then Position(Some(anchor.value.lastSeq), anchor.value.lastHash, Some(anchor.value.until)) else ORIGIN
  }

  lemma TilesFront(g: CoreLinker, p: Position, segments: seq<AccSegment>)
    requires segments != [] && TilesFrom(g, p, segments)
    ensures TilesFrom(g, p, segments[..|segments| - 1])
    ensures Continues(g, EndOf(p, Archived(segments[..|segments| - 1])), RowsIn(segments[|segments| - 1].parts))
  {
    ContinuesConcat(g, p, Archived(segments[..|segments| - 1]), RowsIn(segments[|segments| - 1].parts));
  }

  lemma LastNumber(g: CoreLinker, p: Position, recs: seq<CoreRecord>)
    requires Continues(g, p, recs) && p.seqNo.Some?
    ensures EndOf(p, recs).seqNo == Some(p.seqNo.value + |recs|)
  {
    ContinuesNumbers(g, p, recs);
  }

  function LinkOf(s: AccSegment): Position { Position(Some(s.lastSeq), Some(s.lastHash), Some(s.maxTs)) }

  lemma LastSegmentEnds(g: CoreLinker, p: Position, segments: seq<AccSegment>)
    requires segments != [] && TilesFrom(g, p, segments)
    ensures Archived(segments) != [] && EndOf(p, Archived(segments)) == LinkOf(segments[|segments| - 1])
  {
    var last := segments[|segments| - 1];
    assert Describes(last, RowsIn(last.parts));
  }

  lemma SegmentsAscend(g: CoreLinker, p: Position, segments: seq<AccSegment>)
    requires |segments| > 1 && TilesFrom(g, p, segments)
    ensures segments[|segments| - 2].lastSeq < segments[|segments| - 1].lastSeq
  {
    var front, last := segments[..|segments| - 1], segments[|segments| - 1];
    TilesFront(g, p, segments);
    LastSegmentEnds(g, p, front);
    LastSegmentEnds(g, p, segments);
    assert Describes(last, RowsIn(last.parts));
    LastNumber(g, EndOf(p, Archived(front)), RowsIn(last.parts));
  }

  lemma {:induction false} NewestIsLast(g: CoreLinker, p: Position, segments: seq<AccSegment>)
    requires segments != [] && TilesFrom(g, p, segments)
    ensures Newest(segments) == Some(segments[|segments| - 1])
  {
    if |segments| > 1 {
      TilesFront(g, p, segments);
      NewestIsLast(g, p, segments[..|segments| - 1]);
      SegmentsAscend(g, p, segments);
    }
  }

  /** The anchor is where the archive ends, wherever it starts. */
  lemma AnchorIsTheEnd(g: CoreLinker, p: Position, segments: seq<AccSegment>)
    requires TilesFrom(g, p, segments)
    ensures segments != [] || p == ORIGIN ==> StartOf(AnchorOf(segments)) == EndOf(p, Archived(segments))
    ensures segments == [] <==> Archived(segments) == []
  {
    if segments != [] {
      NewestIsLast(g, p, segments);
      LastSegmentEnds(g, p, segments);
    }
  }

  // ---- the walker ----

  class AccWalker {
    const g: CoreLinker
    var prev: Option<Hash>
    var prevSeq: int
    var prevTs: Option<int>
    var broken: Option<FirstBreak>

    function Place(): Position
      reads this
    {
      Position(Some(prevSeq), prev, prevTs)
    }

    constructor (g: CoreLinker, start: Option<Hash>, after: int, afterTs: Option<int>)
      ensures this.g == g && Place() == Position(Some(after), start, afterTs) && broken.None?
    {
      this.g := g;
      prev, prevSeq, prevTs, broken := start, after, afterTs, None;
    }

    /** Checks one row as a batch of its own, and carries on from it as it is stored. */
    method Step(row: CoreRecord) returns (ok: bool)
      modifies this
      ensures Place() == Past(row)
      ensures var fault := FaultOf(g, old(Place()), row);
        broken == if old(broken).None? && fault.Some? then Some(FirstBreak(row.seqNo, fault.value)) else old(broken)
      ensures ok <==> broken.None?
    {
      var v := VerifyBatch(g, Place(), [row], None);
      OneRow(g, Place(), row);
      if v.Broken? && broken.None? {
        broken := Some(FirstBreak(v.seqNo, v.fault));
      }
      prev, prevSeq, prevTs := Some(row.hash), row.seqNo, Some(row.ts);
      ok := broken.None?;
    }

    /** Row by row it finds what one check of the whole batch finds. */
    method Walk(rows: seq<CoreRecord>)
      modifies this
      ensures Place() == EndOf(old(Place()), rows)
      ensures broken == if old(broken).Some? then old(broken) else BreakIn(g, old(Place()), rows)
    {
      var i := 0;
      while i < |rows|
        invariant i <= |rows| && Place() == EndOf(old(Place()), rows[..i])
        invariant broken == if old(broken).Some? then old(broken) else BreakIn(g, old(Place()), rows[..i])
      {
        assert rows[..i + 1][..i] == rows[..i];
        var _ := Step(rows[i]);
        i := i + 1;
      }
      assert rows[..i] == rows;
    }
  }

  lemma OneRow(g: CoreLinker, p: Position, row: CoreRecord)
    ensures VerdictOf(g, p, [row], None)
            == var fault := FaultOf(g, p, row); if fault.Some? then Broken(row.seqNo, fault.value) else Accepted
  {
    assert [row][..0] == [];
    assert BreakIn(g, p, []) == None && EndOf(p, []) == p;
    assert BreakIn(g, p, [row]) == var fault := FaultOf(g, p, row); if fault.Some? then Some(FirstBreak(row.seqNo, fault.value)) else None;
  }

  lemma {:induction false} BreakInConcat(g: CoreLinker, p: Position, a: seq<CoreRecord>, b: seq<CoreRecord>)
    ensures BreakIn(g, p, a + b) == if BreakIn(g, p, a).Some? then BreakIn(g, p, a) else BreakIn(g, EndOf(p, a), b)
  {
    if b == [] {
      assert a + b == a;
    } else {
      assert (a + b)[..|a + b| - 1] == a + b[..|b| - 1];
      ContinuesConcat(g, p, a, b[..|b| - 1]);
      BreakInConcat(g, p, a, b[..|b| - 1]);
    }
  }

  // ---- what may go ----

  predicate BySeq(table: seq<CoreRecord>) {
    forall i, j :: 0 <= i < j < |table| ==> table[i].seqNo < table[j].seqNo
  }

  function Upto(table: seq<CoreRecord>, limit: int): seq<CoreRecord> {
    if table == [] then []
    else
      var last := table[|table| - 1];
      Upto(table[..|table| - 1], limit) + (if last.seqNo <= limit then [last] else [])
  }

  function Above(table: seq<CoreRecord>, limit: int): seq<CoreRecord> {
    if table == [] then []
    else
      var last := table[|table| - 1];
      Above(table[..|table| - 1], limit) + (if last.seqNo <= limit then [] else [last])
  }

  lemma {:induction false} AllUpto(table: seq<CoreRecord>, limit: int)
    requires forall i :: 0 <= i < |table| ==> table[i].seqNo <= limit
    ensures Upto(table, limit) == table && Above(table, limit) == []
  {
    if table != [] {
      var front, last := table[..|table| - 1], table[|table| - 1];
      AllUpto(front, limit);
      assert table == front + [last];
    }
  }

  lemma UptoExtend(front: seq<CoreRecord>, last: CoreRecord, limit: int)
    ensures Upto(front + [last], limit) == Upto(front, limit) + (if last.seqNo <= limit then [last] else [])
    ensures Above(front + [last], limit) == Above(front, limit) + (if last.seqNo <= limit then [] else [last])
  {
    assert (front + [last])[..|front|] == front;
  }

  /** In `seq` order the rows up to a limit come first. */
  lemma {:induction false} UptoIsPrefix(table: seq<CoreRecord>, limit: int)
    requires BySeq(table)
    ensures var n := |Upto(table, limit)|;
      && n <= |table| && Upto(table, limit) == table[..n] && Above(table, limit) == table[n..]
      && (forall i :: 0 <= i < n ==> table[i].seqNo <= limit) && (forall i :: n <= i < |table| ==> table[i].seqNo > limit)
  {
    if table != [] {
      var n := |table| - 1;
      if table[n].seqNo <= limit {
        AllUpto(table, limit);
      } else {
        var front, last := table[..n], table[n];
        assert table == front + [last];
        UptoIsPrefix(front, limit);
        UptoExtend(front, last, limit);
        assert Upto(front, limit) + [] == Upto(front, limit);
      }
    }
  }

  /** The largest sequence number older than the cutoff. */
  function MaxAged(table: seq<CoreRecord>, cutoff: int): Option<int> {
    if table == [] then None
    else
      var m, r := MaxAged(table[..|table| - 1], cutoff), table[|table| - 1];
      if r.ts < cutoff && (m.None? || r.seqNo > m.value) then Some(r.seqNo) else m
  }

  /** `m` is the greatest number of a row older than the cutoff. */
  ghost predicate GreatestAged(table: seq<CoreRecord>, cutoff: int, m: int) {
    && (exists i :: 0 <= i < |table| && table[i].ts < cutoff && table[i].seqNo == m)
    && forall i :: 0 <= i < |table| && table[i].ts < cutoff ==> table[i].seqNo <= m
  }

  predicate NoneAged(table: seq<CoreRecord>, cutoff: int) { forall i :: 0 <= i < |table| ==> table[i].ts >= cutoff }

  lemma {:induction false} MaxAgedMeans(table: seq<CoreRecord>, cutoff: int)
    ensures MaxAged(table, cutoff).None? <==> NoneAged(table, cutoff)
    ensures forall m :: MaxAged(table, cutoff) == Some(m) <==> GreatestAged(table, cutoff, m)
  {
    if table != [] {
      var front, last := table[..|table| - 1], table[|table| - 1];
      MaxAgedMeans(front, cutoff);
      assert forall i :: 0 <= i < |front| ==> front[i] == table[i];
      var m := MaxAged(table, cutoff);
      if m.Some? {
        if last.ts < cutoff && last.seqNo == m.value {
          assert table[|front|].seqNo == m.value;
        } else {
          assert GreatestAged(front, cutoff, m.value);
          var i :| 0 <= i < |front| && front[i].ts < cutoff && front[i].seqNo == m.value;
          assert table[i].seqNo == m.value;
        }
        assert GreatestAged(table, cutoff, m.value);
      }
      forall x | GreatestAged(table, cutoff, x) ensures m == Some(x) {
        var i :| 0 <= i < |table| && table[i].ts < cutoff && table[i].seqNo == x;
        assert m.Some?;
      }
    }
  }

  /** How far the puller has copied the chain, as retention reads it: no cursor and a halted
      one both count as not at all. */
  function CopiedUpTo(cursor: Option<CursorRow>): int {
    if cursor.Some? && cursor.value.halt.None? then cursor.value.cursor.lastSeq else 0
  }

  function Limit(agedMax: int, cursor: Option<CursorRow>): int {
    if CopiedUpTo(cursor) < agedMax then CopiedUpTo(cursor) else agedMax
  }

  // ---- archiving ----

  /** What can fail on the way: writing a part or the manifest, and the delete. */
  datatype Faults = Faults(part: nat -> bool, manifest: bool, delete: bool)

  ghost predicate NoFault(f: Faults) { !f.manifest && !f.delete && forall k :: !f.part(k) }

  /** After some fetches: the parts hold what was read, and it has passed every check. */
  ghost predicate Streamed(g: CoreLinker, start: Position, rows: seq<CoreRecord>, size: nat, at: nat, parts: seq<AccPart>, place: Position) {
    && at <= |rows| && RowsIn(parts) == rows[..at] && PartsSound(parts)
    && PartsPacked(parts, size) && (at < |rows| ==> AllFull(parts, size))
    && place == EndOf(start, rows[..at]) && Continues(g, start, rows[..at])
    && (parts == [] <==> at == 0)
  }

  lemma PartsMore(parts: seq<AccPart>, size: nat, recs: seq<CoreRecord>)
    requires PartsSound(parts) && AllFull(parts, size) && recs != [] && |recs| <= size
    ensures var more := parts + [PartOf(|parts| + 1, recs)];
      && PartsSound(more) && PartsPacked(more, size) && RowsIn(more) == RowsIn(parts) + recs
      && (|recs| == size ==> AllFull(more, size))
  {
    var more := parts + [PartOf(|parts| + 1, recs)];
    assert more[..|parts|] == parts;
  }

  lemma FetchStep(g: CoreLinker, start: Position, rows: seq<CoreRecord>, size: nat, at: nat, parts: seq<AccPart>, place: Position, recs: seq<CoreRecord>)
    requires Streamed(g, start, rows, size, at, parts, place)
    requires recs != [] && at + |recs| <= |rows| && |recs| <= size && recs == rows[at..at + |recs|]
    requires at + |recs| < |rows| ==> |recs| == size
    ensures Continues(g, start, rows[..at + |recs|]) <==> BreakIn(g, place, recs).None?
    ensures BreakIn(g, place, recs).None? ==>
      Streamed(g, start, rows, size, at + |recs|, parts + [PartOf(|parts| + 1, recs)], EndOf(place, recs))
  {
    assert rows[..at + |recs|] == rows[..at] + recs;
    ContinuesConcat(g, start, rows[..at], recs);
    BreakInMeaning(g, place, recs);
    PartsMore(parts, size, recs);
  }

  lemma NothingStreamed(g: CoreLinker, start: Position, rows: seq<CoreRecord>, size: nat)
    ensures Streamed(g, start, rows, size, 0, [], start)
  {
    assert rows[..0] == [];
  }

  lemma RefusedFetch(g: CoreLinker, start: Position, rows: seq<CoreRecord>, n: nat)
    requires n <= |rows| && !Continues(g, start, rows[..n])
    ensures !Continues(g, start, rows)
  {
    assert rows == rows[..n] + rows[n..];
    ContinuesConcat(g, start, rows[..n], rows[n..]);
  }

  lemma {:induction false} PartsEnds(parts: seq<AccPart>)
    requires parts != [] && PartsSound(parts)
    ensures RowsIn(parts) != []
    ensures parts[0].rows[0] == RowsIn(parts)[0]
    ensures parts[|parts| - 1].rows[|parts[|parts| - 1].rows| - 1] == RowsIn(parts)[|RowsIn(parts)| - 1]
  {
    var front := parts[..|parts| - 1];
    if front != [] {
      PartsEnds(front);
    }
  }

  /** The segment's record, from the parts as they were collected. */
  function SegmentOf(count: nat, after: int, limit: int, lastHash: Hash, parts: seq<AccPart>): AccSegment
    requires parts != [] && parts[0].rows != []
  {
    AccSegment(count, after + 1, limit, OrNone(parts[0].rows[0].prevHash), lastHash, parts[0].minTs, parts[|parts| - 1].maxTs, parts)
  }

  lemma Sealed(g: CoreLinker, start: Position, rows: seq<CoreRecord>, size: nat, parts: seq<AccPart>, place: Position)
    requires rows != [] && start.seqNo.Some? && Streamed(g, start, rows, size, |rows|, parts, place)
    ensures Continues(g, start, rows) && place == Past(rows[|rows| - 1]) && PartsPacked(parts, size)
    ensures parts != [] && parts[0].rows != [] && parts[|parts| - 1].lastSeq == rows[|rows| - 1].seqNo
    ensures Describes(SegmentOf(|rows|, start.seqNo.value, rows[|rows| - 1].seqNo, rows[|rows| - 1].hash, parts), rows)
  {
    assert rows[..|rows|] == rows;
    PartsEnds(parts);
    ContinuesNumbers(g, start, rows);
  }

  function Fetch(rows: seq<CoreRecord>, at: nat, size: nat): (recs: seq<CoreRecord>)
    requires at < |rows| && size > 0
    ensures recs != [] && |recs| <= size && at + |recs| <= |rows| && recs == rows[at..at + |recs|]
    ensures at + |recs| < |rows| ==> |recs| == size
  {
    rows[at..if |rows| - at < size then |rows| else at + size]
  }

  predicate AllFull(parts: seq<AccPart>, size: nat) { forall i :: 0 <= i < |parts| ==> |parts[i].rows| == size }

  /** No part is larger than `size`, and all but the last are that large. */
  predicate PartsPacked(parts: seq<AccPart>, size: nat) {
    forall i :: 0 <= i < |parts| ==> |parts[i].rows| <= size && (i < |parts| - 1 ==> |parts[i].rows| == size)
  }

  /** Streams rows into parts, every one checked before its part is written. Any break, any
      failed write, or rows that do not end at the limit: nothing is archived. */
  method ArchiveRows(g: CoreLinker, anchor: Option<Cursor>, rows: seq<CoreRecord>, size: nat, limit: int, faults: Faults)
    returns (seg: Option<AccSegment>)
    requires rows != [] && size > 0
    ensures seg.Some? ==>
      && Continues(g, StartOf(anchor), rows) && rows[|rows| - 1].seqNo == limit
      && Describes(seg.value, rows) && PartsPacked(seg.value.parts, size)
      && !faults.manifest && forall k :: 0 < k <= |seg.value.parts| ==> !faults.part(k)
    ensures Continues(g, StartOf(anchor), rows) && rows[|rows| - 1].seqNo == limit && NoFault(faults) ==> seg.Some?
  {
    hide Streamed, Describes, BreakIn, Continues, Fetch, PartsPacked, AllFull;
    var start := StartOf(anchor);
    NothingStreamed(g, start, rows, size);
    var walker := new AccWalker(g, start.hash, start.seqNo.value, start.ts);
    var parts: seq<AccPart> := [];
    var at := 0;
    while at < |rows|
      invariant fresh(walker) && walker.g == g && walker.broken.None?
      invariant at <= |rows| && Streamed(g, start, rows, size, at, parts, walker.Place())
      invariant forall k :: 0 < k <= |parts| ==> !faults.part(k)
    {
      var recs := Fetch(rows, at, size);
      FetchStep(g, start, rows, size, at, parts, walker.Place(), recs);
      walker.Walk(recs);
      if walker.broken.Some? {
        RefusedFetch(g, start, rows, at + |recs|);
        return None;
      }
      if faults.part(|parts| + 1) {
        return None;
      }
      parts := parts + [PartOf(|parts| + 1, recs)];
      at := at + |recs|;
    }
    Sealed(g, start, rows, size, parts, walker.Place());
    if parts[|parts| - 1].lastSeq != limit || faults.manifest {
      return None;
    }
    return Some(SegmentOf(|rows|, start.seqNo.value, limit, walker.prev.value, parts));
  }

  // ---- the run ----

  datatype RunResult = Nothing | Failed | Planned(limit: int) | Committed(limit: int)

  /** One core chain and the catalog of its archive. */
  class AccDb {
    const g: CoreLinker
    var table: seq<CoreRecord>
    var segments: seq<AccSegment>

    ghost predicate Valid()
      reads this
    {
      Tiles(g, segments) && BySeq(table)
    }

    constructor (g: CoreLinker)
      ensures Valid() && this.g == g && table == [] && segments == []
    {
      this.g := g;
      table, segments := [], [];
    }
  }

  /** What a committed run did: rows anchor+1 to limit, one for each number, verified from
      the archive's last link, moved from the front of the table behind the archive. */
  ghost predicate Retired(g: CoreLinker, oldTable: seq<CoreRecord>, oldSegments: seq<AccSegment>, newTable: seq<CoreRecord>,
                          newSegments: seq<AccSegment>, limit: int)
  {
    var start := StartOf(AnchorOf(oldSegments));
    var n := limit - start.seqNo.value;
    && 0 < n <= |oldTable| && newTable == oldTable[n..]
    && |newSegments| == |oldSegments| + 1 && newSegments[..|oldSegments|] == oldSegments
    && Archived(newSegments) == Archived(oldSegments) + oldTable[..n]
    && Continues(g, start, oldTable[..n])
    && (forall i :: 0 <= i < n ==> oldTable[i].seqNo == start.seqNo.value + 1 + i)
    && (forall i :: n <= i < |oldTable| ==> oldTable[i].seqNo > limit)
    && AnchorOf(newSegments) == Some(Cursor(oldTable[n - 1].ts, limit, Some(oldTable[n - 1].hash)))
  }

  lemma IndexMore(segments: seq<AccSegment>, s: AccSegment, rows: seq<CoreRecord>)
    requires IndexSound(segments) && Describes(s, rows)
    ensures IndexSound(segments + [s]) && Archived(segments + [s]) == Archived(segments) + rows
  {
    var all := segments + [s];
    assert all[..|segments|] == segments;
    forall i | 0 <= i < |all| ensures Describes(all[i], RowsIn(all[i].parts)) {
      if i < |segments| {
        assert all[i] == segments[i];
      }
    }
  }

  lemma TilesExtend(g: CoreLinker, segments: seq<AccSegment>, s: AccSegment, rows: seq<CoreRecord>)
    requires Tiles(g, segments) && Describes(s, rows) && Continues(g, EndOf(ORIGIN, Archived(segments)), rows)
    ensures Tiles(g, segments + [s]) && Archived(segments + [s]) == Archived(segments) + rows
    ensures AnchorOf(segments + [s]) == Some(Cursor(rows[|rows| - 1].ts, rows[|rows| - 1].seqNo, Some(rows[|rows| - 1].hash)))
  {
    IndexMore(segments, s, rows);
    ContinuesConcat(g, ORIGIN, Archived(segments), rows);
    NewestIsLast(g, ORIGIN, segments + [s]);
  }

  lemma RetiredRows(g: CoreLinker, table: seq<CoreRecord>, segments: seq<AccSegment>, s: AccSegment, limit: int)
    requires Tiles(g, segments) && BySeq(table) && Upto(table, limit) != []
    requires Continues(g, StartOf(AnchorOf(segments)), Upto(table, limit)) && Describes(s, Upto(table, limit))
    requires Upto(table, limit)[|Upto(table, limit)| - 1].seqNo == limit
    ensures Tiles(g, segments + [s]) && BySeq(Above(table, limit))
    ensures Retired(g, table, segments, Above(table, limit), segments + [s], limit)
  {
    hide Describes, Continues, Upto, Above, IndexSound, BySeq;
    var rows := Upto(table, limit);
    UptoIsPrefix(table, limit);
    BySeqRest(table, |rows|);
    AnchorIsTheEnd(g, ORIGIN, segments);
    TilesExtend(g, segments, s, rows);
    NumberedFrom(g, StartOf(AnchorOf(segments)), rows);
    assert forall i :: 0 <= i < |rows| ==> rows[i] == table[i];
  }

  lemma BySeqRest(table: seq<CoreRecord>, n: nat)
    requires BySeq(table) && n <= |table|
    ensures BySeq(table[n..])
  {}

  lemma NumberedFrom(g: CoreLinker, p: Position, rows: seq<CoreRecord>)
    requires Continues(g, p, rows) && p.seqNo.Some?
    ensures forall i :: 0 <= i < |rows| ==> rows[i].seqNo == p.seqNo.value + 1 + i
  {
    ContinuesNumbers(g, p, rows);
  }

  /** Why a run may fail: something it writes fails, or its rows do not continue the archive
      up to the limit. */
  ghost predicate Refusable(g: CoreLinker, table: seq<CoreRecord>, segments: seq<AccSegment>, cutoff: int,
                            cursor: Option<CursorRow>, faults: Faults)
  {
    && MaxAged(table, cutoff).Some?
    && var limit := Limit(MaxAged(table, cutoff).value, cursor);
       var rows := Upto(table, limit);
       rows != [] && !(NoFault(faults) && Continues(g, StartOf(AnchorOf(segments)), rows) && rows[|rows| - 1].seqNo == limit)
  }

  /** No aged row, no row up to the limit, or none that is not archived already. */
  predicate NothingToDo(table: seq<CoreRecord>, segments: seq<AccSegment>, cutoff: int, cursor: Option<CursorRow>) {
    MaxAged(table, cutoff).None?
    || Upto(table, Limit(MaxAged(table, cutoff).value, cursor)) == []
    || Limit(MaxAged(table, cutoff).value, cursor) <= StartOf(AnchorOf(segments)).seqNo.value
  }

  /** Everything the run had to write was written, and the delete went through. */
  predicate Went(f: Faults, parts: nat) { !f.manifest && !f.delete && forall k :: 0 < k <= parts ==> !f.part(k) }

  /** Everything a run does before it changes the database. */
  method Prepare(g: CoreLinker, table: seq<CoreRecord>, segments: seq<AccSegment>, cursor: Option<CursorRow>, cutoff: int,
                 size: nat, dryRun: bool, faults: Faults)
    returns (res: RunResult, seg: Option<AccSegment>)
    requires size > 0
    ensures res.Nothing? <==> NothingToDo(table, segments, cutoff, cursor)
    ensures res.Planned? <==> dryRun && !NothingToDo(table, segments, cutoff, cursor)
    ensures res.Failed? ==> Refusable(g, table, segments, cutoff, cursor, faults)
    ensures res.Committed? ==>
      && MaxAged(table, cutoff).Some? && res.limit == Limit(MaxAged(table, cutoff).value, cursor)
      && res.limit > StartOf(AnchorOf(segments)).seqNo.value
      && seg.Some? && Upto(table, res.limit) != [] && Describes(seg.value, Upto(table, res.limit))
      && Continues(g, StartOf(AnchorOf(segments)), Upto(table, res.limit))
      && Upto(table, res.limit)[|Upto(table, res.limit)| - 1].seqNo == res.limit
      && PartsPacked(seg.value.parts, size) && Went(faults, |seg.value.parts|)
  {
    seg := None;
    var agedMax := MaxAged(table, cutoff);
    if agedMax.None? {
      return Nothing, None;
    }
    var limit := Limit(agedMax.value, cursor);
    var anchor := AnchorOf(segments);
    var after := if anchor.Some? then anchor.value.lastSeq else 0;
    var rows := Upto(table, limit);
    if rows == [] || limit <= after {
      return Nothing, None;
    }
    if dryRun {
      return Planned(limit), None;
    }
    seg := ArchiveRows(g, anchor, rows, size, limit, faults);
    if seg.None? || faults.delete {
      return Failed, None;
    }
    return Committed(limit), seg;
  }

  /** Archives and deletes a chain's aged prefix, capped at what the puller has copied.
      Everything or nothing: a commit means the rows from the anchor to the limit were all
      verified, archived in order and deleted; anything wrong leaves the chain as it was. */
  method RunScope(db: AccDb, cursor: Option<CursorRow>, cutoff: int, size: nat, dryRun: bool, faults: Faults) returns (res: RunResult)
    requires db.Valid() && size > 0
    modifies db
    ensures db.Valid()
    ensures !res.Committed? ==> db.table == old(db.table) && db.segments == old(db.segments)
    ensures res.Committed? ==>
      && Retired(db.g, old(db.table), old(db.segments), db.table, db.segments, res.limit)
      && res.limit <= CopiedUpTo(cursor) && cursor.Some? && cursor.value.halt.None?
      && MaxAged(old(db.table), cutoff).Some? && res.limit <= MaxAged(old(db.table), cutoff).value
    ensures res.Committed? ==>
      && (exists m :: GreatestAged(old(db.table), cutoff, m)
                      && res.limit == if cursor.value.cursor.lastSeq < m then cursor.value.cursor.lastSeq else m)
      && var n := |old(db.table)| - |db.table|;
         && 0 < n <= |old(db.table)|
         && (AllAged(old(db.table)[..n], cutoff) <==> old(db.table)[n - 1].ts < cutoff)
         && (TimesRise(old(db.table)) ==> AllAged(old(db.table)[..n], cutoff))
    ensures res.Committed? ==> db.segments != [] && PartsPacked(db.segments[|db.segments| - 1].parts, size)
                               && Went(faults, |db.segments[|db.segments| - 1].parts|)
    ensures NoneAged(old(db.table), cutoff) ==> res.Nothing?
    ensures res.Nothing? <==> Idle(old(db.table), |Archived(old(db.segments))|, cutoff, cursor)
    ensures Archived(db.segments) + db.table == Archived(old(db.segments)) + old(db.table)
    ensures res.Nothing? <==> NothingToDo(old(db.table), old(db.segments), cutoff, cursor)
    ensures res.Planned? <==> dryRun && !NothingToDo(old(db.table), old(db.segments), cutoff, cursor)
    ensures res.Failed? ==> Refusable(db.g, db.table, db.segments, cutoff, cursor, faults)
  {
    hide Upto, Above, MaxAged, Tiles, Describes, Continues, Refusable, AnchorOf, StartOf, NothingToDo, PartsPacked, Archived, BySeq;
    var seg;
    IdleIff(db.g, db.table, db.segments, cutoff, cursor);
    NoneAgedIsIdle(db.table, |Archived(db.segments)|, cutoff, cursor);
    res, seg := Prepare(db.g, db.table, db.segments, cursor, cutoff, size, dryRun, faults);
    if res.Committed? {
      MaxAgedMeans(db.table, cutoff);
      CopiedIsPositive(db.g, db.segments, res.limit);
      RetiredRows(db.g, db.table, db.segments, seg.value, res.limit);
      RetiredKeepsAll(db.g, db.table, db.segments, Above(db.table, res.limit), db.segments + [seg.value], res.limit);
      MovedAged(db.g, db.table, db.segments, Above(db.table, res.limit), db.segments + [seg.value], res.limit, cutoff);
      db.segments, db.table := db.segments + [seg.value], Above(db.table, res.limit);
    }
  }

  predicate AllAged(rows: seq<CoreRecord>, cutoff: int) { forall i :: 0 <= i < |rows| ==> rows[i].ts < cutoff }

  predicate TimesRise(rows: seq<CoreRecord>) { forall i, j :: 0 <= i < j < |rows| ==> rows[i].ts < rows[j].ts }

  /** The rows a run moves are all aged exactly when the last of them is; in a table whose times
      rise it always is. */
  lemma MovedAged(g: CoreLinker, oldTable: seq<CoreRecord>, oldSegments: seq<AccSegment>, newTable: seq<CoreRecord>,
                  newSegments: seq<AccSegment>, limit: int, cutoff: int)
    requires Retired(g, oldTable, oldSegments, newTable, newSegments, limit) && BySeq(oldTable)
    requires exists m :: GreatestAged(oldTable, cutoff, m) && limit <= m
    ensures var n := |oldTable| - |newTable|;
      && 0 < n <= |oldTable|
      && (AllAged(oldTable[..n], cutoff) <==> oldTable[n - 1].ts < cutoff)
      && (TimesRise(oldTable) ==> AllAged(oldTable[..n], cutoff))
  {
    hide Continues, Archived;
    var n := |oldTable| - |newTable|;
    var start := StartOf(AnchorOf(oldSegments));
    ContinuesNumbers(g, start, oldTable[..n]);
    assert oldTable[..n][n - 1] == oldTable[n - 1] && oldTable[n - 1].seqNo == limit;
    if TimesRise(oldTable) {
      var m :| GreatestAged(oldTable, cutoff, m) && limit <= m;
      var i :| 0 <= i < |oldTable| && oldTable[i].ts < cutoff && oldTable[i].seqNo == m;
      assert n - 1 <= i;
    }
  }

  /** There is nothing to do, from the rows alone: whatever the greatest aged number is, the
      lesser of it and what was copied is archived already or is below every row. */
  ghost predicate Idle(table: seq<CoreRecord>, archived: nat, cutoff: int, cursor: Option<CursorRow>) {
    forall m :: GreatestAged(table, cutoff, m) ==>
      var copied := if cursor.Some? && cursor.value.halt.None? then cursor.value.cursor.lastSeq else 0;
      var limit := if copied < m then copied else m;
      limit <= archived || forall i :: 0 <= i < |table| ==> table[i].seqNo > limit
  }

  lemma NoneAgedIsIdle(table: seq<CoreRecord>, archived: nat, cutoff: int, cursor: Option<CursorRow>)
    ensures NoneAged(table, cutoff) ==> Idle(table, archived, cutoff, cursor)
  {}

  lemma {:induction false} NoneUpto(table: seq<CoreRecord>, limit: int)
    ensures Upto(table, limit) == [] <==> forall i :: 0 <= i < |table| ==> table[i].seqNo > limit
  {
    if table != [] {
      var front := table[..|table| - 1];
      NoneUpto(front, limit);
      assert forall i :: 0 <= i < |front| ==> front[i] == table[i];
    }
  }

  lemma IdleIff(g: CoreLinker, table: seq<CoreRecord>, segments: seq<AccSegment>, cutoff: int, cursor: Option<CursorRow>)
    requires Tiles(g, segments)
    ensures NothingToDo(table, segments, cutoff, cursor) <==> Idle(table, |Archived(segments)|, cutoff, cursor)
  {
    hide Upto, MaxAged, Continues, Archived, GreatestAged, NoneAged;
    MaxAgedMeans(table, cutoff);
    AnchorIsTheEnd(g, ORIGIN, segments);
    LastNumber(g, ORIGIN, Archived(segments));
    var aged := MaxAged(table, cutoff);
    if aged.Some? {
      assert GreatestAged(table, cutoff, aged.value);
      NoneUpto(table, Limit(aged.value, cursor));
    }
  }

  lemma TwoRows(r1: CoreRecord, r2: CoreRecord, cutoff: int)
    requires r1.seqNo == 1 && r2.seqNo == 2 && r2.ts < cutoff <= r1.ts
    ensures var table := [r1, r2];
      && BySeq(table) && !TimesRise(table) && GreatestAged(table, cutoff, 2)
      && MaxAged(table, cutoff) == Some(2) && Upto(table, 1) == [r1]
  {
    var table := [r1, r2];
    assert table[0] == r1 && table[1] == r2 && table[..1] == [r1];
    UptoExtend([r1], r2, 1);
    UptoExtend([], r1, 1);
    assert [] + [r1] == [r1] && [r1] + [r2] == table && [r1] + [] == [r1];
    MaxAgedMeans(table, cutoff);
    assert GreatestAged(table, cutoff, 2);
  }

  /** Age is asked of the greatest aged row and not of the rows that move, and the rows between
      the two are not verified. If time does not rise there, a fresh row can move: two rows, the
      second with an old time, and a cursor at the first. Nothing refuses the run, and its limit
      is the fresh row. */
  lemma FreshRowBelowAged(g: CoreLinker, r1: CoreRecord, r2: CoreRecord, cutoff: int, cursor: CursorRow)
    requires Continues(g, ORIGIN, [r1]) && r2.seqNo == 2 && r2.ts < cutoff <= r1.ts
    requires cursor.halt.None? && cursor.cursor.lastSeq == 1
    ensures var table, none := [r1, r2], Faults(_ => false, false, false);
      && BySeq(table) && !TimesRise(table)
      && !NothingToDo(table, [], cutoff, Some(cursor)) && !Refusable(g, table, [], cutoff, Some(cursor), none)
      && GreatestAged(table, cutoff, 2) && Limit(2, Some(cursor)) == 1 && Upto(table, 1) == [r1] && !AllAged([r1], cutoff)
  {
    hide Continues, MaxAged, Upto, BySeq, TimesRise, GreatestAged;
    FirstNumber(g, r1);
    TwoRows(r1, r2, cutoff);
    assert [r1][0] == r1 && StartOf(AnchorOf([])) == ORIGIN;
  }

  lemma FirstNumber(g: CoreLinker, r1: CoreRecord)
    requires Continues(g, ORIGIN, [r1])
    ensures r1.seqNo == 1
  {
    ContinuesOne(g, ORIGIN, r1);
  }

  lemma RetiredKeepsAll(g: CoreLinker, oldTable: seq<CoreRecord>, oldSegments: seq<AccSegment>, newTable: seq<CoreRecord>,
                        newSegments: seq<AccSegment>, limit: int)
    requires Retired(g, oldTable, oldSegments, newTable, newSegments, limit)
    ensures Archived(newSegments) + newTable == Archived(oldSegments) + oldTable
  {
    var n := limit - StartOf(AnchorOf(oldSegments)).seqNo.value;
    assert oldTable == oldTable[..n] + oldTable[n..];
    Regrouped(Archived(oldSegments), oldTable[..n], oldTable[n..]);
  }

  lemma Regrouped(a: seq<CoreRecord>, b: seq<CoreRecord>, c: seq<CoreRecord>)
    ensures a + b + c == a + (b + c)
  {}

  /** The anchor is never negative, so a limit above it is a cursor that was read. */
  lemma CopiedIsPositive(g: CoreLinker, segments: seq<AccSegment>, limit: int)
    requires Tiles(g, segments) && limit > StartOf(AnchorOf(segments)).seqNo.value
    ensures limit > 0
  {
    AnchorIsTheEnd(g, ORIGIN, segments);
    LastNumber(g, ORIGIN, Archived(segments));
  }

  // ---- what a fresh puller then sees ----

  /** A start that knows less accepts as much. */
  lemma {:induction false} LooserStart(g: CoreLinker, p: Position, q: Position, recs: seq<CoreRecord>)
    requires q.hash == p.hash && (q.seqNo.None? || q.seqNo == p.seqNo) && (q.ts.None? || q.ts == p.ts)
    requires Continues(g, p, recs)
    ensures Continues(g, q, recs)
  {
    if recs != [] {
      LooserStart(g, p, q, recs[..|recs| - 1]);
    }
  }

  lemma SurvivorsContinue(g: CoreLinker, start: Position, table: seq<CoreRecord>, n: nat)
    requires 0 < n <= |table| && Continues(g, start, table)
    ensures Continues(g, Past(table[n - 1]), table[n..])
  {
    assert table == table[..n] + table[n..];
    ContinuesConcat(g, start, table[..n], table[n..]);
  }

  /** A reset puller resumes from the anchor, or from nothing, knowing no more than it says. */
  lemma ResetAccepts(g: CoreLinker, anchor: Option<Cursor>, recs: seq<CoreRecord>)
    requires anchor.Some? ==> anchor.value.lastSeq != 0
    requires Continues(g, StartOf(anchor), recs)
    ensures Continues(g, PosOf(StartFrom(FRESH, anchor)), recs)
  {
    LooserStart(g, StartOf(anchor), PosOf(StartFrom(FRESH, anchor)), recs);
  }

  /** After a run, a puller whose cursor was reset resumes from the anchor and accepts every
      row that is left, when the chain was whole before. */
  lemma ResumedPullerAccepts(g: CoreLinker, oldTable: seq<CoreRecord>, oldSegments: seq<AccSegment>, newTable: seq<CoreRecord>,
                             newSegments: seq<AccSegment>, limit: int)
    requires Tiles(g, oldSegments)
    requires Retired(g, oldTable, oldSegments, newTable, newSegments, limit)
    requires Continues(g, StartOf(AnchorOf(oldSegments)), oldTable)
    ensures Continues(g, StartOf(AnchorOf(newSegments)), newTable)
    ensures Continues(g, PosOf(StartFrom(FRESH, AnchorOf(newSegments))), newTable)
  {
    AnchorIsTheEnd(g, ORIGIN, oldSegments);
    LastNumber(g, ORIGIN, Archived(oldSegments));
    SurvivorsContinue(g, StartOf(AnchorOf(oldSegments)), oldTable, limit - StartOf(AnchorOf(oldSegments)).seqNo.value);
    ResetAccepts(g, AnchorOf(newSegments), newTable);
  }

  // ---- reading it back ----

  function PartsOf(segments: seq<AccSegment>): seq<AccPart> {
    if segments == [] then [] else PartsOf(segments[..|segments| - 1]) + segments[|segments| - 1].parts
  }

  lemma {:induction false} RowsInConcat(a: seq<AccPart>, b: seq<AccPart>)
    ensures RowsIn(a + b) == RowsIn(a) + RowsIn(b)
  {
    if b == [] {
      assert a + b == a;
    } else {
      assert (a + b)[..|a + b| - 1] == a + b[..|b| - 1];
      RowsInConcat(a, b[..|b| - 1]);
    }
  }

  lemma {:induction false} PartsHoldRows(segments: seq<AccSegment>)
    ensures RowsIn(PartsOf(segments)) == Archived(segments)
  {
    if segments != [] {
      PartsHoldRows(segments[..|segments| - 1]);
      RowsInConcat(PartsOf(segments[..|segments| - 1]), segments[|segments| - 1].parts);
    }
  }

  lemma {:induction false} FirstPart(segments: seq<AccSegment>)
    requires segments != [] && IndexSound(segments)
    ensures PartsOf(segments) != [] && Archived(segments) != []
    ensures PartsOf(segments)[0].firstSeq == Archived(segments)[0].seqNo
    ensures segments[0].firstPrev == OrNone(Archived(segments)[0].prevHash)
  {
    var front, last := segments[..|segments| - 1], segments[|segments| - 1];
    assert Describes(last, RowsIn(last.parts));
    PartsEnds(last.parts);
    if front != [] {
      FirstPart(front);
    }
  }

  /** The link the archive says it starts from. */
  function FirstLink(segments: seq<AccSegment>): Position
    requires PartsOf(segments) != [] && segments != []
  {
    Position(Some(PartsOf(segments)[0].firstSeq - 1), segments[0].firstPrev, None)
  }

  /** `ok` and the first finding of the archive, what was read of it, and the table's walk. */
  datatype VerifyResult = VerifyResult(ok: bool, brokenSeq: Option<int>, parts: nat, rows: nat, startsAtGenesis: Option<bool>,
                                       dbBroken: Option<FirstBreak>, dbChecked: nat)

  /** Which objects the store can give back as the catalog has them, and which segments'
      manifests can be read and list their parts. */
  datatype AccStore = AccStore(part: AccPart -> bool, manifest: nat -> bool)

  datatype AccEntry = AccEntry(segment: nat, part: AccPart)

  function EntriesOf(segments: seq<AccSegment>): seq<AccEntry> {
    if segments == [] then []
    else
      var no, s := |segments| - 1, segments[|segments| - 1];
      EntriesOf(segments[..no]) + seq(|s.parts|, i requires 0 <= i < |s.parts| => AccEntry(no, s.parts[i]))
  }

  function PartsIn(entries: seq<AccEntry>): seq<AccPart> {
    seq(|entries|, i requires 0 <= i < |entries| => entries[i].part)
  }

  lemma {:induction false} EntriesHoldParts(segments: seq<AccSegment>)
    ensures PartsIn(EntriesOf(segments)) == PartsOf(segments)
  {
    if segments != [] {
      EntriesHoldParts(segments[..|segments| - 1]);
    }
  }

  predicate HeaderAgrees(p: AccPart) {
    p.header == AccHeader(p.partNo, p.rowCount, p.firstSeq, p.lastSeq) && |p.rows| == p.rowCount
  }

  /** Nothing about the entry is a finding before its rows are walked. */
  predicate Fine(store: AccStore, e: AccEntry) {
    && store.manifest(e.segment) && store.part(e.part)
    && e.part.header == AccHeader(e.part.partNo, e.part.rowCount, e.part.firstSeq, e.part.lastSeq) && |e.part.rows| == e.part.rowCount
  }

  predicate AllFine(store: AccStore, entries: seq<AccEntry>) { forall i :: 0 <= i < |entries| ==> Fine(store, entries[i]) }

  function RowsAt(entries: seq<AccEntry>): seq<CoreRecord> { RowsIn(PartsIn(entries)) }

  /** The rows of the parts that can be read. */
  function ReadRows(store: AccStore, entries: seq<AccEntry>): seq<CoreRecord> {
    if entries == [] then []
    else ReadRows(store, entries[..|entries| - 1]) + if store.part(entries[|entries| - 1].part) then entries[|entries| - 1].part.rows else []
  }

  function CountRead(store: AccStore, entries: seq<AccEntry>): nat {
    if entries == [] then 0
    else CountRead(store, entries[..|entries| - 1]) + if store.part(entries[|entries| - 1].part) then 1 else 0
  }

  /** The first thing wrong: an entry that is not fine, by the first number it should hold, or
      a row that does not continue the ones before it. */
  function FirstFinding(g: CoreLinker, start: Position, store: AccStore, entries: seq<AccEntry>): Option<int> {
    if entries == [] then None
    else
      var front, last := entries[..|entries| - 1], entries[|entries| - 1];
      var earlier, b := FirstFinding(g, start, store, front), BreakIn(g, start, RowsAt(entries));
      if earlier.Some? then earlier
      else if !Fine(store, last) then Some(last.part.firstSeq)
      else if b.Some? then Some(b.value.seqNo) else None
  }

  lemma RowsAtMore(entries: seq<AccEntry>, e: AccEntry)
    ensures RowsAt(entries + [e]) == RowsAt(entries) + e.part.rows
  {
    var all := entries + [e];
    assert PartsIn(all)[..|entries|] == PartsIn(entries);
  }

  /** No finding: everything could be read, agrees with the catalog, and is one chain from its
      first link. With everything fine the finding is the first broken row of one walk. */
  lemma {:induction false} FindingMeans(g: CoreLinker, start: Position, store: AccStore, entries: seq<AccEntry>)
    ensures FirstFinding(g, start, store, entries).None? <==> AllFine(store, entries) && Continues(g, start, RowsAt(entries))
    ensures AllFine(store, entries) ==>
      FirstFinding(g, start, store, entries)
      == var b := BreakIn(g, start, RowsAt(entries)); if b.Some? then Some(b.value.seqNo) else None
  {
    BreakInMeaning(g, start, RowsAt(entries));
    if entries == [] {
      assert RowsAt(entries) == [];
    } else {
      var front, last := entries[..|entries| - 1], entries[|entries| - 1];
      assert front + [last] == entries;
      FindingMeans(g, start, store, front);
      RowsAtMore(front, last);
      BreakInConcat(g, start, RowsAt(front), last.part.rows);
      ContinuesConcat(g, start, RowsAt(front), last.part.rows);
      BreakInMeaning(g, start, RowsAt(front));
      assert AllFine(store, entries) <==> AllFine(store, front) && Fine(store, last) by {
        assert forall i :: 0 <= i < |front| ==> front[i] == entries[i];
      }
    }
  }

  /** As long as nothing was found the walker has walked everything, and has found nothing. */
  ghost predicate WalkedSo(g: CoreLinker, start: Position, store: AccStore, entries: seq<AccEntry>, found: Option<int>, place: Position,
                           broken: Option<FirstBreak>)
  {
    && found == FirstFinding(g, start, store, entries)
    && (found.None? ==> place == EndOf(start, RowsAt(entries)) && broken.None? && BreakIn(g, start, RowsAt(entries)).None?)
  }

  lemma WalkedMore(g: CoreLinker, start: Position, store: AccStore, entries: seq<AccEntry>, found: Option<int>, place: Position,
                   broken: Option<FirstBreak>, e: AccEntry, now: Option<int>, nowPlace: Position, nowBroken: Option<FirstBreak>)
    requires WalkedSo(g, start, store, entries, found, place, broken)
    requires found.Some? ==> now == found
    requires found.None? && !Fine(store, e) ==> now == Some(e.part.firstSeq)
    requires found.None? && Fine(store, e) ==>
      && nowPlace == EndOf(place, e.part.rows) && nowBroken == BreakIn(g, place, e.part.rows)
      && now == if nowBroken.Some? then Some(nowBroken.value.seqNo) else None
    ensures WalkedSo(g, start, store, entries + [e], now, nowPlace, nowBroken)
  {
    var all := entries + [e];
    assert all[..|entries|] == entries;
    RowsAtMore(entries, e);
    BreakInConcat(g, start, RowsAt(entries), e.part.rows);
    ContinuesConcat(g, start, RowsAt(entries), e.part.rows);
  }

  /** Reads one entry. What cannot be read or disagrees is a finding, not a stop, and only the
      first finding is kept. */
  method ReadEntry(walker: AccWalker, e: AccEntry, store: AccStore, found: Option<int>) returns (now: Option<int>)
    modifies walker
    ensures found.Some? ==> now == found
    ensures found.None? && !Fine(store, e) ==> now == Some(e.part.firstSeq)
    ensures store.part(e.part) ==>
      && walker.Place() == EndOf(old(walker.Place()), e.part.rows)
      && walker.broken == (if old(walker.broken).Some? then old(walker.broken) else BreakIn(walker.g, old(walker.Place()), e.part.rows))
    ensures !store.part(e.part) ==> walker.Place() == old(walker.Place()) && walker.broken == old(walker.broken)
    ensures found.None? && Fine(store, e) ==> now == if walker.broken.Some? then Some(walker.broken.value.seqNo) else None
  {
    now := found;
    if !store.manifest(e.segment) && now.None? {
      now := Some(e.part.firstSeq);
    }
    if !store.part(e.part) {
      return if now.None? then Some(e.part.firstSeq) else now;
    }
    if !HeaderAgrees(e.part) && now.None? {
      now := Some(e.part.firstSeq);
    }
    walker.Walk(e.part.rows);
    if walker.broken.Some? && now.None? {
      now := Some(walker.broken.value.seqNo);
    }
  }

  /** One walker over all entries. */
  method ReadEntries(g: CoreLinker, entries: seq<AccEntry>, first: Option<Hash>, store: AccStore)
    returns (found: Option<int>, parts: nat, rows: nat, prev: Option<Hash>)
    requires entries != []
    ensures var start := Position(Some(entries[0].part.firstSeq - 1), first, None);
      && found == FirstFinding(g, start, store, entries)
      && (found.None? ==> prev == EndOf(start, RowsAt(entries)).hash)
    ensures parts == CountRead(store, entries) && rows == |ReadRows(store, entries)|
  {
    ghost var start := Position(Some(entries[0].part.firstSeq - 1), first, None);
    var walker := new AccWalker(g, first, entries[0].part.firstSeq - 1, None);
    found, parts, rows := None, 0, 0;
    var i := 0;
    assert entries[..0] == [] && RowsAt([]) == [];
    while i < |entries|
      invariant i <= |entries| && fresh(walker) && walker.g == g
      invariant WalkedSo(g, start, store, entries[..i], found, walker.Place(), walker.broken)
      invariant parts == CountRead(store, entries[..i]) && rows == |ReadRows(store, entries[..i])|
    {
      assert entries[..i + 1] == entries[..i] + [entries[i]] && entries[..i + 1][..i] == entries[..i];
      ghost var was, place, broken := found, walker.Place(), walker.broken;
      found := ReadEntry(walker, entries[i], store, found);
      WalkedMore(g, start, store, entries[..i], was, place, broken, entries[i], found, walker.Place(), walker.broken);
      if store.part(entries[i].part) {
        parts, rows := parts + 1, rows + |entries[i].part.rows|;
      }
      i := i + 1;
    }
    assert entries[..i] == entries;
    prev := walker.prev;
  }

  /** What the report on the archive finds first, if anything. */
  function ArchiveFinding(g: CoreLinker, segments: seq<AccSegment>, store: AccStore): Option<int>
    requires segments != [] && PartsOf(segments) != [] && Archived(segments) != [] && AnchorOf(segments).Some?
  {
    var found, anchor := FirstFinding(g, FirstLink(segments), store, EntriesOf(segments)), AnchorOf(segments).value;
    if found.None? && Some(Archived(segments)[|Archived(segments)| - 1].hash) != anchor.lastHash then Some(anchor.lastSeq) else found
  }

  /** Walks the archive part by part, compares its end with the anchor, and walks the table
      from the anchor's hash and number (but not its time). */
  method VerifyAccArchive(g: CoreLinker, segments: seq<AccSegment>, table: seq<CoreRecord>, store: AccStore)
    returns (res: VerifyResult)
    requires IndexSound(segments)
    ensures res.ok <==> res.brokenSeq.None?
    ensures segments == [] ==> res.ok && res.startsAtGenesis.None?
    ensures segments != [] ==> PartsOf(segments) != [] && Archived(segments) != [] && AnchorOf(segments).Some?
    ensures segments != [] ==> res.brokenSeq == ArchiveFinding(g, segments, store)
    ensures segments != [] && AllFine(store, EntriesOf(segments)) ==>
      && (res.ok <==> Continues(g, FirstLink(segments), Archived(segments))
                      && Some(Archived(segments)[|Archived(segments)| - 1].hash) == AnchorOf(segments).value.lastHash)
    ensures res.ok ==> AllFine(store, EntriesOf(segments))
    ensures res.parts == CountRead(store, EntriesOf(segments)) && res.rows == |ReadRows(store, EntriesOf(segments))|
    ensures segments != [] ==>
      res.startsAtGenesis == Some(OrNone(Archived(segments)[0].prevHash).None? && Archived(segments)[0].seqNo == 1)
    ensures res.dbBroken == BreakIn(g, StartOf(AnchorOf(segments)).(ts := None), table)
    ensures res.dbBroken.None? <==> Continues(g, StartOf(AnchorOf(segments)).(ts := None), table)
    ensures res.dbChecked == |table|
  {
    var entries, anchor := EntriesOf(segments), AnchorOf(segments);
    var found: Option<int>, parts, rows, genesis: Option<bool> := None, 0, 0, None;
    if segments != [] {
      FirstPart(segments);
      PartsHoldRows(segments);
      EntriesHoldParts(segments);
      NewestExists(segments);
      FindingMeans(g, FirstLink(segments), store, entries);
      assert PartsIn(entries)[0] == entries[0].part;
      genesis := Some(segments[0].firstPrev.None? && entries[0].part.firstSeq == 1);
      var prev;
      found, parts, rows, prev := ReadEntries(g, entries, segments[0].firstPrev, store);
      if found.None? && anchor.Some? && prev != anchor.value.lastHash {
        found := Some(anchor.value.lastSeq);
      }
    }
    var db := new AccWalker(g, if anchor.Some? then anchor.value.lastHash else None,
                            if anchor.Some? then anchor.value.lastSeq else 0, None);
    db.Walk(table);
    BreakInMeaning(g, StartOf(anchor).(ts := None), table);
    res := VerifyResult(found.None?, found, parts, rows, genesis, db.broken, |table|);
  }

  lemma NewestExists(segments: seq<AccSegment>)
    requires segments != []
    ensures Newest(segments).Some?
  {}

  /** Without the time of the last record before them, records are checked for everything
      but that the first of them is later. */
  lemma {:induction false} TimeAtTheBoundary(g: CoreLinker, p: Position, recs: seq<CoreRecord>)
    ensures Continues(g, p, recs)
            <==> Continues(g, p.(ts := None), recs) && (recs == [] || p.ts.None? || p.ts.value < recs[0].ts)
  {
    if |recs| == 1 {
      assert recs == [recs[0]];
      ContinuesOne(g, p, recs[0]);
      ContinuesOne(g, p.(ts := None), recs[0]);
    } else if recs != [] {
      TimeAtTheBoundary(g, p, recs[..|recs| - 1]);
    }
  }

  lemma GenesisLink(g: CoreLinker, segments: seq<AccSegment>)
    requires IndexSound(segments) && segments != []
    ensures PartsOf(segments) != [] && Archived(segments) != []
    ensures FirstLink(segments) == ORIGIN <==> OrNone(Archived(segments)[0].prevHash).None? && Archived(segments)[0].seqNo == 1
    ensures Continues(g, ORIGIN, Archived(segments)) ==> FirstLink(segments) == ORIGIN
  {
    FirstPart(segments);
    if Continues(g, ORIGIN, Archived(segments)) {
      ContinuesAt(g, ORIGIN, Archived(segments), 0);
    }
  }

  /** The archive on its own: whole from record 1 exactly when the report on it is clean and
      it starts at genesis. */
  lemma CleanArchive(g: CoreLinker, segments: seq<AccSegment>)
    requires IndexSound(segments) && segments != []
    ensures PartsOf(segments) != [] && Archived(segments) != [] && AnchorOf(segments).Some?
    ensures Continues(g, ORIGIN, Archived(segments)) <==>
      && Continues(g, FirstLink(segments), Archived(segments))
      && Some(Archived(segments)[|Archived(segments)| - 1].hash) == AnchorOf(segments).value.lastHash
      && OrNone(Archived(segments)[0].prevHash).None? && Archived(segments)[0].seqNo == 1
    ensures Continues(g, ORIGIN, Archived(segments)) ==> StartOf(AnchorOf(segments)) == EndOf(ORIGIN, Archived(segments))
  {
    GenesisLink(g, segments);
    NewestExists(segments);
    if Continues(g, ORIGIN, Archived(segments)) {
      AnchorIsTheEnd(g, ORIGIN, segments);
    }
  }

  lemma {:induction false} BreakAtTheBoundary(g: CoreLinker, p: Position, recs: seq<CoreRecord>)
    ensures var one, other := BreakIn(g, p, recs), BreakIn(g, p.(ts := None), recs);
      if recs != [] && p.ts.Some? && recs[0].ts <= p.ts.value then one.Some? && one.value.seqNo == recs[0].seqNo
      else one == other
  {
    if recs != [] {
      var front, last := recs[..|recs| - 1], recs[|recs| - 1];
      BreakAtTheBoundary(g, p, front);
      if front == [] {
        assert recs[0] == last;
      }
    }
  }

  /** The two reports together and one walk of the undivided chain, for an archive that is
      fine to read: if the archive's walk breaks, both name its first broken record; if the
      first row of the table is not later than the last archived one, the one walk names that
      row, whatever the table's report says; otherwise the table's report is the one walk's. */
  lemma ReportsAreOneWalk(g: CoreLinker, segments: seq<AccSegment>, table: seq<CoreRecord>, store: AccStore)
    requires IndexSound(segments) && segments != [] && AllFine(store, EntriesOf(segments))
    ensures PartsOf(segments) != [] && Archived(segments) != [] && AnchorOf(segments).Some?
    ensures var archived := Archived(segments);
      var one, db := BreakIn(g, FirstLink(segments), archived + table), BreakIn(g, StartOf(AnchorOf(segments)).(ts := None), table);
      var found, last := FirstFinding(g, FirstLink(segments), store, EntriesOf(segments)), archived[|archived| - 1];
      && (found.Some? ==> ArchiveFinding(g, segments, store) == found && one.Some? && Some(one.value.seqNo) == found)
      && (found.None? ==>
            if table != [] && table[0].ts <= last.ts then one.Some? && one.value.seqNo == table[0].seqNo
            else one == db)
  {
    hide ArchiveFinding;
    ReportParts(g, segments, store);
    var archived := Archived(segments);
    var last := archived[|archived| - 1];
    BreakInConcat(g, FirstLink(segments), archived, table);
    BreakAtTheBoundary(g, Past(last), table);
    FoundStays(g, segments, store);
    BreakInMeaning(g, FirstLink(segments), archived);
    if BreakIn(g, FirstLink(segments), archived).None? {
      AnchorIsTheEnd(g, FirstLink(segments), segments);
    }
  }

  lemma FoundStays(g: CoreLinker, segments: seq<AccSegment>, store: AccStore)
    requires segments != [] && PartsOf(segments) != [] && Archived(segments) != [] && AnchorOf(segments).Some?
    ensures FirstFinding(g, FirstLink(segments), store, EntriesOf(segments)).Some? ==>
      ArchiveFinding(g, segments, store) == FirstFinding(g, FirstLink(segments), store, EntriesOf(segments))
  {}

  lemma ReportParts(g: CoreLinker, segments: seq<AccSegment>, store: AccStore)
    requires IndexSound(segments) && segments != [] && AllFine(store, EntriesOf(segments))
    ensures PartsOf(segments) != [] && Archived(segments) != [] && AnchorOf(segments).Some?
    ensures FirstFinding(g, FirstLink(segments), store, EntriesOf(segments))
         == var b := BreakIn(g, FirstLink(segments), Archived(segments)); if b.Some? then Some(b.value.seqNo) else None
  {
    FirstPart(segments);
    PartsHoldRows(segments);
    EntriesHoldParts(segments);
    NewestExists(segments);
    FindingMeans(g, FirstLink(segments), store, EntriesOf(segments));
  }

  /** What a clean report proves, and the one check it leaves out: the archive and the table
      are one whole chain from record 1 if and only if the report is clean, it starts at
      genesis, and the first row of the table is later than the last archived row. */
  lemma CleanReportMeaning(g: CoreLinker, segments: seq<AccSegment>, table: seq<CoreRecord>)
    requires IndexSound(segments) && segments != []
    ensures PartsOf(segments) != [] && Archived(segments) != [] && AnchorOf(segments).Some?
    ensures var archived, anchor := Archived(segments), AnchorOf(segments).value;
      Continues(g, ORIGIN, archived + table) <==>
        && Continues(g, FirstLink(segments), archived) && Some(archived[|archived| - 1].hash) == anchor.lastHash
        && OrNone(archived[0].prevHash).None? && archived[0].seqNo == 1
        && Continues(g, StartOf(AnchorOf(segments)).(ts := None), table)
        && (table == [] || archived[|archived| - 1].ts < table[0].ts)
  {
    CleanArchive(g, segments);
    ContinuesConcat(g, ORIGIN, Archived(segments), table);
    if Continues(g, ORIGIN, Archived(segments)) {
      TimeAtTheBoundary(g, StartOf(AnchorOf(segments)), table);
    }
  }
}
