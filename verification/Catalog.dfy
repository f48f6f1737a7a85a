/** The archive's catalog: where a chain continues from, and every archived part. */
module Catalog {
  import opened Common
  import opened Chain
  import opened Hashing

  /** A stored object: a header and the rows it says it holds. */
  datatype PartObject = PartObject(partNo: nat, rowCount: nat, firstSeq: int, lastSeq: int, rows: seq<Row>)

  /** A part as indexed, with the object its key names. */
  datatype Part = Part(partNo: nat, rowCount: nat, firstSeq: int, lastSeq: int, minTs: int, maxTs: int,
                       stored: PartObject)

  datatype Segment = Segment(rowCount: nat, firstSeq: int, lastSeq: int, firstPrev: Option<Hash>,
                             lastHash: Option<Hash>, minTs: int, maxTs: int, chainOk: bool, parts: seq<Part>)

  function Ts(r: Row): int { Epoch(r.content.ts) }

  function MinTs(rows: seq<Row>): int
    requires rows != []
  {
    if |rows| == 1 then Ts(rows[0])
    else var m := MinTs(rows[..|rows| - 1]); var t := Ts(rows[|rows| - 1]); if t < m then t else m
  }

  function MaxTs(rows: seq<Row>): int
    requires rows != []
  {
    if |rows| == 1 then Ts(rows[0])
    else var m := MaxTs(rows[..|rows| - 1]); var t := Ts(rows[|rows| - 1]); if t > m then t else m
  }

  lemma {:induction false} TsBounds(rows: seq<Row>)
    requires rows != []
    ensures forall i :: 0 <= i < |rows| ==> MinTs(rows) <= Ts(rows[i]) <= MaxTs(rows)
    ensures exists i :: 0 <= i < |rows| && Ts(rows[i]) == MinTs(rows)
    ensures exists i :: 0 <= i < |rows| && Ts(rows[i]) == MaxTs(rows)
  {
    var last := |rows| - 1;
    if |rows| == 1 {
      assert Ts(rows[0]) == MinTs(rows) == MaxTs(rows);
    } else {
      var front := rows[..last];
      TsBounds(front);
      assert forall i :: 0 <= i < last ==> front[i] == rows[i];
      var lo :| 0 <= lo < last && Ts(front[lo]) == MinTs(front);
      var hi :| 0 <= hi < last && Ts(front[hi]) == MaxTs(front);
      assert Ts(rows[lo]) == MinTs(rows) || Ts(rows[last]) == MinTs(rows);
      assert Ts(rows[hi]) == MaxTs(rows) || Ts(rows[last]) == MaxTs(rows);
    }
  }

  lemma {:induction false} TsBoundsConcat(a: seq<Row>, b: seq<Row>)
    requires a != [] && b != []
    ensures MinTs(a + b) == if MinTs(b) < MinTs(a) then MinTs(b) else MinTs(a)
    ensures MaxTs(a + b) == if MaxTs(b) > MaxTs(a) then MaxTs(b) else MaxTs(a)
  {
    assert (a + b)[..|a + b| - 1] == a + b[..|b| - 1];
    if |b| == 1 {
      assert a + b[..0] == a;
    } else {
      TsBoundsConcat(a, b[..|b| - 1]);
    }
  }

  function RowsOf(parts: seq<Part>): seq<Row> {
    if parts == [] then [] else RowsOf(parts[..|parts| - 1]) + parts[|parts| - 1].stored.rows
  }

  function PartsOf(segments: seq<Segment>): seq<Part> {
    if segments == [] then [] else PartsOf(segments[..|segments| - 1]) + segments[|segments| - 1].parts
  }

  /** Every archived row, in the order it was archived. */
  function Archived(segments: seq<Segment>): seq<Row> { RowsOf(PartsOf(segments)) }

  /** The index of a part agrees with the object it names. */
  predicate Indexed(p: Part) {
    var rows := p.stored.rows;
    && rows != []
    && p.stored == PartObject(p.partNo, p.rowCount, p.firstSeq, p.lastSeq, rows)
    && p.rowCount == |rows|
    && p.firstSeq == rows[0].seqNo && p.lastSeq == rows[|rows| - 1].seqNo
    && p.minTs == MinTs(rows) && p.maxTs == MaxTs(rows)
  }

  predicate AllIndexed(parts: seq<Part>) { forall i :: 0 <= i < |parts| ==> Indexed(parts[i]) }

  /** A segment's summary agrees with its parts. */
  predicate WellFormed(s: Segment) {
    && s.parts != [] && AllIndexed(s.parts)
    && var rows := RowsOf(s.parts);
       && rows != []
       && s.rowCount == |rows|
       && s.firstSeq == rows[0].seqNo && s.lastSeq == rows[|rows| - 1].seqNo
       && s.firstPrev == rows[0].prevHash && s.lastHash == Some(rows[|rows| - 1].rowHash)
       && s.minTs == MinTs(rows) && s.maxTs == MaxTs(rows)
  }

  predicate AllWellFormed(segments: seq<Segment>) { forall i :: 0 <= i < |segments| ==> WellFormed(segments[i]) }

  /** The catalog of a chain: sound entries, recorded in `seq` order without overlap. */
  predicate Tiles(segments: seq<Segment>) {
    AllWellFormed(segments) && Ascending(None, Archived(segments))
  }

  lemma {:induction false} RowsOfConcat(a: seq<Part>, b: seq<Part>)
    ensures RowsOf(a + b) == RowsOf(a) + RowsOf(b)
  {
    if b == [] {
      assert a + b == a;
    } else {
      assert (a + b)[..|a + b| - 1] == a + b[..|b| - 1];
      RowsOfConcat(a, b[..|b| - 1]);
    }
  }

  lemma ArchivedExtend(segments: seq<Segment>, s: Segment)
    ensures PartsOf(segments + [s]) == PartsOf(segments) + s.parts
    ensures Archived(segments + [s]) == Archived(segments) + RowsOf(s.parts)
  {
    assert (segments + [s])[..|segments|] == segments;
    RowsOfConcat(PartsOf(segments), s.parts);
  }

  lemma {:induction false} PartsIndexed(segments: seq<Segment>)
    requires AllWellFormed(segments)
    ensures AllIndexed(PartsOf(segments))
  {
    if segments != [] {
      PartsIndexed(segments[..|segments| - 1]);
    }
  }

  /** The newest archived link: the entry with the largest last sequence number. */
  function NewestSegment(segments: seq<Segment>): Option<Segment> {
    if segments == [] then None
    else
      var best, last := NewestSegment(segments[..|segments| - 1]), segments[|segments| - 1];
      if best.Some? && best.value.lastSeq >= last.lastSeq then best else Some(last)
  }

  function AnchorOf(segments: seq<Segment>): Option<Anchor> {
    var s := NewestSegment(segments);
    if s.Some? then Some(Anchor(s.value.lastSeq, s.value.lastHash)) else None
  }

  lemma ArchivedSplit(segments: seq<Segment>)
    requires segments != []
    ensures Archived(segments) == Archived(segments[..|segments| - 1]) + RowsOf(segments[|segments| - 1].parts)
  {
    assert segments == segments[..|segments| - 1] + [segments[|segments| - 1]];
    ArchivedExtend(segments[..|segments| - 1], segments[|segments| - 1]);
  }

  lemma TilesFront(segments: seq<Segment>)
    requires segments != [] && Tiles(segments)
    ensures Tiles(segments[..|segments| - 1])
    ensures Ascending(LastSeq(None, Archived(segments[..|segments| - 1])), RowsOf(segments[|segments| - 1].parts))
  {
    ArchivedSplit(segments);
    AscendingConcat(None, Archived(segments[..|segments| - 1]), RowsOf(segments[|segments| - 1].parts));
  }

  /** The anchor is the last archived row, whatever order the entries are looked at in. */
  lemma {:induction false} AnchorIsLastArchived(segments: seq<Segment>)
    requires Tiles(segments)
    ensures segments == [] <==> Archived(segments) == []
    ensures AnchorOf(segments)
         == if segments == [] then None
            else Some(Anchor(LastSeq(None, Archived(segments)).value, HeadHash(None, Archived(segments))))
    ensures segments != [] ==> NewestSegment(segments) == Some(segments[|segments| - 1])
  {
    if segments != [] {
      var front, last := segments[..|segments| - 1], segments[|segments| - 1];
      TilesFront(segments);
      ArchivedSplit(segments);
      AnchorIsLastArchived(front);
      AscendingPairwise(LastSeq(None, Archived(front)), RowsOf(last.parts));
      var a, b := Archived(front), RowsOf(last.parts);
      assert (a + b)[|a + b| - 1] == b[|b| - 1];
    }
  }

  // ---- parts in order, optionally only those that overlap a time range ----

  function InsertPart(p: Part, sorted: seq<Part>): seq<Part> {
    if sorted == [] || p.firstSeq <= sorted[0].firstSeq then [p] + sorted
    else [sorted[0]] + InsertPart(p, sorted[1..])
  }

  function SortParts(parts: seq<Part>): seq<Part> {
    if parts == [] then [] else InsertPart(parts[0], SortParts(parts[1..]))
  }

  predicate Overlaps(p: Part, from: Option<int>, to: Option<int>) {
    && (from.Some? ==> p.maxTs >= from.value)
    && (to.Some? ==> p.minTs < to.value)
  }

  function Overlapping(parts: seq<Part>, from: Option<int>, to: Option<int>): seq<Part> {
    if parts == [] then []
    else (if Overlaps(parts[0], from, to) then [parts[0]] else []) + Overlapping(parts[1..], from, to)
  }

  function PartsInOrder(segments: seq<Segment>, from: Option<int>, to: Option<int>): seq<Part> {
    SortParts(Overlapping(PartsOf(segments), from, to))
  }

  predicate PartsAscend(parts: seq<Part>) {
    forall i, j :: 0 <= i < j < |parts| ==> parts[i].firstSeq < parts[j].firstSeq
  }

  lemma {:induction false} SortKeepsAscending(parts: seq<Part>)
    requires PartsAscend(parts)
    ensures SortParts(parts) == parts
  {
    if parts != [] {
      SortKeepsAscending(parts[1..]);
      assert |parts| > 1 ==> parts[0].firstSeq < parts[1].firstSeq;
      assert parts == [parts[0]] + parts[1..];
    }
  }

  lemma {:induction false} OverlappingAscend(parts: seq<Part>, from: Option<int>, to: Option<int>)
    requires PartsAscend(parts)
    ensures PartsAscend(Overlapping(parts, from, to))
    ensures forall p :: p in Overlapping(parts, from, to) ==> p in parts
  {
    if parts != [] {
      hide Overlaps;
      var rest := Overlapping(parts[1..], from, to);
      assert parts == [parts[0]] + parts[1..];
      OverlappingAscend(parts[1..], from, to);
      FirstBelow(parts, rest);
      if Overlaps(parts[0], from, to) {
        assert Overlapping(parts, from, to) == [parts[0]] + rest;
      } else {
        assert Overlapping(parts, from, to) == rest;
      }
    }
  }

  lemma FirstBelow(parts: seq<Part>, rest: seq<Part>)
    requires parts != [] && PartsAscend(parts) && PartsAscend(rest)
    requires forall p :: p in rest ==> p in parts[1..]
    ensures PartsAscend([parts[0]] + rest)
  {
    forall i | 0 <= i < |rest| ensures parts[0].firstSeq < rest[i].firstSeq {
      assert rest[i] in parts[1..];
      var j :| 0 <= j < |parts[1..]| && parts[1..][j] == rest[i];
      assert parts[j + 1] == rest[i];
    }
  }

  /** Parts tile the archive: in the order recorded, their first rows ascend. */
  lemma {:induction false} PartsOfAscendingRows(parts: seq<Part>)
    requires AllIndexed(parts) && Ascending(None, RowsOf(parts))
    ensures PartsAscend(parts)
  {
    if parts != [] {
      var front, last := parts[..|parts| - 1], parts[|parts| - 1];
      AscendingConcat(None, RowsOf(front), last.stored.rows);
      PartsOfAscendingRows(front);
      AscendingPairwise(LastSeq(None, RowsOf(front)), last.stored.rows);
      forall i | 0 <= i < |front| ensures front[i].firstSeq < last.firstSeq {
        PartFirstRow(front, i);
        AscendingPairwise(None, RowsOf(front));
      }
    }
  }

  lemma {:induction false} PartFirstRow(parts: seq<Part>, i: nat)
    requires i < |parts| && AllIndexed(parts)
    ensures exists j :: 0 <= j < |RowsOf(parts)| && RowsOf(parts)[j].seqNo == parts[i].firstSeq
    decreases |parts|
  {
    var front, last := parts[..|parts| - 1], parts[|parts| - 1];
    var all := RowsOf(parts);
    if i == |parts| - 1 {
      assert all[|RowsOf(front)|] == last.stored.rows[0];
    } else {
      PartFirstRow(front, i);
      var j :| 0 <= j < |RowsOf(front)| && RowsOf(front)[j].seqNo == front[i].firstSeq;
      assert all[j] == RowsOf(front)[j];
    }
  }

  /** Reading the index in order gives the parts as they were written. */
  lemma PartsInOrderAsWritten(segments: seq<Segment>, from: Option<int>, to: Option<int>)
    requires Tiles(segments)
    ensures PartsInOrder(segments, from, to) == Overlapping(PartsOf(segments), from, to)
  {
    PartsIndexed(segments);
    PartsOfAscendingRows(PartsOf(segments));
    OverlappingAscend(PartsOf(segments), from, to);
    SortKeepsAscending(Overlapping(PartsOf(segments), from, to));
  }
}
