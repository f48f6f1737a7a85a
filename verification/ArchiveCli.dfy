/** Reading the archive back: an end-to-end walk, and an export by time range. */
module ArchiveCli {
  import opened Common
  import opened Hashing
  import opened Chain
  import opened Catalog

  /** The archive store as its readers see it: a part's object and a segment's manifest
      are either returned as they were put, or cannot be read. */
  datatype Store = Store(part: Part -> bool, manifest: nat -> bool)

  datatype ArchiveResult = ArchiveResult(ok: bool, parts: nat, rows: nat, brokenSeq: Option<int>,
                                         startsAtGenesis: Option<bool>, db: ChainResult)

  /** A part in the index, with the segment it belongs to. */
  datatype Entry = Entry(segment: nat, firstPrev: Option<Hash>, part: Part)

  function EntriesOf(segments: seq<Segment>): seq<Entry> {
    if segments == [] then []
    else
      var no, s := |segments| - 1, segments[|segments| - 1];
      EntriesOf(segments[..no]) + seq(|s.parts|, i requires 0 <= i < |s.parts| => Entry(no, s.firstPrev, s.parts[i]))
  }

  function PartsIn(entries: seq<Entry>): seq<Part> {
    seq(|entries|, i requires 0 <= i < |entries| => entries[i].part)
  }

  lemma {:induction false} EntriesHoldParts(segments: seq<Segment>)
    ensures PartsIn(EntriesOf(segments)) == PartsOf(segments)
  {
    if segments != [] {
      EntriesHoldParts(segments[..|segments| - 1]);
    }
  }

  /** Where the archive's walk starts. */
  function StartOf(entries: seq<Entry>): Option<Hash> {
    if entries == [] then None else entries[0].firstPrev
  }

  /** Everything the verifier needs can be read. */
  ghost predicate Readable(store: Store, entries: seq<Entry>) {
    forall i :: 0 <= i < |entries| ==> store.part(entries[i].part) && store.manifest(entries[i].segment)
  }

  predicate HeaderAgrees(p: Part) {
    && p.stored.partNo == p.partNo && p.stored.rowCount == p.rowCount && |p.stored.rows| == p.rowCount
    && p.stored.firstSeq == p.firstSeq && p.stored.lastSeq == p.lastSeq
  }

  lemma IndexedHeaderAgrees(parts: seq<Part>, i: nat)
    requires AllIndexed(parts) && i < |parts|
    ensures HeaderAgrees(parts[i])
  {}

  /** The link the archive's first row carries. */
  function FirstPrev(segments: seq<Segment>): Option<Hash> {
    if segments == [] then None else segments[0].firstPrev
  }

  /** What the archive walk has found once all of `rows` were read: no fault, or the first
      broken row. */
  ghost predicate FoundSoFar(h: Linker, start: Option<Hash>, rows: seq<Row>, ok: bool, brokenSeq: Option<int>) {
    var b := WalkRows(h, StartWalk(start, None), rows).broken;
    && (ok <==> b.None?)
    && (b.Some? ==> brokenSeq == Some(b.value.seqNo))
  }

  /** The running result; only the first finding is kept. */
  datatype Reading = Reading(ok: bool, brokenSeq: Option<int>, parts: nat, rows: nat)

  function Finding(r: Reading, seqNo: int): Reading {
    if r.ok then r.(ok := false, brokenSeq := Some(seqNo)) else r
  }

  /** The manifest and the object can be read, and the object's header says what the index
      says. */
  predicate Fine(store: Store, e: Entry) {
    && store.manifest(e.segment) && store.part(e.part)
    && e.part.stored.partNo == e.part.partNo && e.part.stored.rowCount == e.part.rowCount == |e.part.stored.rows|
    && e.part.stored.firstSeq == e.part.firstSeq && e.part.stored.lastSeq == e.part.lastSeq
  }

  /** The first thing wrong: an entry that is not fine, by the first number it should hold, or
      the first broken row of one walk. */
  function FirstFinding(h: Linker, start: Option<Hash>, store: Store, entries: seq<Entry>): Option<int> {
    if entries == [] then None
    else
      var front, last := entries[..|entries| - 1], entries[|entries| - 1];
      var earlier, b := FirstFinding(h, start, store, front), WalkRows(h, StartWalk(start, None), RowsOf(PartsIn(entries))).broken;
      if earlier.Some? then earlier
      else if !Fine(store, last) then Some(last.part.firstSeq)
      else if b.Some? then Some(b.value.seqNo) else None
  }

  /** How many parts, and how many rows, can be read. */
  function CountRead(store: Store, entries: seq<Entry>): nat {
    if entries == [] then 0
    else CountRead(store, entries[..|entries| - 1]) + if store.part(entries[|entries| - 1].part) then 1 else 0
  }

  function RowsRead(store: Store, entries: seq<Entry>): nat {
    if entries == [] then 0
    else RowsRead(store, entries[..|entries| - 1])
         + if store.part(entries[|entries| - 1].part) then |entries[|entries| - 1].part.stored.rows| else 0
  }

  /** The findings so far are the first finding, and as long as there is none the walk is one
      walk of everything. */
  ghost predicate Noted(h: Linker, start: Option<Hash>, entries: seq<Entry>, i: nat, store: Store, w: Walk, r: Reading)
    requires i <= |entries|
  {
    var found := FirstFinding(h, start, store, entries[..i]);
    && (r.ok <==> found.None?) && (!r.ok ==> r.brokenSeq == found)
    && (r.ok ==> w == WalkRows(h, StartWalk(start, None), RowsOf(PartsIn(entries[..i]))) && w.broken.None?)
    && r.parts == CountRead(store, entries[..i]) && r.rows == RowsRead(store, entries[..i])
  }

  lemma NotedStep(h: Linker, start: Option<Hash>, entries: seq<Entry>, i: nat, store: Store, w: Walk, r: Reading, w': Walk, now: Reading)
    requires i < |entries| && Noted(h, start, entries, i, store, w, r)
    requires var e := entries[i];
      && (store.part(e.part) ==> w' == WalkRows(h, w, e.part.stored.rows))
      && (!r.ok ==> !now.ok && now.brokenSeq == r.brokenSeq)
      && (r.ok && !Fine(store, e) ==> !now.ok && now.brokenSeq == Some(e.part.firstSeq))
      && (r.ok && Fine(store, e) ==> (now.ok <==> w'.broken.None?) && (!now.ok ==> now.brokenSeq == Some(w'.broken.value.seqNo)))
      && now.parts == r.parts + (if store.part(e.part) then 1 else 0)
      && now.rows == r.rows + (if store.part(e.part) then |e.part.stored.rows| else 0)
    ensures Noted(h, start, entries, i + 1, store, w', now)
  {
    hide WalkRows, RowsOf;
    var next := entries[..i + 1];
    assert next[..i] == entries[..i] && next[i] == entries[i];
    RowsOfNext(entries, i);
    WalkConcat(h, StartWalk(start, None), RowsOf(PartsIn(entries[..i])), entries[i].part.stored.rows);
  }

  /** Reads one part. An object or manifest that cannot be read is a finding, not a stop. */
  method ReadEntry(walker: ChainWalker, e: Entry, store: Store, r: Reading) returns (now: Reading)
    modifies walker
    ensures store.part(e.part) ==> walker.State() == WalkRows(walker.h, old(walker.State()), e.part.stored.rows)
    ensures !store.part(e.part) ==> walker.State() == old(walker.State())
    ensures now.ok ==> r.ok && store.manifest(e.segment) && store.part(e.part)
    ensures !r.ok ==> !now.ok && now.brokenSeq == r.brokenSeq
    ensures r.ok && !Fine(store, e) ==> !now.ok && now.brokenSeq == Some(e.part.firstSeq)
    ensures r.ok && Fine(store, e) ==>
      (now.ok <==> walker.broken.None?) && (!now.ok ==> now.brokenSeq == Some(walker.broken.value.seqNo))
    ensures now.parts == r.parts + (if store.part(e.part) then 1 else 0)
    ensures now.rows == r.rows + (if store.part(e.part) then |e.part.stored.rows| else 0)
    ensures store.manifest(e.segment) && store.part(e.part) && HeaderAgrees(e.part) ==>
      now == (if walker.broken.Some? then Finding(r, walker.broken.value.seqNo) else r)
             .(parts := r.parts + 1, rows := r.rows + |e.part.stored.rows|)
  {
    now := r;
    if !store.manifest(e.segment) {
      now := Finding(now, e.part.firstSeq);
    }
    if !store.part(e.part) {
      now := Finding(now, e.part.firstSeq);
      return;
    }
    if !HeaderAgrees(e.part) {
      now := Finding(now, e.part.firstSeq);
    }
    walker.WalkAll(e.part.stored.rows);
    if walker.broken.Some? {
      now := Finding(now, walker.broken.value.seqNo);
    }
    now := now.(parts := now.parts + 1, rows := now.rows + |e.part.stored.rows|);
  }

  /** After the first `i` entries: if all could be read, the walk and the findings are
      those of one walk of their rows. */
  ghost predicate ReadSoFar(h: Linker, start: Option<Hash>, entries: seq<Entry>, i: nat, store: Store, w: Walk, r: Reading)
    requires i <= |entries|
  {
    var rows := RowsOf(PartsIn(entries[..i]));
    && (r.ok ==> Readable(store, entries[..i]))
    && (Readable(store, entries[..i]) ==>
          && w == WalkRows(h, StartWalk(start, None), rows)
          && FoundSoFar(h, start, rows, r.ok, r.brokenSeq)
          && r.parts == i && r.rows == |rows|)
  }

  lemma ReadStep(h: Linker, start: Option<Hash>, entries: seq<Entry>, i: nat, store: Store, w: Walk, r: Reading, w': Walk, now: Reading)
    requires i < |entries| && ReadSoFar(h, start, entries, i, store, w, r)
    requires var e := entries[i];
      && (store.part(e.part) ==> w' == WalkRows(h, w, e.part.stored.rows))
      && (now.ok ==> r.ok && store.manifest(e.segment) && store.part(e.part))
      && (store.manifest(e.segment) && store.part(e.part) ==>
            now == (if w'.broken.Some? then Finding(r, w'.broken.value.seqNo) else r)
                   .(parts := r.parts + 1, rows := r.rows + |e.part.stored.rows|))
    ensures ReadSoFar(h, start, entries, i + 1, store, w', now)
  {
    ReadableNext(store, entries, i);
    RowsOfNext(entries, i);
    if Readable(store, entries[..i + 1]) {
      var some, more := RowsOf(PartsIn(entries[..i])), entries[i].part.stored.rows;
      WalkConcat(h, StartWalk(start, None), some, more);
      WalkEnds(h, WalkRows(h, StartWalk(start, None), some), more);
    }
  }

  lemma RowsOfNext(entries: seq<Entry>, i: nat)
    requires i < |entries|
    ensures RowsOf(PartsIn(entries[..i + 1])) == RowsOf(PartsIn(entries[..i])) + entries[i].part.stored.rows
  {
    var next := PartsIn(entries[..i + 1]);
    assert next[..|next| - 1] == PartsIn(entries[..i]);
  }

  lemma ReadableNext(store: Store, entries: seq<Entry>, i: nat)
    requires i < |entries|
    ensures Readable(store, entries[..i + 1])
            <==> Readable(store, entries[..i]) && store.part(entries[i].part) && store.manifest(entries[i].segment)
  {
    var next := entries[..i + 1];
    assert next[i] == entries[i] && forall j :: 0 <= j < i ==> next[j] == entries[..i][j];
  }

  /** Walks every archived part in order with one walker. */
  method WalkArchive(h: Linker, segments: seq<Segment>, store: Store) returns (r: Reading, prev: Option<Hash>)
    requires Tiles(segments)
    ensures r.ok ==> Readable(store, EntriesOf(segments))
    ensures var found := FirstFinding(h, FirstPrev(segments), store, EntriesOf(segments));
      (r.ok <==> found.None?) && (!r.ok ==> r.brokenSeq == found)
    ensures r.parts == CountRead(store, EntriesOf(segments)) && r.rows == RowsRead(store, EntriesOf(segments))
    ensures Readable(store, EntriesOf(segments)) ==>
      && FoundSoFar(h, FirstPrev(segments), Archived(segments), r.ok, r.brokenSeq)
      && r.parts == |PartsOf(segments)| && r.rows == |Archived(segments)|
      && prev == HeadHash(FirstPrev(segments), Archived(segments))
  {
    hide FirstFinding, CountRead, RowsRead, Readable, FoundSoFar, HeadHash, ReadSoFar, Noted;
    var entries := EntriesOf(segments);
    EntriesAgree(segments);
    var start := StartOf(entries);
    var walker := new ChainWalker(h, start, None);
    r := Reading(true, None, 0, 0);
    var i := 0;
    NothingRead(h, start, entries, store);
    while i < |entries|
      invariant i <= |entries| && fresh(walker) && walker.h == h
      invariant ReadSoFar(h, start, entries, i, store, walker.State(), r)
      invariant Noted(h, start, entries, i, store, walker.State(), r)
    {
      ghost var w, was := walker.State(), r;
      r := ReadEntry(walker, entries[i], store, r);
      ReadStep(h, start, entries, i, store, w, was, walker.State(), r);
      NotedStep(h, start, entries, i, store, w, was, walker.State(), r);
      i := i + 1;
    }
    FirstEntry(segments);
    AllNoted(h, start, entries, store, walker.State(), r);
    AllRead(h, segments, store, walker.State(), r);
    prev := walker.prev;
  }

  lemma NothingRead(h: Linker, start: Option<Hash>, entries: seq<Entry>, store: Store)
    ensures ReadSoFar(h, start, entries, 0, store, StartWalk(start, None), Reading(true, None, 0, 0))
    ensures Noted(h, start, entries, 0, store, StartWalk(start, None), Reading(true, None, 0, 0))
  {
    assert entries[..0] == [];
  }

  lemma AllNoted(h: Linker, start: Option<Hash>, entries: seq<Entry>, store: Store, w: Walk, r: Reading)
    requires Noted(h, start, entries, |entries|, store, w, r)
    ensures var found := FirstFinding(h, start, store, entries); (r.ok <==> found.None?) && (!r.ok ==> r.brokenSeq == found)
    ensures r.parts == CountRead(store, entries) && r.rows == RowsRead(store, entries)
  {
    assert entries[..|entries|] == entries;
  }

  lemma EntriesAgree(segments: seq<Segment>)
    requires AllWellFormed(segments)
    ensures forall i :: 0 <= i < |EntriesOf(segments)| ==> HeaderAgrees(EntriesOf(segments)[i].part)
  {
    EntriesHoldParts(segments);
    PartsIndexed(segments);
    forall i | 0 <= i < |EntriesOf(segments)| ensures HeaderAgrees(EntriesOf(segments)[i].part) {
      assert EntriesOf(segments)[i].part == PartsOf(segments)[i];
      IndexedHeaderAgrees(PartsOf(segments), i);
    }
  }

  lemma AllRead(h: Linker, segments: seq<Segment>, store: Store, w: Walk, r: Reading)
    requires AllWellFormed(segments)
    requires ReadSoFar(h, StartOf(EntriesOf(segments)), EntriesOf(segments), |EntriesOf(segments)|, store, w, r)
    ensures r.ok ==> Readable(store, EntriesOf(segments))
    ensures Readable(store, EntriesOf(segments)) ==>
      && FoundSoFar(h, FirstPrev(segments), Archived(segments), r.ok, r.brokenSeq)
      && r.parts == |PartsOf(segments)| && r.rows == |Archived(segments)|
      && w.prev == HeadHash(FirstPrev(segments), Archived(segments))
  {
    var entries := EntriesOf(segments);
    assert entries[..|entries|] == entries;
    EntriesHoldParts(segments);
    FirstEntry(segments);
    assert |PartsIn(entries)| == |entries|;
    WalkEnds(h, StartWalk(FirstPrev(segments), None), Archived(segments));
  }

  /** Walks the archive, compares its end with the anchor, then walks the table from the
      anchor. */
  method VerifyArchive(h: Linker, segments: seq<Segment>, table: seq<Row>, store: Store) returns (res: ArchiveResult)
    requires Tiles(segments)
    ensures var found := FirstFinding(h, FirstPrev(segments), store, EntriesOf(segments));
      (res.ok <==> found.None?) && (!res.ok ==> res.brokenSeq == found)
    ensures res.parts == CountRead(store, EntriesOf(segments)) && res.rows == RowsRead(store, EntriesOf(segments))
    ensures res.ok ==> Readable(store, EntriesOf(segments))
    ensures Readable(store, EntriesOf(segments)) ==>
      && FoundSoFar(h, FirstPrev(segments), Archived(segments), res.ok, res.brokenSeq)
      && res.parts == |PartsOf(segments)| && res.rows == |Archived(segments)|
    ensures res.startsAtGenesis == if segments == [] then None else Some(FirstPrev(segments).None?)
    ensures res.db.broken == WalkRows(h, AnchoredWalk(AnchorOf(segments)), table).broken
    ensures res.db.ok <==> res.db.broken.None?
  {
    var r, prev := WalkArchive(h, segments, store);
    AnchorIsLastArchived(segments);
    var anchor := AnchorOf(segments);
    if anchor.Some? && segments != [] && prev != anchor.value.lastRowHash {
      r := Finding(r, anchor.value.lastSeq);
    }
    var db := VerifyChain(h, anchor, table);
    res := ArchiveResult(r.ok, r.parts, r.rows, r.brokenSeq, if segments == [] then None else Some(FirstPrev(segments).None?), db);
  }

  lemma {:induction false} FirstEntry(segments: seq<Segment>)
    requires AllWellFormed(segments)
    ensures EntriesOf(segments) == [] <==> segments == []
    ensures StartOf(EntriesOf(segments)) == FirstPrev(segments)
  {
    if segments != [] {
      FirstEntry(segments[..|segments| - 1]);
      assert WellFormed(segments[|segments| - 1]);
    }
  }

  /** End to end: with everything readable, the verifier finds nothing wrong, from a
      first row without a link to the last row in the table, exactly when the archive
      followed by the table is one intact chain. Otherwise the row it names is the first
      row one walk of the whole would name. */
  lemma VerdictIsOneWalk(h: Linker, segments: seq<Segment>, table: seq<Row>, ok: bool, brokenSeq: Option<int>, db: Option<Break>)
    requires Tiles(segments) && segments != []
    requires FoundSoFar(h, FirstPrev(segments), Archived(segments), ok, brokenSeq)
    requires db == WalkRows(h, AnchoredWalk(AnchorOf(segments)), table).broken
    ensures var one := WalkRows(h, StartWalk(FirstPrev(segments), None), Archived(segments) + table).broken;
            && (one.None? <==> ok && db.None?)
            && (one.Some? ==> Some(one.value.seqNo) == if ok then Some(db.value.seqNo) else brokenSeq)
    ensures ok && db.None? && FirstPrev(segments).None?
            <==> Linked(h, None, Archived(segments) + table) && Ascending(None, Archived(segments) + table)
  {
    AnchorIsLastArchived(segments);
    BoundaryKeepsVerdict(h, FirstPrev(segments), Archived(segments), table);
    BoundaryFirstLink(h, segments, table);
  }

  lemma BoundaryFirstLink(h: Linker, segments: seq<Segment>, table: seq<Row>)
    requires Tiles(segments) && segments != []
    ensures var all := Archived(segments) + table;
            WalkRows(h, StartWalk(FirstPrev(segments), None), all).broken.None? && FirstPrev(segments).None?
            <==> Linked(h, None, all) && Ascending(None, all)
  {
    var all := Archived(segments) + table;
    WalkOkIffIntact(h, FirstPrev(segments), None, all);
    FirstRowPrev(segments);
    AnchorIsLastArchived(segments);
    if Linked(h, None, all) {
      LinkedFirst(h, None, all);
    }
  }

  lemma {:induction false} LinkedFirst(h: Linker, start: Option<Hash>, rows: seq<Row>)
    requires rows != [] && Linked(h, start, rows)
    ensures rows[0].prevHash == start
  {
    if |rows| > 1 {
      LinkedFirst(h, start, rows[..|rows| - 1]);
    }
  }

  lemma {:induction false} FirstRowPrev(segments: seq<Segment>)
    requires AllWellFormed(segments) && segments != []
    ensures Archived(segments) != [] && Archived(segments)[0].prevHash == FirstPrev(segments)
  {
    var front := segments[..|segments| - 1];
    ArchivedSplit(segments);
    assert WellFormed(segments[|segments| - 1]);
    if front != [] {
      FirstRowPrev(front);
    }
  }

  // ---- export ----

  predicate InRange(r: Row, from: Option<int>, to: Option<int>) {
    (from.None? || Ts(r) >= from.value) && (to.None? || Ts(r) < to.value)
  }

  function RowsInRange(rows: seq<Row>, from: Option<int>, to: Option<int>): seq<Row> {
    if rows == [] then []
    else
      var last := rows[|rows| - 1];
      RowsInRange(rows[..|rows| - 1], from, to) + (if InRange(last, from, to) then [last] else [])
  }

  lemma {:induction false} RangeConcat(a: seq<Row>, b: seq<Row>, from: Option<int>, to: Option<int>)
    ensures RowsInRange(a + b, from, to) == RowsInRange(a, from, to) + RowsInRange(b, from, to)
  {
    if b == [] {
      assert a + b == a;
    } else {
      var front := b[..|b| - 1];
      assert (a + b)[..|a + b| - 1] == a + front;
      RangeConcat(a, front, from, to);
    }
  }

  /** The rows of the range, and no others. */
  lemma {:induction false} RangeMeans(rows: seq<Row>, from: Option<int>, to: Option<int>)
    ensures forall r :: r in RowsInRange(rows, from, to) <==>
              r in rows && (from.Some? ==> Ts(r) >= from.value) && (to.Some? ==> Ts(r) < to.value)
  {
    hide Ts;
    if rows != [] {
      var front, last := rows[..|rows| - 1], rows[|rows| - 1];
      assert rows == front + [last];
      RangeMeans(front, from, to);
    }
  }

  lemma {:induction false} RangeInside(rows: seq<Row>, from: Option<int>, to: Option<int>)
    ensures forall r :: r in RowsInRange(rows, from, to) ==> r in rows
  {
    hide InRange;
    if rows != [] {
      assert rows == rows[..|rows| - 1] + [rows[|rows| - 1]];
      RangeInside(rows[..|rows| - 1], from, to);
    }
  }

  lemma {:induction false} RangeAscends(rows: seq<Row>, after: Option<int>, from: Option<int>, to: Option<int>)
    requires Ascending(after, rows)
    ensures Ascending(after, RowsInRange(rows, from, to))
  {
    hide InRange, Ascending;
    AscendingPairwise(after, rows);
    if rows == [] {
      assert RowsInRange(rows, from, to) == rows;
    } else {
      var front, last := rows[..|rows| - 1], rows[|rows| - 1];
      assert rows == front + [last];
      AscendingPairwise(after, front);
      RangeAscends(front, after, from, to);
      RangeInside(front, from, to);
      RangeStays(front, last, after, from, to);
      assert RowsInRange(front, from, to) + [] == RowsInRange(front, from, to);
    }
  }

  lemma RangeStays(front: seq<Row>, last: Row, after: Option<int>, from: Option<int>, to: Option<int>)
    requires Ascending(after, front + [last]) && Ascending(after, RowsInRange(front, from, to))
    requires forall r :: r in RowsInRange(front, from, to) ==> r in front
    ensures Ascending(after, RowsInRange(front, from, to) + [last])
  {
    hide Ascending, RowsInRange;
    var some, rows := RowsInRange(front, from, to), front + [last];
    AscendingPairwise(after, rows);
    AscendingPairwise(after, some);
    AscendingPairwise(after, some + [last]);
    assert rows[|front|] == last;
    forall i | 0 <= i < |some| ensures some[i].seqNo < last.seqNo {
      assert some[i] in some;
      var j :| 0 <= j < |front| && front[j] == some[i];
      assert rows[j] == front[j];
    }
  }

  lemma {:induction false} NothingInRange(rows: seq<Row>, from: Option<int>, to: Option<int>)
    requires forall i :: 0 <= i < |rows| ==> !InRange(rows[i], from, to)
    ensures RowsInRange(rows, from, to) == []
  {
    if rows != [] {
      NothingInRange(rows[..|rows| - 1], from, to);
    }
  }

  /** A part the index rules out has no row in the range. */
  lemma PrunedPartIsEmpty(p: Part, from: Option<int>, to: Option<int>)
    requires Indexed(p) && !Overlaps(p, from, to)
    ensures RowsInRange(p.stored.rows, from, to) == []
  {
    TsBounds(p.stored.rows);
    NothingInRange(p.stored.rows, from, to);
  }

  lemma FirstPart(parts: seq<Part>, from: Option<int>, to: Option<int>)
    requires parts != []
    ensures RowsInRange(RowsOf(parts), from, to)
         == RowsInRange(parts[0].stored.rows, from, to) + RowsInRange(RowsOf(parts[1..]), from, to)
  {
    var first, rest := parts[0], parts[1..];
    assert parts == [first] + rest && [first][..0] == [];
    RowsOfConcat([first], rest);
    RangeConcat(first.stored.rows, RowsOf(rest), from, to);
    assert RowsOf([first]) == first.stored.rows;
  }

  /** Pruning loses nothing and changes no order. */
  lemma {:induction false} PruningIsExact(parts: seq<Part>, from: Option<int>, to: Option<int>)
    requires AllIndexed(parts)
    ensures RowsInRange(RowsOf(Overlapping(parts, from, to)), from, to) == RowsInRange(RowsOf(parts), from, to)
  {
    if parts != [] {
      PruningIsExact(parts[1..], from, to);
      FirstPart(parts, from, to);
      if Overlaps(parts[0], from, to) {
        assert Overlapping(parts, from, to)[1..] == Overlapping(parts[1..], from, to);
        FirstPart(Overlapping(parts, from, to), from, to);
      } else {
        assert Overlapping(parts, from, to) == Overlapping(parts[1..], from, to);
        PrunedPartIsEmpty(parts[0], from, to);
      }
    }
  }

  /** What has been exported once the first `i` parts were read. */
  ghost predicate Exported(parts: seq<Part>, i: nat, from: Option<int>, to: Option<int>, store: Store, rows: seq<Row>)
    requires i <= |parts|
  {
    && rows == RowsInRange(RowsOf(parts[..i]), from, to)
    && forall j :: 0 <= j < i ==> store.part(parts[j])
  }

  lemma ExportStep(parts: seq<Part>, i: nat, from: Option<int>, to: Option<int>, store: Store, rows: seq<Row>)
    requires i < |parts| && Exported(parts, i, from, to, store, rows) && store.part(parts[i])
    ensures Exported(parts, i + 1, from, to, store, rows + RowsInRange(parts[i].stored.rows, from, to))
  {
    assert parts[..i + 1][..i] == parts[..i];
    RangeConcat(RowsOf(parts[..i]), parts[i].stored.rows, from, to);
  }

  /** Exports the archived rows of a time range, reading only parts that overlap it. It
      gives what a scan of the whole archive would give, in `seq` order; a part that
      cannot be read stops the export. */
  method ExportRows(segments: seq<Segment>, from: Option<int>, to: Option<int>, store: Store)
    returns (ok: bool, rows: seq<Row>)
    requires Tiles(segments)
    ensures ok ==> rows == RowsInRange(Archived(segments), from, to)
    ensures ok ==> Ascending(None, rows)
    ensures ok ==> forall r :: r in rows <==> r in Archived(segments) && (from.Some? ==> Ts(r) >= from.value) && (to.Some? ==> Ts(r) < to.value)
    ensures ok <==> forall p :: p in PartsOf(segments) && (from.Some? ==> p.maxTs >= from.value) && (to.Some? ==> p.minTs < to.value) ==>
                      store.part(p)
  {
    hide Ascending, RowsInRange, AllIndexed, Exported, Overlaps, Overlapping, PartsOf, RowsOf, PartsInOrder, AllWellFormed;
    RangeMeans(Archived(segments), from, to);
    RangeAscends(Archived(segments), None, from, to);
    var parts := PartsInOrder(segments, from, to);
    PartsInOrderAsWritten(segments, from, to);
    PartsIndexed(segments);
    OverlappingMembers(PartsOf(segments), from, to);
    OverlapMeans(from, to);
    NothingExported(parts, from, to, store);
    rows := [];
    var i := 0;
    while i < |parts|
      invariant i <= |parts| && Exported(parts, i, from, to, store, rows)
    {
      if !store.part(parts[i]) {
        assert parts[i] in parts;
        return false, rows;
      }
      ExportStep(parts, i, from, to, store, rows);
      rows := rows + RowsInRange(parts[i].stored.rows, from, to);
      i := i + 1;
    }
    AllExported(parts, from, to, store, rows);
    PruningIsExact(PartsOf(segments), from, to);
    return true, rows;
  }

  lemma OverlapMeans(from: Option<int>, to: Option<int>)
    ensures forall p :: Overlaps(p, from, to) <==> (from.Some? ==> p.maxTs >= from.value) && (to.Some? ==> p.minTs < to.value)
  {}

  lemma NothingExported(parts: seq<Part>, from: Option<int>, to: Option<int>, store: Store)
    ensures Exported(parts, 0, from, to, store, [])
  {}

  lemma AllExported(parts: seq<Part>, from: Option<int>, to: Option<int>, store: Store, rows: seq<Row>)
    requires Exported(parts, |parts|, from, to, store, rows)
    ensures rows == RowsInRange(RowsOf(parts), from, to) && forall p :: p in parts ==> store.part(p)
  {
    assert parts[..|parts|] == parts;
  }

  lemma {:induction false} OverlappingMembers(parts: seq<Part>, from: Option<int>, to: Option<int>)
    ensures forall p :: p in Overlapping(parts, from, to) <==> p in parts && Overlaps(p, from, to)
  {
    if parts != [] {
      OverlappingMembers(parts[1..], from, to);
      assert parts == [parts[0]] + parts[1..];
    }
  }
}
