/** One hash-chain walk, shared by the live table, the archiver and the archive's
    verifier. */
module Chain {
  import opened Common
  import opened Hashing

  /** A stored row. The sequence number is assigned by the database and is not hashed. */
  datatype Row = Row(seqNo: int, content: Content, prevHash: Option<Hash>, rowHash: Hash)

  // ---- what an intact chain is ----

  function HeadHash(start: Option<Hash>, rows: seq<Row>): Option<Hash> {
    if rows == [] then start else Some(rows[|rows| - 1].rowHash)
  }

  /** Every row carries its predecessor's hash (the first one `start`) and hashes to its
      own: no row was edited, inserted, removed or moved. */
  predicate Linked(h: Linker, start: Option<Hash>, rows: seq<Row>) {
    rows != [] ==>
      var front, last := rows[..|rows| - 1], rows[|rows| - 1];
      && Linked(h, start, front)
      && last.prevHash == HeadHash(start, front)
      && last.rowHash == h(last.prevHash, last.content)
  }

  function LastSeq(after: Option<int>, rows: seq<Row>): Option<int> {
    if rows == [] then after else Some(rows[|rows| - 1].seqNo)
  }

  /** Sequence numbers rise, from above `after` when there is one. Gaps are allowed. */
  predicate Ascending(after: Option<int>, rows: seq<Row>) {
    rows != [] ==>
      var front, last := rows[..|rows| - 1], rows[|rows| - 1];
      && Ascending(after, front)
      && (LastSeq(after, front).Some? ==> LastSeq(after, front).value < last.seqNo)
  }

  /** A chain is linked exactly when each half is, the second from the first's head. */
  lemma {:induction false} LinkedConcat(h: Linker, start: Option<Hash>, a: seq<Row>, b: seq<Row>)
    ensures Linked(h, start, a + b) <==> Linked(h, start, a) && Linked(h, HeadHash(start, a), b)
    ensures HeadHash(start, a + b) == HeadHash(HeadHash(start, a), b)
  {
    if b == [] {
      assert a + b == a;
    } else {
      var front := b[..|b| - 1];
      assert (a + b)[..|a + b| - 1] == a + front;
      LinkedConcat(h, start, a, front);
    }
  }

  lemma LinkedSingle(h: Linker, start: Option<Hash>, r: Row)
    ensures Linked(h, start, [r]) <==> r.prevHash == start && r.rowHash == h(start, r.content)
  {
    assert [r][..0] == [];
  }

  lemma {:induction false} AscendingConcat(after: Option<int>, a: seq<Row>, b: seq<Row>)
    ensures Ascending(after, a + b) <==> Ascending(after, a) && Ascending(LastSeq(after, a), b)
    ensures LastSeq(after, a + b) == LastSeq(LastSeq(after, a), b)
  {
    if b == [] {
      assert a + b == a;
    } else {
      var front := b[..|b| - 1];
      assert (a + b)[..|a + b| - 1] == a + front;
      AscendingConcat(after, a, front);
    }
  }

  /** Row by row: every row is above the anchor and above every row before it. */
  lemma {:induction false} AscendingPairwise(after: Option<int>, rows: seq<Row>)
    ensures Ascending(after, rows) <==>
            && (after.Some? ==> forall i :: 0 <= i < |rows| ==> after.value < rows[i].seqNo)
            && forall i, j :: 0 <= i < j < |rows| ==> rows[i].seqNo < rows[j].seqNo
  {
    if rows != [] {
      var front := rows[..|rows| - 1];
      AscendingPairwise(after, front);
      assert forall i :: 0 <= i < |front| ==> front[i] == rows[i];
      if Ascending(after, rows) && front != [] {
        assert front[|front| - 1].seqNo < rows[|rows| - 1].seqNo;
      }
    }
  }

  // ---- the walk ----

  datatype Reason = PredatesAnchor | NotAscending | PrevMismatch | HashMismatch

  datatype Break = Break(seqNo: int, reason: Reason)

  datatype Walk = Walk(prev: Option<Hash>, afterSeq: Option<int>, lastSeq: Option<int>, checked: nat,
                       broken: Option<Break>)

  function StartWalk(start: Option<Hash>, after: Option<int>): Walk {
    Walk(start, after, after, 0, None)
  }

  /** Why a row fails, if it does. A row that does not rise predates the anchor when its
      number is not above the anchor's; with no anchor, or one at number 0, the number it is
      held against is -1. */
  function Fault(h: Linker, w: Walk, row: Row): Option<Reason> {
    if w.lastSeq.Some? && row.seqNo <= w.lastSeq.value then
      Some(if row.seqNo <= (if w.afterSeq.Some? && w.afterSeq.value != 0 then w.afterSeq.value else -1)
           then PredatesAnchor else NotAscending)
    else if row.prevHash != w.prev then Some(PrevMismatch)
    else if row.rowHash != h(row.prevHash, row.content) then Some(HashMismatch)
    else None
  }

  function WalkRow(h: Linker, w: Walk, row: Row): Walk {
    var fault := Fault(h, w, row);
    w.(prev := Some(row.rowHash), lastSeq := Some(row.seqNo),
       checked := if fault.None? then w.checked + 1 else w.checked,
       broken := if fault.Some? && w.broken.None? then Some(Break(row.seqNo, fault.value)) else w.broken)
  }

  function WalkRows(h: Linker, w: Walk, rows: seq<Row>): Walk {
    if rows == [] then w
    else WalkRow(h, WalkRows(h, w, rows[..|rows| - 1]), rows[|rows| - 1])
  }

  lemma WalkExtend(h: Linker, w: Walk, rows: seq<Row>, row: Row)
    ensures WalkRows(h, w, rows + [row]) == WalkRow(h, WalkRows(h, w, rows), row)
  {
    assert (rows + [row])[..|rows|] == rows;
  }

  /** Walking in pieces is walking the whole. */
  lemma {:induction false} WalkConcat(h: Linker, w: Walk, a: seq<Row>, b: seq<Row>)
    ensures WalkRows(h, w, a + b) == WalkRows(h, WalkRows(h, w, a), b)
  {
    if b == [] {
      assert a + b == a;
    } else {
      var front := b[..|b| - 1];
      assert (a + b)[..|a + b| - 1] == a + front;
      WalkConcat(h, w, a, front);
    }
  }

  lemma {:induction false} WalkEnds(h: Linker, w: Walk, rows: seq<Row>)
    ensures WalkRows(h, w, rows).prev == HeadHash(w.prev, rows)
    ensures WalkRows(h, w, rows).lastSeq == LastSeq(w.lastSeq, rows)
    ensures WalkRows(h, w, rows).afterSeq == w.afterSeq
    ensures w.broken.Some? ==> WalkRows(h, w, rows).broken == w.broken
  {
    if rows != [] {
      WalkEnds(h, w, rows[..|rows| - 1]);
    }
  }

  /** The walk reports no break exactly when the rows are a linked, ascending
      continuation of the link it started from. */
  lemma {:induction false} WalkOkIffIntact(h: Linker, start: Option<Hash>, after: Option<int>, rows: seq<Row>)
    ensures WalkRows(h, StartWalk(start, after), rows).broken.None?
            <==> Linked(h, start, rows) && Ascending(after, rows)
    ensures Linked(h, start, rows) && Ascending(after, rows)
            ==> WalkRows(h, StartWalk(start, after), rows).checked == |rows|
  {
    if rows != [] {
      var front, last := rows[..|rows| - 1], rows[|rows| - 1];
      assert rows == front + [last];
      WalkOkIffIntact(h, start, after, front);
      WalkEnds(h, StartWalk(start, after), front);
      LinkedConcat(h, start, front, [last]);
      LinkedSingle(h, HeadHash(start, front), last);
      AscendingConcat(after, front, [last]);
    }
  }

  /** What two walkers that stand at the same link do afterwards differs only in the
      name given to a row that is not ascending. */
  ghost predicate SameVerdict(v: Option<Break>, w: Option<Break>) {
    && (v.Some? <==> w.Some?)
    && (v.Some? ==> v.value.seqNo == w.value.seqNo)
    && (v.Some? && v.value.reason != w.value.reason ==>
          {v.value.reason, w.value.reason} == {PredatesAnchor, NotAscending})
  }

  lemma {:induction false} WalkFromSameLink(h: Linker, v: Walk, w: Walk, rows: seq<Row>)
    requires v.prev == w.prev && v.lastSeq == w.lastSeq && v.broken.None? && w.broken.None?
    ensures SameVerdict(WalkRows(h, v, rows).broken, WalkRows(h, w, rows).broken)
    ensures WalkRows(h, v, rows).checked - v.checked == WalkRows(h, w, rows).checked - w.checked
  {
    if rows != [] {
      var front := rows[..|rows| - 1];
      WalkFromSameLink(h, v, w, front);
      WalkEnds(h, v, front);
      WalkEnds(h, w, front);
    }
  }

  /** Moving the boundary keeps the verdict. Cut any rows, intact or not, at any place
      after the first row; walk the front, then the back from the front's last hash
      and sequence number. The first break of the two walks is the first break of the
      one walk, and together they check as many rows. */
  lemma BoundaryKeepsVerdict(h: Linker, start: Option<Hash>, front: seq<Row>, back: seq<Row>)
    requires front != []
    ensures var one := WalkRows(h, StartWalk(start, None), front + back);
            var archived := WalkRows(h, StartWalk(start, None), front);
            var live := WalkRows(h, StartWalk(HeadHash(start, front), LastSeq(None, front)), back);
            && SameVerdict(one.broken, if archived.broken.Some? then archived.broken else live.broken)
            && one.checked == archived.checked + live.checked
  {
    var archived := WalkRows(h, StartWalk(start, None), front);
    WalkConcat(h, StartWalk(start, None), front, back);
    WalkEnds(h, StartWalk(start, None), front);
    WalkEnds(h, archived, back);
    WalkFromSameLink(h, archived.(broken := None), StartWalk(HeadHash(start, front), LastSeq(None, front)), back);
    BreakDoesNotSteer(h, archived, back);
  }

  /** A recorded break changes nothing about how later rows are judged. */
  lemma {:induction false} BreakDoesNotSteer(h: Linker, w: Walk, rows: seq<Row>)
    ensures WalkRows(h, w, rows).checked == WalkRows(h, w.(broken := None), rows).checked
    ensures w.broken.None? ==> w.(broken := None) == w
  {
    if rows != [] {
      var front := rows[..|rows| - 1];
      BreakDoesNotSteer(h, w, front);
      WalkEnds(h, w, front);
      WalkEnds(h, w.(broken := None), front);
    }
  }

  // ---- tamper evidence ----

  /** Every link and content that was hashed to write these rows. */
  ghost function Inputs(rows: seq<Row>): set<(Option<Hash>, Content)> {
    set i | 0 <= i < |rows| :: (rows[i].prevHash, rows[i].content)
  }

  /** No two of these inputs share a hash. */
  ghost predicate BindsOn(h: Linker, inputs: set<(Option<Hash>, Content)>) {
    forall p, c, q, d {:trigger h(p, c), h(q, d)} ::
      (p, c) in inputs && (q, d) in inputs && h(p, c) == h(q, d) ==> p == q && c == d
  }

  function Contents(rows: seq<Row>): seq<Content> {
    seq(|rows|, i requires 0 <= i < |rows| => rows[i].content)
  }

  lemma ContentsLast(rows: seq<Row>)
    requires rows != []
    ensures Contents(rows) == Contents(rows[..|rows| - 1]) + [rows[|rows| - 1].content]
  {}

  lemma InputsFront(rows: seq<Row>)
    requires rows != []
    ensures Inputs(rows[..|rows| - 1]) <= Inputs(rows)
    ensures (rows[|rows| - 1].prevHash, rows[|rows| - 1].content) in Inputs(rows)
  {}

  /** Two intact chains that start at the same link and end at the same head hash hold
      the same contents in the same order: no edit, insertion, deletion or reordering
      leaves the head as it was. The starting link must not come back as the hash of a
      later row; at the start of a chain (no link) it cannot. */
  lemma {:induction false} TamperEvidence(h: Linker, start: Option<Hash>, a: seq<Row>, b: seq<Row>)
    requires Linked(h, start, a) && Linked(h, start, b)
    requires HeadHash(start, a) == HeadHash(start, b)
    requires BindsOn(h, Inputs(a) + Inputs(b))
    requires forall i :: 0 <= i < |a| ==> start != Some(a[i].rowHash)
    requires forall i :: 0 <= i < |b| ==> start != Some(b[i].rowHash)
    ensures Contents(a) == Contents(b)
  {
    if a != [] && b != [] {
      InputsFront(a);
      InputsFront(b);
      TamperEvidence(h, start, a[..|a| - 1], b[..|b| - 1]);
      ContentsLast(a);
      ContentsLast(b);
    }
  }

  /** The same, as the walker sees it, for whole chains. */
  lemma WalkerSeesTampering(h: Linker, a: seq<Row>, b: seq<Row>)
    requires BindsOn(h, Inputs(a) + Inputs(b))
    requires WalkRows(h, StartWalk(None, None), a).broken.None?
    requires WalkRows(h, StartWalk(None, None), b).broken.None?
    requires HeadHash(None, a) == HeadHash(None, b)
    ensures Contents(a) == Contents(b)
  {
    WalkOkIffIntact(h, None, None, a);
    WalkOkIffIntact(h, None, None, b);
    TamperEvidence(h, None, a, b);
  }

  /** And for what follows an archive: if the archive is intact from the first row on,
      two tables that continue it and end at the same head hash are the same. */
  lemma AnchoredTamperEvidence(h: Linker, archive: seq<Row>, a: seq<Row>, b: seq<Row>)
    requires Linked(h, None, archive)
    requires Linked(h, HeadHash(None, archive), a) && Linked(h, HeadHash(None, archive), b)
    requires HeadHash(HeadHash(None, archive), a) == HeadHash(HeadHash(None, archive), b)
    requires BindsOn(h, Inputs(archive + a) + Inputs(archive + b))
    ensures Contents(a) == Contents(b)
  {
    LinkedConcat(h, None, archive, a);
    LinkedConcat(h, None, archive, b);
    TamperEvidence(h, None, archive + a, archive + b);
    ContentsDrop(archive, a);
    ContentsDrop(archive, b);
  }

  lemma ContentsDrop(a: seq<Row>, b: seq<Row>)
    ensures Contents(a + b)[|a|..] == Contents(b)
  {}

  /** Why the starting link must not come back: with a hash that has a fixed point, a
      row can be added without moving the head. */
  lemma RecurringStartHidesInsertion(c: Content, fixed: Hash)
    ensures var h: Linker := (_, _) => fixed;
            var row := Row(1, c, Some(fixed), fixed);
            && Linked(h, Some(fixed), []) && Linked(h, Some(fixed), [row])
            && HeadHash(Some(fixed), []) == HeadHash(Some(fixed), [row])
            && BindsOn(h, Inputs([]) + Inputs([row]))
            && Contents([]) != Contents([row])
  {
    var h: Linker := (_, _) => fixed;
    var row := Row(1, c, Some(fixed), fixed);
    LinkedSingle(h, Some(fixed), row);
    assert forall x :: x in Inputs([row]) ==> x == (Some(fixed), c);
    assert Contents([row]) == [c];
  }

  /** With the digest itself: rows whose hashes are all digest-sized, and a digest
      without a collision among the byte strings that were hashed to write them. */
  lemma DigestBinds(sha: Digest, inputs: set<(Option<Hash>, Content)>)
    requires forall x :: x in inputs ==> WellSized(x.0)
    requires CollisionFreeOn(sha, set x | x in inputs :: HashInput(x.0, CanonicalRow(x.1)))
    ensures BindsOn(ShaLinker(sha), inputs)
  {
    var h := ShaLinker(sha);
    var hashed := set x | x in inputs :: HashInput(x.0, CanonicalRow(x.1));
    forall p, c, q, d | (p, c) in inputs && (q, d) in inputs && h(p, c) == h(q, d)
      ensures p == q && c == d
    {
      assert HashInput((p, c).0, CanonicalRow((p, c).1)) in hashed;
      assert HashInput((q, d).0, CanonicalRow((q, d).1)) in hashed;
      RowHashBinds(sha, hashed, p, c, q, d);
    }
  }

  // ---- the walker object and the table verifier ----

  class ChainWalker {
    const h: Linker
    const afterSeq: Option<int>
    var prev: Option<Hash>
    var lastSeq: Option<int>
    var checked: nat
    var broken: Option<Break>

    ghost function State(): Walk
      reads this
    {
      Walk(prev, afterSeq, lastSeq, checked, broken)
    }

    constructor (h: Linker, start: Option<Hash>, after: Option<int>)
      ensures State() == StartWalk(start, after) && this.h == h
    {
      this.h := h;
      prev, afterSeq, lastSeq, checked, broken := start, after, after, 0, None;
    }

    /** Checks one row and keeps walking after a break; only the first is kept. */
    method Step(row: Row) returns (ok: bool)
      modifies this
      ensures State() == WalkRow(h, old(State()), row)
      ensures ok <==> Fault(h, old(State()), row).None?
      ensures old(broken).None? ==> (ok <==> broken.None?)
      ensures old(broken).None? && !ok ==> broken.value.seqNo == row.seqNo
      ensures checked == old(checked) + if ok then 1 else 0
    {
      var reason: Option<Reason> := None;
      if lastSeq.Some? && row.seqNo <= lastSeq.value {
        reason := Some(if row.seqNo <= (if afterSeq.Some? && afterSeq.value != 0 then afterSeq.value else -1)
                       then PredatesAnchor else NotAscending);
      } else if row.prevHash != prev {
        reason := Some(PrevMismatch);
      } else if row.rowHash != h(row.prevHash, row.content) {
        reason := Some(HashMismatch);
      }
      if reason.Some? && broken.None? {
        broken := Some(Break(row.seqNo, reason.value));
      }
      prev := Some(row.rowHash);
      lastSeq := Some(row.seqNo);
      if reason.None? {
        checked := checked + 1;
      }
      ok := reason.None?;
    }

    /** Steps through all of `rows`, breaks or not. */
    method WalkAll(rows: seq<Row>)
      modifies this
      ensures State() == WalkRows(h, old(State()), rows)
    {
      var i := 0;
      while i < |rows|
        invariant i <= |rows| && State() == WalkRows(h, old(State()), rows[..i])
      {
        WalkStep(h, old(State()), rows, i);
        var _ := Step(rows[i]);
        i := i + 1;
      }
      assert rows[..i] == rows;
    }

    /** Steps through one fetched batch, up to the first break. `start`, `table` and
        `from` say where in which walk the batch lies. */
    method StepBatch(batch: seq<Row>, ghost table: seq<Row>, ghost from: nat, ghost start: Walk) returns (ok: bool)
      requires from + |batch| <= |table| && batch == table[from..from + |batch|]
      requires State() == WalkRows(h, start, table[..from])
      requires broken.None? && checked == from
      modifies this
      ensures ok ==> State() == WalkRows(h, start, table[..from + |batch|]) && broken.None? && checked == from + |batch|
      ensures !ok ==> checked < |table| && broken.Some? && broken.value.seqNo == table[checked].seqNo
      ensures !ok ==> WalkRows(h, start, table[..checked]).broken.None?
      ensures !ok ==> State() == WalkRows(h, start, table[..checked + 1])
    {
      var i := 0;
      while i < |batch|
        invariant i <= |batch|
        invariant State() == WalkRows(h, start, table[..from + i])
        invariant broken.None? && checked == from + i
      {
        WalkStep(h, start, table, from + i);
        ok := Step(batch[i]);
        if !ok {
          return;
        }
        i := i + 1;
      }
      ok := true;
    }
  }

  datatype Anchor = Anchor(lastSeq: int, lastRowHash: Option<Hash>)

  datatype ChainResult = ChainResult(ok: bool, checked: nat, broken: Option<Break>, anchoredAt: Option<int>)

  function AnchoredWalk(anchor: Option<Anchor>): Walk {
    if anchor.Some? then StartWalk(anchor.value.lastRowHash, Some(anchor.value.lastSeq)) else StartWalk(None, None)
  }

  lemma WalkStep(h: Linker, w: Walk, rows: seq<Row>, n: nat)
    requires n < |rows|
    ensures WalkRows(h, w, rows[..n + 1]) == WalkRow(h, WalkRows(h, w, rows[..n]), rows[n])
  {
    assert rows[..n + 1] == rows[..n] + [rows[n]];
    WalkExtend(h, w, rows[..n], rows[n]);
  }

  lemma FirstBreakStands(h: Linker, w: Walk, rows: seq<Row>, n: nat)
    requires n <= |rows| && WalkRows(h, w, rows[..n]).broken.Some?
    ensures WalkRows(h, w, rows).broken == WalkRows(h, w, rows[..n]).broken
  {
    var front, back := rows[..n], rows[n..];
    assert front + back == rows;
    WalkConcat(h, w, front, back);
    WalkEnds(h, WalkRows(h, w, front), back);
  }

  /** Walks the table from the anchor, a fetched batch at a time, and stops at the
      first break; `checked` is the number of rows before it. */
  method VerifyChain(h: Linker, anchor: Option<Anchor>, table: seq<Row>) returns (res: ChainResult)
    ensures res.ok <==> Linked(h, AnchoredWalk(anchor).prev, table) && Ascending(AnchoredWalk(anchor).afterSeq, table)
    ensures res.ok <==> res.broken.None?
    ensures res.broken == WalkRows(h, AnchoredWalk(anchor), table).broken
    ensures res.ok ==> res.checked == |table|
    ensures !res.ok ==> res.checked < |table| && res.broken.value.seqNo == table[res.checked].seqNo
    ensures !res.ok ==> WalkRows(h, AnchoredWalk(anchor), table[..res.checked]).broken.None?
    ensures res.anchoredAt == AnchoredWalk(anchor).afterSeq
  {
    var start := AnchoredWalk(anchor);
    var walker := new ChainWalker(h, start.prev, start.afterSeq);
    var fetched := 0;
    while fetched < |table|
      invariant fetched <= |table|
      invariant fresh(walker) && walker.h == h
      invariant walker.State() == WalkRows(h, start, table[..fetched])
      invariant walker.broken.None? && walker.checked == fetched
    {
      var size := if |table| - fetched < 2000 then |table| - fetched else 2000;
      var batch := table[fetched..fetched + size];
      var ok := walker.StepBatch(batch, table, fetched, start);
      if !ok {
        FirstBreakStands(h, start, table, walker.checked + 1);
        WalkOkIffIntact(h, start.prev, start.afterSeq, table);
        return ChainResult(false, walker.checked, walker.broken, start.afterSeq);
      }
      fetched := fetched + size;
    }
    assert table[..fetched] == table;
    WalkOkIffIntact(h, start.prev, start.afterSeq, table);
    return ChainResult(true, walker.checked, None, start.afterSeq);
  }
}
