/** Retention of the audit log: the aged prefix of a chain is archived, part by part,
    then its partitions are dropped, in one transaction. */
module Retention {
  import opened Common
  import opened Hashing
  import opened Chain
  import opened Catalog
  import opened Writer

  /** Row count and sequence range of one day's partition; the range means nothing when
      there are no rows. */
  datatype PartStat = PartStat(day: int, rows: nat, minSeq: int, maxSeq: int)

  // ---- which partitions may go ----

  predicate Late(p: PartStat, bound: int) { p.rows > 0 && p.maxSeq > bound }

  function LateOnes(ps: seq<PartStat>, bound: int): seq<PartStat> {
    if ps == [] then []
    else (if Late(ps[0], bound) then [ps[0]] else []) + LateOnes(ps[1..], bound)
  }

  function OnTime(ps: seq<PartStat>, bound: int): seq<PartStat> {
    if ps == [] then []
    else (if Late(ps[0], bound) then [] else [ps[0]]) + OnTime(ps[1..], bound)
  }

  function AsSet<T>(xs: seq<T>): set<T> { set x | x in xs }

  lemma {:induction false} LateSplit(ps: seq<PartStat>, bound: int)
    ensures forall p :: p in LateOnes(ps, bound) <==> p in ps && Late(p, bound)
    ensures forall p :: p in OnTime(ps, bound) <==> p in ps && !Late(p, bound)
    ensures multiset(LateOnes(ps, bound)) + multiset(OnTime(ps, bound)) == multiset(ps)
    ensures |LateOnes(ps, bound)| + |OnTime(ps, bound)| == |ps|
  {
    if ps != [] {
      var p, rest := ps[0], ps[1..];
      LateSplit(rest, bound);
      assert ps == [p] + rest;
      assert forall q :: q in ps <==> q == p || q in rest;
      if Late(p, bound) {
        assert LateOnes(ps, bound) == [p] + LateOnes(rest, bound) && OnTime(ps, bound) == OnTime(rest, bound);
      } else {
        assert OnTime(ps, bound) == [p] + OnTime(rest, bound) && LateOnes(ps, bound) == LateOnes(rest, bound);
      }
    }
  }

  /** Every row of `drop` precedes every row that stays: the rows that are not aged
      (from `keptMin` on) and the rows of the other aged partitions. */
  ghost predicate Safe(drop: set<PartStat>, aged: set<PartStat>, keptMin: Option<int>) {
    && drop <= aged
    && (forall p :: p in drop && keptMin.Some? ==> !Late(p, keptMin.value))
    && forall p, q :: p in drop && q in aged - drop && q.rows > 0 ==> !Late(p, q.minSeq)
  }

  function InsertByDay(p: PartStat, ps: seq<PartStat>): seq<PartStat> {
    if ps == [] || p.day <= ps[0].day then [p] + ps else [ps[0]] + InsertByDay(p, ps[1..])
  }

  function SortByDay(ps: seq<PartStat>): seq<PartStat> {
    if ps == [] then [] else InsertByDay(ps[0], SortByDay(ps[1..]))
  }

  predicate ByDay(ps: seq<PartStat>) { forall i, j :: 0 <= i < j < |ps| ==> ps[i].day <= ps[j].day }

  lemma {:induction false} InsertByDayMembers(p: PartStat, ps: seq<PartStat>)
    ensures multiset(InsertByDay(p, ps)) == multiset(ps) + multiset{p}
  {
    if ps != [] {
      assert ps == [ps[0]] + ps[1..];
      InsertByDayMembers(p, ps[1..]);
    }
  }

  lemma {:induction false} InsertByDaySorts(p: PartStat, ps: seq<PartStat>)
    requires ByDay(ps)
    ensures ByDay(InsertByDay(p, ps))
    ensures InsertByDay(p, ps)[0].day == if ps == [] || p.day <= ps[0].day then p.day else ps[0].day
  {
    if ps != [] && p.day > ps[0].day {
      InsertByDaySorts(p, ps[1..]);
    }
  }

  lemma {:induction false} SortByDaySorts(ps: seq<PartStat>)
    ensures ByDay(SortByDay(ps)) && multiset(SortByDay(ps)) == multiset(ps)
  {
    if ps != [] {
      SortByDaySorts(ps[1..]);
      InsertByDaySorts(ps[0], SortByDay(ps[1..]));
      InsertByDayMembers(ps[0], SortByDay(ps[1..]));
      assert ps == [ps[0]] + ps[1..];
    }
  }

  /** Where the bound stands: at or below everything that stays, and no lower than it
      has to be. */
  ghost predicate Tight(bound: Option<int>, keptMin: Option<int>, held: seq<PartStat>) {
    && (bound.None? <==> keptMin.None?)
    && (bound.Some? ==>
          && bound.value <= keptMin.value
          && (forall q :: q in held ==> q.rows > 0 && bound.value <= q.minSeq)
          && (bound == keptMin || exists q :: q in held && q.minSeq == bound.value))
  }

  /** No safe set has any of these. */
  ghost predicate Excluded(held: seq<PartStat>, aged: set<PartStat>, keptMin: Option<int>) {
    forall d, p :: Safe(d, aged, keptMin) && p in held ==> p !in d
  }

  /** A partition that reaches past the bound is in no safe set. */
  lemma LateIsExcluded(aged: set<PartStat>, keptMin: Option<int>, bound: int, held: seq<PartStat>, newly: seq<PartStat>)
    requires Tight(Some(bound), keptMin, held) && Excluded(held, aged, keptMin)
    requires forall q :: q in held ==> q in aged
    requires forall p :: p in newly ==> Late(p, bound)
    ensures Excluded(held + newly, aged, keptMin)
  {
    forall d, p | Safe(d, aged, keptMin) && p in held + newly ensures p !in d {
      if p in newly && Some(bound) != keptMin {
        var q :| q in held && q.minSeq == bound;
        assert q !in d && q in aged - d;
      }
    }
  }

  lemma NothingLateIsSafe(aged: seq<PartStat>, keptMin: Option<int>, bound: Option<int>, candidates: seq<PartStat>, held: seq<PartStat>)
    requires Tight(bound, keptMin, held)
    requires bound.Some? ==> forall p :: p in candidates ==> !Late(p, bound.value)
    requires bound.None? ==> held == []
    requires forall p :: p in aged <==> p in candidates || p in held
    ensures Safe(AsSet(candidates), AsSet(aged), keptMin)
  {
    forall p, q | p in AsSet(candidates) && q in AsSet(aged) - AsSet(candidates) && q.rows > 0
      ensures !Late(p, q.minSeq)
    {
      assert q in held;
    }
  }

  lemma SameElements<T>(a: seq<T>, b: seq<T>)
    requires multiset(a) == multiset(b)
    ensures forall x :: x in a <==> x in b
    ensures AsSet(a) == AsSet(b)
  {
    forall x ensures x in a <==> x in b {
      assert x in a <==> x in multiset(a);
    }
  }

  lemma SplitElements(a: seq<PartStat>, b: seq<PartStat>, all: seq<PartStat>)
    requires multiset(a) + multiset(b) == multiset(all) && Distinct(all)
    ensures forall x :: x in all <==> x in a || x in b
    ensures forall x :: !(x in a && x in b)
  {
    forall x ensures (x in all <==> x in a || x in b) && !(x in a && x in b) {
      assert x in multiset(all) <==> x in multiset(a) || x in multiset(b);
      OccursOnce(all, x);
    }
  }

  lemma {:induction false} OccursOnce(xs: seq<PartStat>, x: PartStat)
    requires Distinct(xs)
    ensures multiset(xs)[x] <= 1
  {
    if xs != [] {
      OccursOnce(xs[1..], x);
      assert xs == [xs[0]] + xs[1..];
      forall i | 0 <= i < |xs| - 1 ensures xs[1..][i] != xs[0] {
        assert xs[0] != xs[i + 1];
      }
    }
  }

  /** Holds these back one by one, lowering the bound to the first row of each. */
  method HoldBack(newly: seq<PartStat>, held: seq<PartStat>, bound: int, ghost keptMin: Option<int>)
    returns (nowHeld: seq<PartStat>, nowBound: int)
    requires Tight(Some(bound), keptMin, held)
    requires forall p :: p in newly ==> p.rows > 0
    ensures nowHeld == held + newly && Tight(Some(nowBound), keptMin, nowHeld)
  {
    nowHeld, nowBound := held, bound;
    var i := 0;
    while i < |newly|
      invariant i <= |newly| && nowHeld == held + newly[..i]
      invariant Tight(Some(nowBound), keptMin, nowHeld)
    {
      var p := newly[i];
      assert p in newly;
      nowHeld := nowHeld + [p];
      if p.minSeq < nowBound {
        nowBound := p.minSeq;
      }
      i := i + 1;
    }
    assert newly[..i] == newly;
  }

  /** Keeps back every aged partition with a row after some row that stays; holding one
      back lowers the bound for the rest, until nothing more is held. What may be
      dropped is the largest safe set: every safe set is inside it. */
  method SelectDroppable(aged: seq<PartStat>, keptMin: Option<int>) returns (drop: seq<PartStat>, held: seq<PartStat>)
    requires Distinct(aged)
    ensures multiset(drop) + multiset(held) == multiset(aged)
    ensures ByDay(drop) && ByDay(held)
    ensures Safe(AsSet(drop), AsSet(aged), keptMin)
    ensures forall d :: Safe(d, AsSet(aged), keptMin) ==> d <= AsSet(drop)
  {
    ghost var all := AsSet(aged);
    var candidates, bound := aged, keptMin;
    held := [];
    while bound.Some?
      invariant multiset(candidates) + multiset(held) == multiset(aged)
      invariant Tight(bound, keptMin, held) && Excluded(held, all, keptMin)
      invariant bound.None? ==> held == []
      decreases |candidates|
    {
      var newly := LateOnes(candidates, bound.value);
      LateSplit(candidates, bound.value);
      if newly == [] {
        break;
      }
      SplitElements(candidates, held, aged);
      LateIsExcluded(all, keptMin, bound.value, held, newly);
      candidates := OnTime(candidates, bound.value);
      var lowered;
      held, lowered := HoldBack(newly, held, bound.value, keptMin);
      bound := Some(lowered);
    }
    SplitElements(candidates, held, aged);
    NothingLateIsSafe(aged, keptMin, bound, candidates, held);
    AllSafeInside(all, keptMin, candidates, held);
    SortByDaySorts(candidates);
    SortByDaySorts(held);
    drop := SortByDay(candidates);
    SameElements(drop, candidates);
    held := SortByDay(held);
  }

  lemma AllSafeInside(aged: set<PartStat>, keptMin: Option<int>, candidates: seq<PartStat>, held: seq<PartStat>)
    requires Excluded(held, aged, keptMin)
    requires forall p :: p in aged ==> p in candidates || p in held
    ensures forall d :: Safe(d, aged, keptMin) ==> d <= AsSet(candidates)
  {}

  // ---- what that means for the rows ----

  function RowDay(r: Row): int { r.content.ts.day }

  /** `count(*), min(seq), max(seq)` of one day's partition. */
  function StatOf(table: seq<Row>, day: int): PartStat {
    if table == [] then PartStat(day, 0, 0, 0)
    else
      var s, r := StatOf(table[..|table| - 1], day), table[|table| - 1];
      if RowDay(r) != day then s
      else PartStat(day, s.rows + 1,
                    if s.rows == 0 || r.seqNo < s.minSeq then r.seqNo else s.minSeq,
                    if s.rows == 0 || r.seqNo > s.maxSeq then r.seqNo else s.maxSeq)
  }

  /** The smallest sequence number among rows that are not aged. */
  function KeptMin(table: seq<Row>, cutoff: int): Option<int> {
    if table == [] then None
    else
      var m, r := KeptMin(table[..|table| - 1], cutoff), table[|table| - 1];
      if RowDay(r) >= cutoff && (m.None? || r.seqNo < m.value) then Some(r.seqNo) else m
  }

  ghost predicate Holds(table: seq<Row>, day: int, no: int) {
    exists i :: 0 <= i < |table| && RowDay(table[i]) == day && table[i].seqNo == no
  }

  lemma {:induction false} StatMeaning(table: seq<Row>, day: int)
    ensures var s := StatOf(table, day);
            && s.day == day
            && (s.rows > 0 ==> Holds(table, day, s.minSeq) && Holds(table, day, s.maxSeq))
            && forall i :: 0 <= i < |table| && RowDay(table[i]) == day ==>
                 s.rows > 0 && s.minSeq <= table[i].seqNo <= s.maxSeq
  {
    if table != [] {
      var front, last := table[..|table| - 1], |table| - 1;
      StatMeaning(front, day);
      forall no | Holds(front, day, no) ensures Holds(table, day, no) {
        var i :| 0 <= i < |front| && RowDay(front[i]) == day && front[i].seqNo == no;
        assert table[i] == front[i];
      }
      if RowDay(table[last]) == day {
        assert Holds(table, day, table[last].seqNo);
      }
      assert forall i :: 0 <= i < last ==> table[i] == front[i];
    }
  }

  lemma {:induction false} KeptMinMeaning(table: seq<Row>, cutoff: int)
    ensures var m := KeptMin(table, cutoff);
            && (m.Some? ==> exists i :: 0 <= i < |table| && RowDay(table[i]) >= cutoff && table[i].seqNo == m.value)
            && forall i :: 0 <= i < |table| && RowDay(table[i]) >= cutoff ==> m.Some? && m.value <= table[i].seqNo
  {
    if table != [] {
      var front, last := table[..|table| - 1], |table| - 1;
      KeptMinMeaning(front, cutoff);
      assert forall i :: 0 <= i < last ==> table[i] == front[i];
      var m := KeptMin(front, cutoff);
      if m.Some? {
        var i :| 0 <= i < |front| && RowDay(front[i]) >= cutoff && front[i].seqNo == m.value;
        assert table[i].seqNo == m.value;
      }
    }
  }

  function DaysIn(ps: set<PartStat>): set<int> { set p | p in ps :: p.day }

  lemma OwnerOf(d: set<PartStat>, day: int) returns (p: PartStat)
    requires day in DaysIn(d)
    ensures p in d && p.day == day
  {
    p :| p in d && p.day == day;
  }

  /** The first `n` rows are exactly the rows of these days. */
  ghost predicate IsCut(table: seq<Row>, days: set<int>, n: int) {
    0 <= n <= |table| && forall i :: 0 <= i < |table| ==> (RowDay(table[i]) in days <==> i < n)
  }

  /** `aged` describes every day before the cutoff that has rows, and no other day. */
  ghost predicate Describes(aged: seq<PartStat>, table: seq<Row>, cutoff: int) {
    && (forall p :: p in aged ==> p == StatOf(table, p.day) && p.day < cutoff)
    && forall i :: 0 <= i < |table| && RowDay(table[i]) < cutoff ==> StatOf(table, RowDay(table[i])) in aged
  }

  lemma {:induction false} PrefixFromOrder(table: seq<Row>, days: set<int>)
    requires forall i, j :: 0 <= i < |table| && 0 <= j < |table| && RowDay(table[i]) in days && RowDay(table[j]) !in days ==> i < j
    ensures exists n :: IsCut(table, days, n)
  {
    if table == [] {
      assert IsCut(table, days, 0);
    } else if RowDay(table[|table| - 1]) in days {
      assert IsCut(table, days, |table|);
    } else {
      var front := table[..|table| - 1];
      PrefixFromOrder(front, days);
      var n :| IsCut(front, days, n);
      assert IsCut(table, days, n);
    }
  }

  /** A safe set of partitions holds a prefix of the table. */
  lemma SafeCuts(table: seq<Row>, after: Option<int>, aged: seq<PartStat>, cutoff: int, d: set<PartStat>)
    requires Ascending(after, table) && Describes(aged, table, cutoff)
    requires Safe(d, AsSet(aged), KeptMin(table, cutoff))
    ensures exists n :: IsCut(table, DaysIn(d), n)
  {
    AscendingPairwise(after, table);
    KeptMinMeaning(table, cutoff);
    forall i, j | 0 <= i < |table| && 0 <= j < |table| && RowDay(table[i]) in DaysIn(d) && RowDay(table[j]) !in DaysIn(d)
      ensures i < j
    {
      var p := OwnerOf(d, RowDay(table[i]));
      StatMeaning(table, p.day);
      StatMeaning(table, RowDay(table[j]));
      var q := StatOf(table, RowDay(table[j]));
      assert p == StatOf(table, p.day) && p.rows > 0 && table[i].seqNo <= p.maxSeq;
      if RowDay(table[j]) < cutoff {
        assert q in AsSet(aged) - d && !Late(p, q.minSeq);
      }
      assert table[i].seqNo <= table[j].seqNo;
    }
    PrefixFromOrder(table, DaysIn(d));
  }

  lemma OneStatPerDay(aged: seq<PartStat>, table: seq<Row>, cutoff: int, p: PartStat, q: PartStat)
    requires Describes(aged, table, cutoff) && p in aged && q in aged && p.day == q.day
    ensures p == q
  {}

  /** In a cut, a partition that goes has no row after one that stays. */
  lemma CutSeparates(table: seq<Row>, after: Option<int>, days: set<int>, n: int, p: PartStat, day: int, stays: int)
    requires Ascending(after, table) && IsCut(table, days, n)
    requires p.day in days && p == StatOf(table, p.day)
    requires day !in days && Holds(table, day, stays)
    ensures !Late(p, stays)
  {
    if p.rows > 0 {
      AscendingPairwise(after, table);
      StatMeaning(table, p.day);
      var i :| 0 <= i < |table| && RowDay(table[i]) == p.day && table[i].seqNo == p.maxSeq;
      var j :| 0 <= j < |table| && RowDay(table[j]) == day && table[j].seqNo == stays;
    }
  }

  lemma CutSeparatesKept(table: seq<Row>, after: Option<int>, days: set<int>, n: int, cutoff: int, p: PartStat)
    requires Ascending(after, table) && IsCut(table, days, n)
    requires p.day in days && p == StatOf(table, p.day)
    requires (forall d :: d in days ==> d < cutoff) && KeptMin(table, cutoff).Some?
    ensures !Late(p, KeptMin(table, cutoff).value)
  {
    KeptMinMeaning(table, cutoff);
    var m := KeptMin(table, cutoff).value;
    var i :| 0 <= i < |table| && RowDay(table[i]) >= cutoff && table[i].seqNo == m;
    assert Holds(table, RowDay(table[i]), m);
    CutSeparates(table, after, days, n, p, RowDay(table[i]), m);
  }

  /** And aged partitions that hold a prefix of the table are safe to drop. */
  lemma CutIsSafe(table: seq<Row>, after: Option<int>, aged: seq<PartStat>, cutoff: int, d: set<PartStat>, n: int)
    requires Ascending(after, table) && Describes(aged, table, cutoff)
    requires d <= AsSet(aged) && IsCut(table, DaysIn(d), n)
    ensures Safe(d, AsSet(aged), KeptMin(table, cutoff))
  {
    forall p | p in d && KeptMin(table, cutoff).Some? ensures !Late(p, KeptMin(table, cutoff).value) {
      CutSeparatesKept(table, after, DaysIn(d), n, cutoff, p);
    }
    forall p, q | p in d && q in AsSet(aged) - d && q.rows > 0 ensures !Late(p, q.minSeq) {
      StatMeaning(table, q.day);
      if q.day in DaysIn(d) {
        var r := OwnerOf(d, q.day);
        OneStatPerDay(aged, table, cutoff, q, r);
      }
      CutSeparates(table, after, DaysIn(d), n, p, q.day, q.minSeq);
    }
  }

  /** So "safe" is the same as "holds a prefix of the chain", and the set chosen is the
      largest set of aged partitions that holds one. */
  lemma SafeIffPrefix(table: seq<Row>, after: Option<int>, aged: seq<PartStat>, cutoff: int, d: set<PartStat>)
    requires Ascending(after, table) && Describes(aged, table, cutoff) && d <= AsSet(aged)
    ensures Safe(d, AsSet(aged), KeptMin(table, cutoff)) <==> exists n :: IsCut(table, DaysIn(d), n)
  {
    if Safe(d, AsSet(aged), KeptMin(table, cutoff)) {
      SafeCuts(table, after, aged, cutoff, d);
    }
    if n :| IsCut(table, DaysIn(d), n) {
      CutIsSafe(table, after, aged, cutoff, d, n);
    }
  }

  /** The rows in the partitions of these days, or the others, in `seq` order. */
  function Pick(rows: seq<Row>, days: set<int>, inside: bool): seq<Row> {
    if rows == [] then []
    else
      var last := rows[|rows| - 1];
      Pick(rows[..|rows| - 1], days, inside) + if (RowDay(last) in days) == inside then [last] else []
  }

  lemma {:induction false} PickConcat(a: seq<Row>, b: seq<Row>, days: set<int>, inside: bool)
    ensures Pick(a + b, days, inside) == Pick(a, days, inside) + Pick(b, days, inside)
  {
    if b == [] {
      assert a + b == a;
    } else {
      var front, last := b[..|b| - 1], b[|b| - 1];
      assert (a + b)[..|a + b| - 1] == a + front;
      PickConcat(a, front, days, inside);
    }
  }

  lemma {:induction false} PickAll(rows: seq<Row>, days: set<int>, inside: bool)
    requires forall i :: 0 <= i < |rows| ==> (RowDay(rows[i]) in days) == inside
    ensures Pick(rows, days, inside) == rows
  {
    if rows != [] {
      PickAll(rows[..|rows| - 1], days, inside);
      assert rows == rows[..|rows| - 1] + [rows[|rows| - 1]];
    }
  }

  lemma {:induction false} PickNone(rows: seq<Row>, days: set<int>, inside: bool)
    requires forall i :: 0 <= i < |rows| ==> (RowDay(rows[i]) in days) != inside
    ensures Pick(rows, days, inside) == []
  {
    if rows != [] {
      PickNone(rows[..|rows| - 1], days, inside);
    }
  }

  lemma CutSplits(table: seq<Row>, days: set<int>, n: int)
    requires IsCut(table, days, n)
    ensures Pick(table, days, true) == table[..n] && Pick(table, days, false) == table[n..]
  {
    hide Pick, RowDay;
    var a, b := table[..n], table[n..];
    forall i | 0 <= i < |a| ensures RowDay(a[i]) in days {
      assert a[i] == table[i];
    }
    forall i | 0 <= i < |b| ensures RowDay(b[i]) !in days {
      assert b[i] == table[n + i];
    }
    assert a + b == table;
    PickAll(a, days, true);
    PickNone(b, days, true);
    PickConcat(a, b, days, true);
    PickNone(a, days, false);
    PickAll(b, days, false);
    PickConcat(a, b, days, false);
  }

  // ---- archiving and dropping, in one transaction ----

  /** What can fail on the way: writing a part (by number) or the manifest to the
      archive, and dropping a partition within the lock timeout. */
  datatype Faults = Faults(part: nat -> bool, manifest: bool, drop: bool)

  ghost predicate NoFault(f: Faults) { !f.manifest && !f.drop && forall k :: !f.part(k) }

  /** These rows go on, unbroken, from where the archived ones end. */
  ghost predicate GoesOn(h: Linker, archived: seq<Row>, rows: seq<Row>) {
    Linked(h, HeadHash(None, archived), rows) && Ascending(LastSeq(None, archived), rows)
  }

  /** Every segment is marked whole exactly when its rows go on from the segments before. */
  ghost predicate Flagged(h: Linker, segments: seq<Segment>) {
    segments != [] ==>
      var front, last := segments[..|segments| - 1], segments[|segments| - 1];
      Flagged(h, front) && (last.chainOk <==> GoesOn(h, Archived(front), RowsOf(last.parts)))
  }

  predicate AllWhole(segments: seq<Segment>) { forall i :: 0 <= i < |segments| ==> segments[i].chainOk }

  /** All marks are good exactly when the archive is one intact chain from its first row. */
  lemma {:induction false} AllWholeIff(h: Linker, segments: seq<Segment>)
    requires Flagged(h, segments)
    ensures AllWhole(segments) <==> Linked(h, None, Archived(segments)) && Ascending(None, Archived(segments))
  {
    if segments != [] {
      var front, last := segments[..|segments| - 1], segments[|segments| - 1];
      AllWholeIff(h, front);
      assert AllWhole(segments) <==> AllWhole(front) && last.chainOk by {
        assert forall i :: 0 <= i < |front| ==> front[i] == segments[i];
      }
      ArchivedSplit(segments);
      LinkedConcat(h, None, Archived(front), RowsOf(last.parts));
      AscendingConcat(None, Archived(front), RowsOf(last.parts));
    }
  }

  lemma FlaggedMore(h: Linker, segments: seq<Segment>, s: Segment)
    requires Flagged(h, segments) && (s.chainOk <==> GoesOn(h, Archived(segments), RowsOf(s.parts)))
    ensures Flagged(h, segments + [s])
  {
    assert (segments + [s])[..|segments|] == segments;
  }

  /** The walk from the anchor finds nothing exactly when the rows go on from the archive. */
  lemma WalkFromAnchor(h: Linker, segments: seq<Segment>, rows: seq<Row>)
    requires Tiles(segments)
    ensures WalkRows(h, AnchoredWalk(AnchorOf(segments)), rows).broken.None? <==> GoesOn(h, Archived(segments), rows)
  {
    AnchorIsLastArchived(segments);
    var start := AnchoredWalk(AnchorOf(segments));
    WalkOkIffIntact(h, start.prev, start.afterSeq, rows);
  }

  /** One chain in the database, with its archive's catalog. */
  class ChainDb {
    const h: Linker
    var table: seq<Row>
    var partitions: set<int>
    var segments: seq<Segment>

    ghost predicate Valid()
      reads this
    {
      && Tiles(segments) && Flagged(h, segments)
      && Ascending(LastSeq(None, Archived(segments)), table)
      && forall i :: 0 <= i < |table| ==> RowDay(table[i]) in partitions
    }

    constructor (h: Linker)
      ensures Valid() && this.h == h && table == [] && segments == [] && partitions == {}
    {
      this.h := h;
      table, partitions, segments := [], {}, [];
    }
  }

  /** A part of the segment being written, from the rows of one fetch. */
  function PartFor(no: nat, rows: seq<Row>): Part
    requires rows != []
  {
    var first, last := rows[0].seqNo, rows[|rows| - 1].seqNo;
    Part(no, |rows|, first, last, MinTs(rows), MaxTs(rows), PartObject(no, |rows|, first, last, rows))
  }

  function Fetch(rows: seq<Row>, size: nat): nat {
    if |rows| < size then |rows| else size
  }

  /** The rows cut into parts of `size`, numbered from `no`. */
  function Split(rows: seq<Row>, size: nat, no: nat): seq<Part>
    requires size > 0
  {
    if rows == [] then []
    else [PartFor(no, rows[..Fetch(rows, size)])] + Split(rows[Fetch(rows, size)..], size, no + 1)
  }

  lemma PartForIndexed(no: nat, rows: seq<Row>)
    requires rows != []
    ensures Indexed(PartFor(no, rows))
  {}

  lemma {:induction false} SplitIndexed(rows: seq<Row>, size: nat, no: nat)
    requires size > 0
    ensures AllIndexed(Split(rows, size, no))
    ensures Split(rows, size, no) == [] <==> rows == []
    decreases |rows|
  {
    if rows != [] {
      PartForIndexed(no, rows[..Fetch(rows, size)]);
      SplitIndexed(rows[Fetch(rows, size)..], size, no + 1);
    }
  }

  lemma {:induction false} SplitRows(rows: seq<Row>, size: nat, no: nat)
    requires size > 0
    ensures RowsOf(Split(rows, size, no)) == rows
    decreases |rows|
  {
    if rows != [] {
      var n := Fetch(rows, size);
      var first, rest := PartFor(no, rows[..n]), Split(rows[n..], size, no + 1);
      SplitRows(rows[n..], size, no + 1);
      RowsOfConcat([first], rest);
      RowsOfOne(first);
      assert RowsOf([first] + rest) == rows[..n] + rows[n..];
    }
  }

  lemma RowsOfOne(p: Part)
    ensures RowsOf([p]) == p.stored.rows
  {
    assert [p][..0] == [];
    assert [] + p.stored.rows == p.stored.rows;
  }

  /** Parts are numbered in turn, and each but the last is full. */
  lemma {:induction false} SplitPacked(rows: seq<Row>, size: nat, no: nat, i: nat)
    requires size > 0 && i < |Split(rows, size, no)|
    ensures var parts := Split(rows, size, no);
            && parts[i].partNo == no + i
            && |parts[i].stored.rows| <= size
            && (i < |parts| - 1 ==> |parts[i].stored.rows| == size)
    decreases |rows|
  {
    var n := Fetch(rows, size);
    if i > 0 {
      SplitPacked(rows[n..], size, no + 1, i - 1);
    }
  }

  /** Numbered from one; none larger than `size`, and all but the last that large. */
  predicate Packed(parts: seq<Part>, size: nat) {
    forall i :: 0 <= i < |parts| ==>
      && parts[i].partNo == i + 1 && |parts[i].stored.rows| <= size
      && (i < |parts| - 1 ==> |parts[i].stored.rows| == size)
  }

  lemma SplitIsPacked(rows: seq<Row>, size: nat)
    requires size > 0
    ensures Packed(Split(rows, size, 1), size)
  {
    hide Split;
    forall i | 0 <= i < |Split(rows, size, 1)|
      ensures var parts := Split(rows, size, 1);
              && parts[i].partNo == i + 1 && |parts[i].stored.rows| <= size
              && (i < |parts| - 1 ==> |parts[i].stored.rows| == size)
    {
      SplitPacked(rows, size, 1, i);
    }
  }

  lemma {:induction false} RowsOfEnds(parts: seq<Part>)
    requires parts != [] && AllIndexed(parts)
    ensures RowsOf(parts) != []
    ensures RowsOf(parts)[0].seqNo == parts[0].firstSeq
    ensures RowsOf(parts)[|RowsOf(parts)| - 1].seqNo == parts[|parts| - 1].lastSeq
  {
    var front, last := parts[..|parts| - 1], parts[|parts| - 1];
    if front != [] {
      RowsOfEnds(front);
    }
  }

  /** What the segment's record says about its rows as a whole. */
  datatype Summary = Summary(firstPrev: Option<Hash>, lastHash: Option<Hash>, minTs: int, maxTs: int)

  function SummaryOf(rows: seq<Row>): Summary
    requires rows != []
  {
    Summary(rows[0].prevHash, Some(rows[|rows| - 1].rowHash), MinTs(rows), MaxTs(rows))
  }

  function Widen(sum: Option<Summary>, recs: seq<Row>): Summary
    requires recs != []
  {
    var lo, hi := MinTs(recs), MaxTs(recs);
    match sum
    case None => Summary(recs[0].prevHash, Some(recs[|recs| - 1].rowHash), lo, hi)
    case Some(s) => Summary(s.firstPrev, Some(recs[|recs| - 1].rowHash),
                            if lo < s.minTs then lo else s.minTs, if hi > s.maxTs then hi else s.maxTs)
  }

  ghost predicate Summarised(rows: seq<Row>, sum: Option<Summary>) {
    if rows == [] then sum.None? else sum == Some(SummaryOf(rows))
  }

  lemma SummaryStep(some: seq<Row>, recs: seq<Row>, sum: Option<Summary>)
    requires Summarised(some, sum) && recs != []
    ensures Summarised(some + recs, Some(Widen(sum, recs)))
  {
    if some == [] {
      assert some + recs == recs;
    } else {
      TsBoundsConcat(some, recs);
    }
  }

  function SegmentOf(rows: seq<Row>, size: nat, chainOk: bool): Segment
    requires rows != [] && size > 0
  {
    var sum := SummaryOf(rows);
    Segment(|rows|, rows[0].seqNo, rows[|rows| - 1].seqNo, sum.firstPrev, sum.lastHash, sum.minTs, sum.maxTs, chainOk,
            Split(rows, size, 1))
  }

  /** A segment made of these rows is sound and holds exactly them. */
  lemma SegmentHolds(rows: seq<Row>, size: nat, chainOk: bool)
    requires rows != [] && size > 0
    ensures WellFormed(SegmentOf(rows, size, chainOk))
    ensures RowsOf(SegmentOf(rows, size, chainOk).parts) == rows
  {
    SplitIndexed(rows, size, 1);
    SplitRows(rows, size, 1);
    RowsOfEnds(Split(rows, size, 1));
  }

  function NextFetch(rows: seq<Row>, at: nat, size: nat): seq<Row>
    requires at < |rows| && size > 0
  {
    rows[at..][..Fetch(rows[at..], size)]
  }

  /** The stream after some fetches: `parts` and `sum` are for what comes before `at`,
      and the rest is still to be cut. */
  ghost predicate Streamed(rows: seq<Row>, size: nat, at: nat, parts: seq<Part>, sum: Option<Summary>, w: Walk, start: Walk, h: Linker)
    requires size > 0
  {
    && at <= |rows| && parts + Split(rows[at..], size, |parts| + 1) == Split(rows, size, 1)
    && Summarised(rows[..at], sum)
    && w == WalkRows(h, start, rows[..at])
  }

  lemma NothingStreamed(rows: seq<Row>, size: nat, start: Walk, h: Linker)
    requires size > 0
    ensures Streamed(rows, size, 0, [], None, start, start, h)
  {
    assert rows[0..] == rows && rows[..0] == [];
    assert [] + Split(rows, size, 1) == Split(rows, size, 1);
  }

  lemma FetchStep(rows: seq<Row>, size: nat, at: nat, parts: seq<Part>, sum: Option<Summary>, w: Walk, start: Walk, h: Linker)
    requires size > 0 && at < |rows| && Streamed(rows, size, at, parts, sum, w, start, h)
    ensures var recs := NextFetch(rows, at, size);
            && recs != [] && at + |recs| <= |rows|
            && Streamed(rows, size, at + |recs|, parts + [PartFor(|parts| + 1, recs)], Some(Widen(sum, recs)), WalkRows(h, w, recs), start, h)
  {
    var rest, recs := rows[at..], NextFetch(rows, at, size);
    var n := |recs|;
    assert rest[n..] == rows[at + n..];
    Regroup(parts, PartFor(|parts| + 1, recs), Split(rows[at + n..], size, |parts| + 2));
    assert rows[..at] + recs == rows[..at + n];
    SummaryStep(rows[..at], recs, sum);
    WalkConcat(h, start, rows[..at], recs);
  }

  lemma Regroup(a: seq<Part>, p: Part, b: seq<Part>)
    ensures a + [p] + b == a + ([p] + b)
  {}

  /** At the end of the stream the pieces make the segment. */
  lemma AllStreamed(rows: seq<Row>, size: nat, parts: seq<Part>, sum: Option<Summary>, w: Walk, start: Walk, h: Linker)
    requires size > 0 && rows != [] && Streamed(rows, size, |rows|, parts, sum, w, start, h)
    ensures parts == Split(rows, size, 1) && parts != []
    ensures parts[0].firstSeq == rows[0].seqNo && parts[|parts| - 1].lastSeq == rows[|rows| - 1].seqNo
    ensures sum == Some(SummaryOf(rows)) && w == WalkRows(h, start, rows)
  {
    assert rows[|rows|..] == [] && rows[..|rows|] == rows;
    assert parts + [] == parts;
    SplitIndexed(rows, size, 1);
    SplitRows(rows, size, 1);
    RowsOfEnds(parts);
  }

  lemma MorePartsToCome(rows: seq<Row>, size: nat, at: nat, parts: seq<Part>, sum: Option<Summary>, w: Walk, start: Walk, h: Linker)
    requires size > 0 && at < |rows| && Streamed(rows, size, at, parts, sum, w, start, h)
    ensures |parts| < |Split(rows, size, 1)|
  {
    SplitIndexed(rows[at..], size, |parts| + 1);
  }

  /** Streams the rows in `seq` order into parts of `size` rows, walking the chain from
      the anchor as it goes. A break in the chain is archived as it stands and noted. */
  method ArchiveSegment(h: Linker, anchor: Option<Anchor>, rows: seq<Row>, size: nat, faults: Faults)
    returns (seg: Option<Segment>)
    requires rows != [] && size > 0
    ensures seg.Some? ==> seg.value == SegmentOf(rows, size, WalkRows(h, AnchoredWalk(anchor), rows).broken.None?)
    ensures seg.Some? ==> RowsOf(seg.value.parts) == rows && Packed(seg.value.parts, size)
    ensures seg.None? <==> faults.manifest || exists k :: 0 < k <= |Split(rows, size, 1)| && faults.part(k)
  {
    hide Split, Packed;
    ghost var start := AnchoredWalk(anchor);
    var walker := new ChainWalker(h, AnchoredWalk(anchor).prev, AnchoredWalk(anchor).afterSeq);
    var parts: seq<Part> := [];
    var sum: Option<Summary> := None;
    var at := 0;
    NothingStreamed(rows, size, start, h);
    while at < |rows|
      invariant at <= |rows| && fresh(walker) && walker.h == h
      invariant Streamed(rows, size, at, parts, sum, walker.State(), start, h)
      invariant forall k :: 0 < k <= |parts| ==> !faults.part(k)
    {
      var recs := NextFetch(rows, at, size);
      FetchStep(rows, size, at, parts, sum, walker.State(), start, h);
      MorePartsToCome(rows, size, at, parts, sum, walker.State(), start, h);
      walker.WalkAll(recs);
      if faults.part(|parts| + 1) {
        return None;
      }
      parts := parts + [PartFor(|parts| + 1, recs)];
      sum := Some(Widen(sum, recs));
      at := at + |recs|;
    }
    AllStreamed(rows, size, parts, sum, walker.State(), start, h);
    SplitRows(rows, size, 1);
    SplitIsPacked(rows, size);
    if faults.manifest {
      return None;
    }
    return Some(Segment(|rows|, parts[0].firstSeq, parts[|parts| - 1].lastSeq, sum.value.firstPrev, sum.value.lastHash,
                        sum.value.minTs, sum.value.maxTs, walker.broken.None?, parts));
  }

  datatype RunResult = Failed | Done(dropped: seq<int>, held: seq<int>, committed: bool)

  function DayList(ps: seq<PartStat>): seq<int> {
    seq(|ps|, i requires 0 <= i < |ps| => ps[i].day)
  }

  /** Days before the cutoff that have a partition, in order. */
  method ListAged(partitions: set<int>, cutoff: int) returns (days: seq<int>)
    ensures forall d :: d in days <==> d in partitions && d < cutoff
    ensures forall i, j :: 0 <= i < j < |days| ==> days[i] < days[j]
  {
    days := [];
    var rest := set d | d in partitions && d < cutoff;
    while true
      invariant forall d :: d in partitions && d < cutoff <==> d in days || d in rest
      invariant forall i, j :: 0 <= i < j < |days| ==> days[i] < days[j]
      invariant forall i, d :: 0 <= i < |days| && d in rest ==> days[i] < d
      decreases |rest|
    {
      if any :| any in rest {
        LeastDay(rest, any);
        var m :| m in rest && forall d :: d in rest ==> m <= d;
        days, rest := days + [m], rest - {m};
      } else {
        break;
      }
    }
  }

  function Below(s: set<int>, x: int): set<int> { set d | d in s && d < x }

  lemma {:induction false} LeastDay(s: set<int>, x: int)
    requires x in s
    ensures exists m :: m in s && forall d :: d in s ==> m <= d
    decreases Below(s, x)
  {
    if y :| y in s && y < x {
      assert y in Below(s, x) && y !in Below(s, y) && Below(s, y) <= Below(s, x);
      LeastDay(s, y);
    }
  }

  function StatsOf(table: seq<Row>, days: seq<int>): seq<PartStat> {
    seq(|days|, i requires 0 <= i < |days| => StatOf(table, days[i]))
  }

  /** The statistics read under the locks describe the aged days. */
  lemma StatsDescribe(table: seq<Row>, partitions: set<int>, days: seq<int>, cutoff: int)
    requires forall d :: d in days <==> d in partitions && d < cutoff
    requires forall i, j :: 0 <= i < j < |days| ==> days[i] < days[j]
    requires forall i :: 0 <= i < |table| ==> RowDay(table[i]) in partitions
    ensures Describes(StatsOf(table, days), table, cutoff) && Distinct(StatsOf(table, days))
  {
    var aged := StatsOf(table, days);
    forall i | 0 <= i < |aged| ensures aged[i].day == days[i] && aged[i] == StatOf(table, days[i]) {
      StatMeaning(table, days[i]);
    }
    forall p | p in aged ensures p == StatOf(table, p.day) && p.day < cutoff {
      var i :| 0 <= i < |aged| && aged[i] == p;
      assert days[i] in days;
    }
    forall i | 0 <= i < |table| && RowDay(table[i]) < cutoff ensures StatOf(table, RowDay(table[i])) in aged {
      assert RowDay(table[i]) in days;
      var j :| 0 <= j < |days| && days[j] == RowDay(table[i]);
      assert aged[j] == StatOf(table, RowDay(table[i]));
    }
  }

  lemma DayListIs(ps: seq<PartStat>)
    ensures AsSet(DayList(ps)) == DaysIn(AsSet(ps))
  {
    forall d ensures d in DayList(ps) <==> d in DaysIn(AsSet(ps)) {
      if d in DayList(ps) {
        var i :| 0 <= i < |ps| && DayList(ps)[i] == d;
        assert ps[i] in AsSet(ps);
      }
      if d in DaysIn(AsSet(ps)) {
        var p :| p in ps && p.day == d;
        var i :| 0 <= i < |ps| && ps[i] == p;
        assert DayList(ps)[i] == d;
      }
    }
  }

  lemma StatDays(table: seq<Row>, days: seq<int>)
    ensures DaysIn(AsSet(StatsOf(table, days))) == AsSet(days)
  {
    var aged := StatsOf(table, days);
    forall i | 0 <= i < |days| ensures aged[i].day == days[i] && aged[i] in aged {
      StatMeaning(table, days[i]);
    }
  }

  /** Dropped and held days are together the aged days. */
  lemma DaysSplit(table: seq<Row>, days: seq<int>, drop: seq<PartStat>, held: seq<PartStat>)
    requires forall p :: p in StatsOf(table, days) <==> p in drop || p in held
    ensures AsSet(DayList(drop)) == DaysIn(AsSet(drop))
    ensures AsSet(DayList(drop)) + AsSet(DayList(held)) == AsSet(days)
  {
    DayListIs(drop);
    DayListIs(held);
    StatDays(table, days);
    assert AsSet(StatsOf(table, days)) == AsSet(drop) + AsSet(held);
  }

  /** No larger set of aged days holds a prefix of the table. */
  lemma LargestPrefix(table: seq<Row>, after: Option<int>, days: seq<int>, cutoff: int, drop: seq<PartStat>)
    requires Ascending(after, table) && Describes(StatsOf(table, days), table, cutoff)
    requires forall d :: Safe(d, AsSet(StatsOf(table, days)), KeptMin(table, cutoff)) ==> d <= AsSet(drop)
    ensures forall some, n :: some <= AsSet(days) && IsCut(table, some, n) ==> some <= DaysIn(AsSet(drop))
  {
    var aged := StatsOf(table, days);
    StatDays(table, days);
    forall some, n | some <= AsSet(days) && IsCut(table, some, n)
      ensures some <= DaysIn(AsSet(drop))
    {
      var d := set p | p in AsSet(aged) && p.day in some;
      assert DaysIn(d) == some by {
        forall x | x in some ensures x in DaysIn(d) {
          assert x in DaysIn(AsSet(aged));
          var p :| p in AsSet(aged) && p.day == x;
          assert p in d;
        }
      }
      CutIsSafe(table, after, aged, cutoff, d, n);
    }
  }

  lemma TilesExtend(segments: seq<Segment>, s: Segment)
    requires Tiles(segments) && WellFormed(s)
    requires Ascending(LastSeq(None, Archived(segments)), RowsOf(s.parts))
    ensures Tiles(segments + [s])
    ensures Archived(segments + [s]) == Archived(segments) + RowsOf(s.parts)
  {
    ArchivedExtend(segments, s);
    AscendingConcat(None, Archived(segments), RowsOf(s.parts));
  }

  /** What a committed run did, given the aged partitions it found. */
  ghost predicate Retired(h: Linker, oldTable: seq<Row>, oldSegments: seq<Segment>, oldPartitions: set<int>,
                          newTable: seq<Row>, newSegments: seq<Segment>, newPartitions: set<int>, dropped: set<int>)
  {
    && dropped <= oldPartitions && newPartitions == oldPartitions - dropped
    && exists n :: IsCut(oldTable, dropped, n)
         && newTable == oldTable[n..]
         && Archived(newSegments) == Archived(oldSegments) + oldTable[..n]
         && (n == 0 ==> newSegments == oldSegments)
         && (n > 0 ==>
               && |newSegments| == |oldSegments| + 1 && newSegments[..|oldSegments|] == oldSegments
               && (newSegments[|oldSegments|].chainOk <==> GoesOn(h, Archived(oldSegments), oldTable[..n])))
  }

  /** Which aged days may go: the most that leave the rest of the chain whole. */
  ghost predicate Chosen(table: seq<Row>, partitions: set<int>, cutoff: int, drop: set<int>, held: set<int>) {
    && drop + held == (set d | d in partitions && d < cutoff) && drop !! held
    && (exists n :: IsCut(table, drop, n))
    && forall days, n :: days <= drop + held && IsCut(table, days, n) ==> days <= drop
  }

  /** Lists the aged partitions, reads their statistics and applies the prefix rule. */
  method Plan(db: ChainDb, cutoff: int) returns (drop: seq<int>, held: seq<int>)
    requires db.Valid()
    ensures Chosen(db.table, db.partitions, cutoff, AsSet(drop), AsSet(held))
  {
    ghost var after := LastSeq(None, Archived(db.segments));
    var days := ListAged(db.partitions, cutoff);
    var aged := StatsOf(db.table, days);
    StatsDescribe(db.table, db.partitions, days, cutoff);
    var dropped, kept := SelectDroppable(aged, KeptMin(db.table, cutoff));
    SplitElements(dropped, kept, aged);
    DaysSplit(db.table, days, dropped, kept);
    LargestPrefix(db.table, after, days, cutoff, dropped);
    SafeCuts(db.table, after, aged, cutoff, AsSet(dropped));
    drop, held := DayList(dropped), DayList(kept);
    assert AsSet(days) == set d | d in db.partitions && d < cutoff;
  }

  /** Archives and drops the largest aged prefix of a chain. Either everything happens
      or nothing does; no row is lost or moved past another. */
  method RunScope(db: ChainDb, cutoff: int, size: int, dryRun: bool, faults: Faults) returns (res: RunResult)
    requires db.Valid()
    modifies db
    ensures db.Valid()
    ensures res.Failed? || !res.committed ==>
      db.table == old(db.table) && db.segments == old(db.segments) && db.partitions == old(db.partitions)
    ensures res.Done? ==> Chosen(old(db.table), old(db.partitions), cutoff, AsSet(res.dropped), AsSet(res.held))
    ensures res.Done? && res.committed ==>
      Retired(db.h, old(db.table), old(db.segments), old(db.partitions), db.table, db.segments, db.partitions, AsSet(res.dropped))
    ensures Archived(db.segments) + db.table == Archived(old(db.segments)) + old(db.table)
    ensures res.Done? ==> (res.committed <==> !dryRun && res.dropped != [])
    ensures size < 1 || size > 100000 ==> res.Failed?
    ensures 1 <= size <= 100000 && NoFault(faults) ==> res.Done?
    ensures res.Done? && res.committed ==> !faults.drop
    ensures res.Done? && res.committed && |db.segments| > |old(db.segments)| ==>
      var parts := db.segments[|db.segments| - 1].parts;
      Packed(parts, size) && !faults.manifest && forall k :: 0 < k <= |parts| ==> !faults.part(k)
    ensures AllWhole(db.segments) <==> Linked(db.h, None, Archived(db.segments)) && Ascending(None, Archived(db.segments))
  {
    hide Pick, Tiles, Ascending, Archived, LastSeq, Flagged, GoesOn, AllWhole, Linked, Packed, Chosen, Retired, IsCut, NoFault;
    AllWholeIff(db.h, db.segments);
    FaultFree(faults);
    if !(1 <= size <= 100000) {
      return Failed;
    }
    var drop, held := Plan(db, cutoff);
    if dryRun || drop == [] {
      return Done(drop, held, false);
    }
    var dropDays := AsSet(drop);
    ghost var n := CutOf(db.table, db.partitions, cutoff, dropDays, AsSet(held));
    CutSplits(db.table, dropDays, n);
    var rows, rest := Pick(db.table, dropDays, true), Pick(db.table, dropDays, false);
    TwoHalves(db.table, n);
    CutKeepsOrder(Archived(db.segments), rows, rest);
    var segments := ArchiveRows(db.h, db.segments, rows, size, faults);
    if segments.None? || faults.drop {
      return Failed;
    }
    CutKeepsDays(db.table, db.partitions, dropDays, n);
    RunRetires(db.h, db.table, db.segments, db.partitions, segments.value, dropDays, n);
    AllWholeIff(db.h, segments.value);
    db.segments, db.table, db.partitions := segments.value, rest, db.partitions - dropDays;
    return Done(drop, held, true);
  }

  lemma FaultFree(f: Faults)
    ensures NoFault(f) ==> !f.drop
  {}

  lemma CutOf(table: seq<Row>, partitions: set<int>, cutoff: int, drop: set<int>, held: set<int>) returns (n: nat)
    requires Chosen(table, partitions, cutoff, drop, held)
    ensures IsCut(table, drop, n) && n <= |table| && drop <= partitions
  {
    n :| IsCut(table, drop, n);
    assert drop <= drop + held;
  }

  lemma RunRetires(h: Linker, table: seq<Row>, segments: seq<Segment>, partitions: set<int>, now: seq<Segment>, drop: set<int>, n: nat)
    requires IsCut(table, drop, n) && n <= |table| && drop <= partitions
    requires Archived(now) == Archived(segments) + table[..n]
    requires n == 0 ==> now == segments
    requires n > 0 ==>
      && |now| == |segments| + 1 && now[..|segments|] == segments
      && (now[|segments|].chainOk <==> GoesOn(h, Archived(segments), table[..n]))
    ensures Retired(h, table, segments, partitions, table[n..], now, partitions - drop, drop)
  {
    hide IsCut, Archived, GoesOn;
  }

  lemma TwoHalves(table: seq<Row>, n: nat)
    requires n <= |table|
    ensures table == table[..n] + table[n..]
  {}

  lemma CutKeepsOrder(archived: seq<Row>, rows: seq<Row>, rest: seq<Row>)
    requires Ascending(LastSeq(None, archived), rows + rest)
    ensures Ascending(LastSeq(None, archived), rows)
    ensures Ascending(LastSeq(None, archived + rows), rest)
    ensures archived + rows + rest == archived + (rows + rest)
  {
    AscendingConcat(LastSeq(None, archived), rows, rest);
    AscendingConcat(None, archived, rows);
  }

  lemma CutKeepsDays(table: seq<Row>, partitions: set<int>, drop: set<int>, n: nat)
    requires IsCut(table, drop, n) && forall i :: 0 <= i < |table| ==> RowDay(table[i]) in partitions
    ensures forall i :: 0 <= i < |table[n..]| ==> RowDay(table[n..][i]) in partitions - drop
  {
    forall i | 0 <= i < |table[n..]| ensures RowDay(table[n..][i]) in partitions - drop {
      assert table[n..][i] == table[n + i];
    }
  }

  /** Writes the rows, if there are any, as one more segment. */
  method ArchiveRows(h: Linker, segments: seq<Segment>, rows: seq<Row>, size: nat, faults: Faults)
    returns (now: Option<seq<Segment>>)
    requires size > 0 && Tiles(segments) && Flagged(h, segments) && Ascending(LastSeq(None, Archived(segments)), rows)
    ensures now.Some? ==> Tiles(now.value) && Flagged(h, now.value) && Archived(now.value) == Archived(segments) + rows
    ensures NoFault(faults) ==> now.Some?
    ensures now.Some? && rows == [] ==> now.value == segments
    ensures now.Some? && rows != [] ==>
      && |now.value| == |segments| + 1 && now.value[..|segments|] == segments
      && var last := now.value[|segments|];
         && (last.chainOk <==> GoesOn(h, Archived(segments), rows)) && Packed(last.parts, size)
         && !faults.manifest && forall k :: 0 < k <= |last.parts| ==> !faults.part(k)
  {
    hide Packed, Split, Linked, Ascending;
    if rows == [] {
      return Some(segments);
    }
    var seg := ArchiveSegment(h, AnchorOf(segments), rows, size, faults);
    if seg.None? {
      return None;
    }
    SegmentHolds(rows, size, seg.value.chainOk);
    WalkFromAnchor(h, segments, rows);
    TilesExtend(segments, seg.value);
    FlaggedMore(h, segments, seg.value);
    return Some(segments + [seg.value]);
  }
}
