/** Relinking a broken chain: links and hashes are computed again over rows that are each
    still what they were hashed as; anything else is refused. */
module Rechain {
  import opened Common
  import opened Hashing
  import opened Chain
  import opened Writer

  // ---- what relinking is ----

  /** The same rows, linked one to the next from `prev`. */
  function Relinked(h: Linker, prev: Option<Hash>, rows: seq<Row>): seq<Row> {
    if rows == [] then []
    else
      var front, last := Relinked(h, prev, rows[..|rows| - 1]), rows[|rows| - 1];
      var link := HeadHash(prev, front);
      front + [Row(last.seqNo, last.content, link, h(link, last.content))]
  }

  predicate SelfConsistent(h: Linker, r: Row) { r.rowHash == h(r.prevHash, r.content) }

  predicate AllConsistent(h: Linker, rows: seq<Row>) { forall i :: 0 <= i < |rows| ==> SelfConsistent(h, rows[i]) }

  /** Nothing about a row changes but its link and its hash. */
  predicate SameButLink(a: Row, b: Row) { a.seqNo == b.seqNo && a.content == b.content }

  lemma {:induction false} RelinkedRows(h: Linker, prev: Option<Hash>, rows: seq<Row>)
    ensures |Relinked(h, prev, rows)| == |rows|
    ensures forall i :: 0 <= i < |rows| ==> SameButLink(rows[i], Relinked(h, prev, rows)[i])
  {
    if rows != [] {
      RelinkedRows(h, prev, rows[..|rows| - 1]);
    }
  }

  lemma {:induction false} RelinkedLinked(h: Linker, prev: Option<Hash>, rows: seq<Row>)
    ensures Linked(h, prev, Relinked(h, prev, rows))
  {
    if rows != [] {
      RelinkedLinked(h, prev, rows[..|rows| - 1]);
      var all, front := Relinked(h, prev, rows), Relinked(h, prev, rows[..|rows| - 1]);
      assert all[..|all| - 1] == front;
    }
  }

  /** A chain that is linked already is left as it is. */
  lemma {:induction false} LinkedStays(h: Linker, prev: Option<Hash>, rows: seq<Row>)
    requires Linked(h, prev, rows)
    ensures Relinked(h, prev, rows) == rows
  {
    if rows != [] {
      LinkedStays(h, prev, rows[..|rows| - 1]);
      assert rows == rows[..|rows| - 1] + [rows[|rows| - 1]];
    }
  }

  /** Relinking twice is relinking once. */
  lemma RelinkedIdempotent(h: Linker, prev: Option<Hash>, rows: seq<Row>)
    ensures Relinked(h, prev, Relinked(h, prev, rows)) == Relinked(h, prev, rows)
  {
    RelinkedLinked(h, prev, rows);
    LinkedStays(h, prev, Relinked(h, prev, rows));
  }

  lemma {:induction false} RelinkedPrefix(h: Linker, prev: Option<Hash>, rows: seq<Row>, n: nat)
    requires n <= |rows|
    ensures |Relinked(h, prev, rows)| == |rows| && Relinked(h, prev, rows)[..n] == Relinked(h, prev, rows[..n])
    decreases |rows|
  {
    RelinkedRows(h, prev, rows);
    if n == |rows| {
      assert rows[..n] == rows;
    } else {
      var front := rows[..|rows| - 1];
      RelinkedPrefix(h, prev, front, n);
      RelinkedRows(h, prev, front);
      assert front[..n] == rows[..n];
      assert Relinked(h, prev, rows)[..|front|] == Relinked(h, prev, front);
      assert Relinked(h, prev, rows)[..n] == Relinked(h, prev, rows)[..|front|][..n];
    }
  }

  /** Every row before the first break stays exactly as it is. */
  lemma BeforeBreakUntouched(h: Linker, prev: Option<Hash>, rows: seq<Row>, n: nat)
    requires n <= |rows| && Linked(h, prev, rows[..n])
    ensures |Relinked(h, prev, rows)| == |rows| && Relinked(h, prev, rows)[..n] == rows[..n]
  {
    RelinkedPrefix(h, prev, rows, n);
    LinkedStays(h, prev, rows[..n]);
  }

  lemma {:induction false} RelinkedAscending(h: Linker, prev: Option<Hash>, after: Option<int>, rows: seq<Row>)
    ensures Ascending(after, Relinked(h, prev, rows)) <==> Ascending(after, rows)
    ensures LastSeq(after, Relinked(h, prev, rows)) == LastSeq(after, rows)
  {
    if rows != [] {
      var front := rows[..|rows| - 1];
      RelinkedAscending(h, prev, after, front);
      var all := Relinked(h, prev, rows);
      assert all[..|all| - 1] == Relinked(h, prev, front);
    }
  }

  /** A relinked table verifies from the anchor exactly when its sequence numbers rise from
      above the anchor: numbers are the one thing relinking cannot mend. */
  lemma RelinkedVerifiesIff(h: Linker, anchor: Option<Anchor>, rows: seq<Row>)
    ensures var start := AnchoredWalk(anchor);
      WalkRows(h, start, Relinked(h, start.prev, rows)).broken.None? <==> Ascending(start.afterSeq, rows)
  {
    var start := AnchoredWalk(anchor);
    WalkOkIffIntact(h, start.prev, start.afterSeq, Relinked(h, start.prev, rows));
    RelinkedLinked(h, start.prev, rows);
    RelinkedAscending(h, start.prev, start.afterSeq, rows);
  }

  // ---- the updates ----

  /** `UPDATE ... SET prev_hash, row_hash WHERE seq AND ts`. */
  datatype Update = Update(prev: Option<Hash>, hash: Hash, seqNo: int, ts: Instant)

  function UpdateTo(r: Row): Update { Update(r.prevHash, r.rowHash, r.seqNo, r.content.ts) }

  function Updated(r: Row, u: Update): Row {
    if r.seqNo == u.seqNo && r.content.ts == u.ts then r.(prevHash := u.prev, rowHash := u.hash) else r
  }

  function UpdateAll(rows: seq<Row>, u: Update): seq<Row> {
    seq(|rows|, i requires 0 <= i < |rows| => Updated(rows[i], u))
  }

  /** The table's primary key. */
  predicate UniqueRows(rows: seq<Row>) {
    forall i, j :: 0 <= i < j < |rows| ==> rows[i].seqNo != rows[j].seqNo || rows[i].content.ts != rows[j].content.ts
  }

  /** How many rows differ. */
  function Differing(a: seq<Row>, b: seq<Row>): nat
    requires |a| == |b|
  {
    if a == [] then 0
    else Differing(a[..|a| - 1], b[..|b| - 1]) + (if a[|a| - 1] != b[|b| - 1] then 1 else 0)
  }

  lemma DifferingStep(a: seq<Row>, b: seq<Row>, n: nat)
    requires |a| == |b| && n < |a|
    ensures Differing(a[..n + 1], b[..n + 1]) == Differing(a[..n], b[..n]) + (if a[n] != b[n] then 1 else 0)
  {
    assert a[..n + 1][..n] == a[..n] && b[..n + 1][..n] == b[..n];
  }

  lemma {:induction false} NoneDiffer(a: seq<Row>, b: seq<Row>)
    requires |a| == |b|
    ensures Differing(a, b) == 0 <==> a == b
  {
    if a != [] {
      NoneDiffer(a[..|a| - 1], b[..|b| - 1]);
      assert a == a[..|a| - 1] + [a[|a| - 1]] && b == b[..|b| - 1] + [b[|b| - 1]];
    }
  }

  /** The updates are those of the rows that relinking changes, in order, each once. */
  ghost predicate Collected(h: Linker, prev: Option<Hash>, rows: seq<Row>, n: nat, updates: seq<Update>, at: seq<nat>) {
    var now := Relinked(h, prev, rows);
    && |now| == |rows| && n <= |rows| && |at| == |updates| == Differing(rows[..n], now[..n])
    && (forall j :: 0 <= j < |at| ==> at[j] < n && updates[j] == UpdateTo(now[at[j]]) && now[at[j]] != rows[at[j]])
    && (forall i :: 0 <= i < n && now[i] != rows[i] ==> i in at)
    && (forall i, j :: 0 <= i < j < |at| ==> at[i] < at[j])
  }

  lemma RelinkedAt(h: Linker, prev: Option<Hash>, rows: seq<Row>, i: nat)
    requires i < |rows|
    ensures |Relinked(h, prev, rows)| == |rows|
    ensures var link := HeadHash(prev, Relinked(h, prev, rows[..i]));
      Relinked(h, prev, rows)[i] == Row(rows[i].seqNo, rows[i].content, link, h(link, rows[i].content))
    ensures HeadHash(prev, Relinked(h, prev, rows[..i + 1])) == Some(Relinked(h, prev, rows)[i].rowHash)
  {
    RelinkedPrefix(h, prev, rows, i + 1);
    RelinkedRows(h, prev, rows[..i]);
    RelinkedRows(h, prev, rows[..i + 1]);
    assert rows[..i + 1][..i] == rows[..i];
    assert Relinked(h, prev, rows)[i] == Relinked(h, prev, rows)[..i + 1][i];
  }

  lemma CollectStep(h: Linker, prev: Option<Hash>, rows: seq<Row>, n: nat, updates: seq<Update>, at: seq<nat>)
    requires n < |rows| && Collected(h, prev, rows, n, updates, at)
    ensures var now := Relinked(h, prev, rows)[n];
      if now != rows[n] then Collected(h, prev, rows, n + 1, updates + [UpdateTo(now)], at + [n])
      else Collected(h, prev, rows, n + 1, updates, at)
  {
    DifferingStep(rows, Relinked(h, prev, rows), n);
    assert n in at + [n];
    assert forall i :: i in at ==> i in at + [n];
  }

  /** Goes through the rows in order, carrying the link, and stops at the first row that is
      not what it was hashed as. */
  method Collect(h: Linker, anchor: Option<Anchor>, rows: seq<Row>) returns (updates: seq<Update>, bad: Option<int>, ghost at: seq<nat>)
    ensures bad.None? <==> AllConsistent(h, rows)
    ensures bad.Some? ==>
      exists i :: 0 <= i < |rows| && rows[i].seqNo == bad.value && !SelfConsistent(h, rows[i]) && AllConsistent(h, rows[..i])
    ensures bad.None? <==> forall i :: 0 <= i < |rows| ==> rows[i].rowHash == h(rows[i].prevHash, rows[i].content)
    ensures bad.None? ==> Collected(h, AnchoredWalk(anchor).prev, rows, |rows|, updates, at)
    ensures |Relinked(h, AnchoredWalk(anchor).prev, rows)| == |rows|
    ensures bad.None? ==> |updates| == Differing(rows, Relinked(h, AnchoredWalk(anchor).prev, rows))
  {
    hide Collected, Relinked, Differing;
    ghost var start := AnchoredWalk(anchor).prev;
    NothingCollected(h, start, rows);
    var prev := if anchor.Some? then anchor.value.lastRowHash else None;
    updates, bad, at := [], None, [];
    var i := 0;
    while i < |rows|
      invariant i <= |rows| && AllConsistent(h, rows[..i])
      invariant prev == HeadHash(start, Relinked(h, start, rows[..i]))
      invariant Collected(h, start, rows, i, updates, at)
    {
      var r := rows[i];
      RelinkedAt(h, start, rows, i);
      if r.rowHash != h(r.prevHash, r.content) {
        return updates, Some(r.seqNo), at;
      }
      var newHash := h(prev, r.content);
      CollectStep(h, start, rows, i, updates, at);
      if newHash != r.rowHash || r.prevHash != prev {
        updates := updates + [Update(prev, newHash, r.seqNo, r.content.ts)];
        at := at + [i];
      }
      prev := Some(newHash);
      i := i + 1;
    }
    assert rows[..i] == rows;
    AllCollected(h, start, rows, updates, at);
  }

  lemma NothingCollected(h: Linker, prev: Option<Hash>, rows: seq<Row>)
    ensures Collected(h, prev, rows, 0, [], []) && |Relinked(h, prev, rows)| == |rows|
    ensures HeadHash(prev, Relinked(h, prev, rows[..0])) == prev
  {
    RelinkedRows(h, prev, rows);
    assert rows[..0] == [];
  }

  lemma AllCollected(h: Linker, prev: Option<Hash>, rows: seq<Row>, updates: seq<Update>, at: seq<nat>)
    requires Collected(h, prev, rows, |rows|, updates, at)
    ensures |Relinked(h, prev, rows)| == |rows| && |updates| == Differing(rows, Relinked(h, prev, rows))
  {
    assert rows[..|rows|] == rows && Relinked(h, prev, rows)[..|rows|] == Relinked(h, prev, rows);
  }

  /** After some of the updates: their rows are relinked, the others are as they were. */
  ghost predicate Partly(rows: seq<Row>, now: seq<Row>, cur: seq<Row>, done: seq<nat>) {
    && |rows| == |now| == |cur|
    && forall i :: 0 <= i < |rows| ==> cur[i] == if i in done then now[i] else rows[i]
  }

  lemma UpdateStep(h: Linker, prev: Option<Hash>, rows: seq<Row>, cur: seq<Row>, updates: seq<Update>, at: seq<nat>, m: nat)
    requires UniqueRows(rows) && Collected(h, prev, rows, |rows|, updates, at) && m < |at|
    requires Partly(rows, Relinked(h, prev, rows), cur, at[..m])
    ensures Partly(rows, Relinked(h, prev, rows), UpdateAll(cur, updates[m]), at[..m + 1])
  {
    var now, next := Relinked(h, prev, rows), UpdateAll(cur, updates[m]);
    RelinkedRows(h, prev, rows);
    assert at[..m + 1] == at[..m] + [at[m]];
    forall i | 0 <= i < |rows| ensures next[i] == if i in at[..m + 1] then now[i] else rows[i] {
      assert SameButLink(rows[i], now[i]) && SameButLink(rows[at[m]], now[at[m]]);
      if i != at[m] {
        assert rows[i].seqNo != rows[at[m]].seqNo || rows[i].content.ts != rows[at[m]].content.ts;
      }
    }
  }

  lemma AllUpdated(h: Linker, prev: Option<Hash>, rows: seq<Row>, cur: seq<Row>, updates: seq<Update>, at: seq<nat>)
    requires Collected(h, prev, rows, |rows|, updates, at) && Partly(rows, Relinked(h, prev, rows), cur, at)
    ensures cur == Relinked(h, prev, rows)
  {}

  lemma StillUnique(h: Linker, prev: Option<Hash>, rows: seq<Row>)
    requires UniqueRows(rows)
    ensures UniqueRows(Relinked(h, prev, rows))
  {
    RelinkedRows(h, prev, rows);
    var now := Relinked(h, prev, rows);
    forall i, j | 0 <= i < j < |now| ensures now[i].seqNo != now[j].seqNo || now[i].content.ts != now[j].content.ts {
      assert SameButLink(rows[i], now[i]) && SameButLink(rows[j], now[j]);
    }
  }

  datatype RechainResult = Refused(seqNo: int) | Rechained(rows: nat, relinked: nat, okBefore: bool, okAfter: bool)

  /** One chain's table and its archive's anchor. */
  class ChainTable {
    const h: Linker
    const anchor: Option<Anchor>
    var table: seq<Row>

    constructor (h: Linker, anchor: Option<Anchor>, table: seq<Row>)
      ensures this.h == h && this.anchor == anchor && this.table == table
    {
      this.h, this.anchor, this.table := h, anchor, table;
    }

    /** Relinks the table in `seq` order from the anchor, unless it verifies already or a row
        is not what it was hashed as. */
    method Rechain(dryRun: bool) returns (res: RechainResult)
      requires UniqueRows(table)
      modifies this
      ensures var start := AnchoredWalk(anchor);
        var whole := Linked(h, start.prev, old(table)) && Ascending(start.afterSeq, old(table));
        && (res.Refused? <==> !whole && !AllConsistent(h, old(table)))
        && (res.Refused? <==> !whole && exists i :: 0 <= i < |old(table)| && old(table)[i].rowHash != h(old(table)[i].prevHash, old(table)[i].content))
        && (res.Refused? ==> exists i :: 0 <= i < |old(table)| && old(table)[i].seqNo == res.seqNo
                              && !SelfConsistent(h, old(table)[i]) && AllConsistent(h, old(table)[..i]))
        && (res.Rechained? ==> res.okBefore == whole && res.rows == |old(table)|
                               && (res.okAfter <==> whole || dryRun || Ascending(start.afterSeq, old(table))))
        && |Relinked(h, start.prev, old(table))| == |old(table)|
        && (res.Rechained? ==> res.relinked == if whole then 0 else Differing(old(table), Relinked(h, start.prev, old(table))))
        && table == (if res.Rechained? && !whole && !dryRun then Relinked(h, start.prev, old(table)) else old(table))
        && UniqueRows(table)
    {
      RelinkedRows(h, AnchoredWalk(anchor).prev, table);
      var before := VerifyChain(h, anchor, table);
      if before.ok {
        return Rechained(before.checked, 0, true, true);
      }
      var updates, bad, at := Collect(h, anchor, table);
      if bad.Some? {
        return Refused(bad.value);
      }
      if !dryRun {
        Apply(updates, at);
      }
      StillUnique(h, AnchoredWalk(anchor).prev, old(table));
      RelinkedVerifiesIff(h, anchor, old(table));
      var after := VerifyChain(h, anchor, table);
      return Rechained(|table|, |updates|, false, dryRun || after.ok);
    }

    method Apply(updates: seq<Update>, ghost at: seq<nat>)
      requires UniqueRows(table) && Collected(h, AnchoredWalk(anchor).prev, table, |table|, updates, at)
      modifies this
      ensures table == Relinked(h, AnchoredWalk(anchor).prev, old(table))
    {
      ghost var prev, rows := AnchoredWalk(anchor).prev, table;
      var m := 0;
      while m < |updates|
        invariant m <= |updates| && Partly(rows, Relinked(h, prev, rows), table, at[..m])
      {
        UpdateStep(h, prev, rows, table, updates, at, m);
        table := UpdateAll(table, updates[m]);
        m := m + 1;
      }
      assert at[..m] == at;
      AllUpdated(h, prev, rows, table, updates, at);
    }
  }

  /** What is left after a repair that committed: the relinked table and, unless writing it
      failed, the marker at its end. */
  ghost predicate Repaired(h: Linker, start: Walk, was: seq<Row>, now: seq<Row>, marker: Content) {
    var linked := Relinked(h, start.prev, was);
    now == linked || (linked <= now && Contents(now) == Contents(linked) + [marker]
                      && Linked(h, start.prev, now))
  }

  /** The marker, written through the writer like any other row, continues the repaired
      chain. */
  lemma MarkerContinues(h: Linker, s: ChainState, marker: Content)
    requires Linked(h, AnchorHash(s.anchor), s.table) && KeyOf(marker) !in Keys(s.table)
    ensures var now := Written(h, s, [marker]).table;
      s.table <= now && Contents(now) == Contents(s.table) + [marker] && Linked(h, AnchorHash(s.anchor), now)
  {
    assert [marker][1..] == [];
    StoredIffKey(s.table, KeyOf(marker));
    FreshFollow(h, Seed(s), [marker]);
    OldRowsStay(h, Seed(s), [marker]);
    CleanBatchKeepsLinks(h, AnchorHash(s.anchor), Seed(s), None, [marker]);
  }

  /** Relinks, commits, then records the repair in a transaction of its own. A chain that
      still does not verify is rolled back; a marker that fails leaves the repair. */
  method Repair(db: ChainTable, dryRun: bool, marker: Content, nextSeq: int, markerFails: bool) returns (ok: bool)
    requires UniqueRows(db.table) && KeyOf(marker) !in Keys(db.table)
    modifies db
    ensures db.table == old(db.table) || (!dryRun && Repaired(db.h, AnchoredWalk(db.anchor), old(db.table), db.table, marker))
    ensures db.table != old(db.table) ==>
      AllConsistent(db.h, old(db.table)) && Ascending(AnchoredWalk(db.anchor).afterSeq, old(db.table))
    ensures ok && !dryRun ==> Linked(db.h, AnchoredWalk(db.anchor).prev, db.table)
    ensures !dryRun && AllConsistent(db.h, old(db.table)) && Ascending(AnchoredWalk(db.anchor).afterSeq, old(db.table)) ==>
      var linked := Linked(db.h, AnchoredWalk(db.anchor).prev, old(db.table));
      && (ok <==> linked || !markerFails)
      && (if linked then db.table == old(db.table)
          else if markerFails then db.table == Relinked(db.h, AnchoredWalk(db.anchor).prev, old(db.table))
          else Contents(db.table) == Contents(Relinked(db.h, AnchoredWalk(db.anchor).prev, old(db.table))) + [marker])
  {
    var was := db.table;
    ghost var prev := AnchoredWalk(db.anchor).prev;
    var res := db.Rechain(dryRun);
    if res.Refused? || dryRun {
      return res.Rechained?;
    }
    NoneDiffer(was, Relinked(db.h, prev, was));
    if Linked(db.h, prev, was) {
      LinkedStays(db.h, prev, was);
    }
    RelinkedLinked(db.h, prev, was);
    if res.relinked == 0 {
      return true;
    }
    if !res.okAfter {
      db.table := was;
      return false;
    }
    if markerFails {
      return false;
    }
    SameKeys(db.h, prev, was);
    var s := ChainState(db.table, db.anchor, {}, nextSeq);
    MarkerContinues(db.h, s, marker);
    db.table := Written(db.h, s, [marker]).table;
    return true;
  }

  lemma SameKeys(h: Linker, prev: Option<Hash>, rows: seq<Row>)
    ensures Keys(Relinked(h, prev, rows)) == Keys(rows)
  {
    RelinkedRows(h, prev, rows);
    KeysLength(rows);
    KeysLength(Relinked(h, prev, rows));
    var now := Relinked(h, prev, rows);
    forall i | 0 <= i < |rows| ensures Keys(now)[i] == Keys(rows)[i] {
      assert SameButLink(rows[i], now[i]);
    }
  }
}
