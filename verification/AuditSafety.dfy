/** Every run of the audit protocol keeps one chain, loses nothing and moves nothing. */
module AuditSafety {
  import opened Common
  import opened Hashing
  import opened Chain
  import opened Writer
  import opened Retention
  import opened AuditProtocol

  // ---- rows on other days do not matter ----

  lemma {:induction false} StoredHashClear(a: seq<Row>, b: seq<Row>, k: Key, days: set<int>)
    requires Clear(a, days) && k.ts.day in days
    ensures StoredHash(a + b, k) == StoredHash(b, k)
    decreases |b|, |a|
  {
    if b == [] {
      assert a + b == a;
      if a != [] {
        assert a[..|a| - 1] + [] == a[..|a| - 1];
        StoredHashClear(a[..|a| - 1], [], k, days);
      }
    } else {
      assert (a + b)[..|a + b| - 1] == a + b[..|b| - 1];
      StoredHashClear(a, b[..|b| - 1], k, days);
    }
  }

  function Behind(a: seq<Row>, s: Appending): Appending { s.(rows := a + s.rows) }

  lemma DayListed(batch: seq<Content>, i: nat)
    requires i < |batch|
    ensures batch[i].ts.day in DaysOf(batch)
  {}

  lemma DaysOfRest(batch: seq<Content>)
    requires batch != []
    ensures DaysOf(batch[1..]) <= DaysOf(batch)
  {}

  lemma {:induction false} InsertAllClear(h: Linker, a: seq<Row>, s: Appending, batch: seq<Content>, days: set<int>)
    requires Clear(a, days) && DaysOf(batch) <= days
    ensures InsertAll(h, Behind(a, s), batch) == Behind(a, InsertAll(h, s, batch))
    decreases batch
  {
    if batch != [] {
      DayListed(batch, 0);
      DaysOfRest(batch);
      StoredHashClear(a, s.rows, KeyOf(batch[0]), days);
      var next := InsertOne(h, s, batch[0]);
      assert InsertOne(h, Behind(a, s), batch[0]) == Behind(a, next);
      InsertAllClear(h, a, next, batch[1..], days);
    }
  }

  lemma HeadBehind(base: Option<Hash>, a: seq<Row>, b: seq<Row>)
    ensures HeadHash(base, a + b) == HeadHash(HeadHash(base, a), b)
  {}

  lemma {:induction false} WriteCallsClear(h: Linker, base: Option<Hash>, a: seq<Row>, s: Appending, calls: seq<seq<Content>>, days: set<int>)
    requires Clear(a, days) && CallsOn(calls, days)
    ensures WriteCalls(h, base, Behind(a, s), calls) == Behind(a, WriteCalls(h, HeadHash(base, a), s, calls))
  {
    if calls != [] {
      var front, last := calls[..|calls| - 1], calls[|calls| - 1];
      WriteCallsClear(h, base, a, s, front, days);
      WriteCallClear(h, base, a, WriteCalls(h, HeadHash(base, a), s, front), last, days);
    }
  }

  lemma WriteCallClear(h: Linker, base: Option<Hash>, a: seq<Row>, s: Appending, batch: seq<Content>, days: set<int>)
    requires Clear(a, days) && DaysOf(batch) <= days
    ensures WriteCall(h, base, Behind(a, s), batch) == Behind(a, WriteCall(h, HeadHash(base, a), s, batch))
  {
    HeadBehind(base, a, s.rows);
    InsertAllClear(h, a, s.(head := HeadHash(base, a + s.rows)), batch, days);
  }

  lemma {:induction false} StatAppend(a: seq<Row>, b: seq<Row>, d: int)
    requires Clear(b, {d})
    ensures StatOf(a + b, d) == StatOf(a, d)
  {
    if b == [] {
      assert a + b == a;
    } else {
      assert (a + b)[..|a + b| - 1] == a + b[..|b| - 1];
      StatAppend(a, b[..|b| - 1], d);
    }
  }

  lemma {:induction false} StatDrop(a: seq<Row>, b: seq<Row>, d: int)
    requires Clear(a, {d})
    ensures StatOf(a + b, d) == StatOf(b, d)
    decreases |b|, |a|
  {
    if b == [] {
      assert a + b == a;
      if a != [] {
        assert a[..|a| - 1] + [] == a[..|a| - 1];
        StatDrop(a[..|a| - 1], [], d);
      }
    } else {
      assert (a + b)[..|a + b| - 1] == a + b[..|b| - 1];
      StatDrop(a, b[..|b| - 1], d);
    }
  }

  lemma PickClear(a: seq<Row>, days: set<int>)
    requires Clear(a, days)
    ensures Pick(a, days, true) == [] && Pick(a, days, false) == a
  {
    PickNone(a, days, true);
    PickAll(a, days, false);
  }

  // ---- a writer's own statements ----

  lemma TableContinues(h: Linker, db: Db)
    requires DbOk(h, db)
    ensures Linked(h, Base(db), db.table) && Ascending(LastSeq(None, db.archive), db.table)
    ensures LastSeq(LastSeq(None, db.archive), db.table) == LastSeq(None, Log(db))
  {
    LinkedConcat(h, None, db.archive, db.table);
    AscendingConcat(None, db.archive, db.table);
  }

  lemma LockChainOk(h: Linker, db: Db, w: Tx, a: Action)
    requires DbOk(h, db) && w.Write? && WriterOk(h, db, w) && a.LockChain? && Ready(w, a)
    ensures WriterOk(h, db, WriterAfter(h, db, w, a))
  {
    if !w.chained {
      TableContinues(h, db);
      assert db.table + [] == db.table;
    }
  }

  lemma SeedHeadOk(h: Linker, db: Db, w: Tx, a: Action)
    requires w.Write? && WriterOk(h, db, w) && a.SeedHead? && Ready(w, a)
    requires CleanBatch(Keys(Private(db, w)), None, w.call.batch)
    ensures WriterOk(h, db, WriterAfter(h, db, w, a))
  {
    var rows := Private(db, w);
    var s := Appending(rows, HeadHash(Base(db), rows), db.nextSeq);
    assert w.call.batch[0..] == w.call.batch;
    CleanBatchKeepsLinks(h, Base(db), s, None, w.call.batch);
  }

  lemma InsertOk(h: Linker, db: Db, w: Tx, a: Action)
    requires w.Write? && WriterOk(h, db, w) && a.Insert? && Ready(w, a)
    ensures WriterOk(h, DbAfter(h, db, w, a), WriterAfter(h, db, w, a))
  {
    var batch, done := w.call.batch, w.call.done;
    var s, c := Appending(Private(db, w), w.call.head, db.nextSeq), batch[done];
    var next, now := NextInsert(h, db, w), WriterAfter(h, db, w, a);
    NextInsertGrows(h, db, w);
    assert batch[done..][1..] == batch[done + 1..];
    assert Private(db, now) == next.rows by {
      assert next.rows[..|db.table|] == db.table;
    }
    DayListed(batch, done);
    InsertOneKeeps(h, s, LastSeq(None, db.archive), c);
    InsertedOn(h, s, c, db.table, w.mine, w.held);
  }

  lemma InsertOneKeeps(h: Linker, s: Appending, after: Option<int>, c: Content)
    requires Ascending(after, s.rows)
    requires LastSeq(after, s.rows).Some? ==> LastSeq(after, s.rows).value < s.nextSeq
    ensures var next := InsertOne(h, s, c);
      && Ascending(after, next.rows)
      && (LastSeq(after, next.rows).Some? ==> LastSeq(after, next.rows).value < next.nextSeq)
  {
    var next := InsertOne(h, s, c);
    assert next.rows != s.rows ==> next.rows[..|next.rows| - 1] == s.rows;
  }

  lemma InsertedOn(h: Linker, s: Appending, c: Content, table: seq<Row>, mine: seq<Row>, held: set<int>)
    requires s.rows == table + mine && On(mine, held) && c.ts.day in held
    ensures On(InsertOne(h, s, c).rows[|table|..], held)
  {
    var rows := InsertOne(h, s, c).rows;
    forall i | 0 <= i < |rows[|table|..]| ensures RowDay(rows[|table|..][i]) in held {
      assert rows[|table|..][i] == rows[|table| + i];
      if i < |mine| {
        assert rows[|table| + i] == mine[i];
      }
    }
  }

  lemma EndCallOk(h: Linker, db: Db, w: Tx, a: Action)
    requires w.Write? && WriterOk(h, db, w) && a.EndCall? && Ready(w, a)
    ensures WriterOk(h, db, WriterAfter(h, db, w, a))
  {
    var now := WriterAfter(h, db, w, a);
    assert now.written[..|w.written|] == w.written;
    assert w.call.batch[w.call.done..] == [];
  }

  lemma OnMore(rows: seq<Row>, calls: seq<seq<Content>>, days: set<int>, d: int)
    requires On(rows, days) && CallsOn(calls, days)
    ensures On(rows, days + {d}) && CallsOn(calls, days + {d})
  {}

  lemma LockDayOk(h: Linker, db: Db, w: Tx, a: Action)
    requires w.Write? && WriterOk(h, db, w) && a.LockDay? && Ready(w, a)
    ensures WriterOk(h, db, WriterAfter(h, db, w, a))
  {
    OnMore(w.mine, w.written, w.held, a.day);
    var now := WriterAfter(h, db, w, a);
    assert w.chained ==> Doing(h, db, now) == Doing(h, db, w) && Asked(h, db, now) == Asked(h, db, w);
  }

  lemma CallOkStep(h: Linker, db: Db, w: Tx, a: Action)
    requires w.Write? && WriterOk(h, db, w) && a.Call? && Ready(w, a)
    ensures WriterOk(h, db, WriterAfter(h, db, w, a))
  {
    var now := WriterAfter(h, db, w, a);
    assert w.chained ==> Doing(h, db, now) == Doing(h, db, w) && Asked(h, db, now) == Asked(h, db, w);
  }

  /** What a writer does before it commits keeps its own promise. */
  lemma WriterStepOk(h: Linker, db: Db, w: Tx, a: Action)
    requires DbOk(h, db) && w.Write? && WriterOk(h, db, w) && Ready(w, a) && !Ends(a)
    requires a.SeedHead? ==> CleanBatch(Keys(Private(db, w)), None, w.call.batch)
    ensures WriterOk(h, DbAfter(h, db, w, a), WriterAfter(h, db, w, a))
  {
    match a
    case Call(_, _) => CallOkStep(h, db, w, a);
    case LockDay(_, _) => LockDayOk(h, db, w, a);
    case LockChain(_) => LockChainOk(h, db, w, a);
    case SeedHead(_) => SeedHeadOk(h, db, w, a);
    case Insert(_) => InsertOk(h, db, w, a);
    case EndCall(_) => EndCallOk(h, db, w, a);
  }

  // ---- a retention run's own statements ----

  lemma RelistOk(h: Linker, db: Db, r: Tx, a: Action)
    requires DbOk(h, db) && r.Run? && RunOk(db, r) && a.Relist? && Ready(r, a)
    requires Aged(db, r.cutoff) <= r.held
    ensures RunOk(db, RunAfter(db, r, a))
  {}

  lemma ReadStatOk(db: Db, r: Tx, a: Action)
    requires r.Run? && RunOk(db, r) && a.ReadStat? && Ready(r, a)
    ensures RunOk(db, RunAfter(db, r, a))
  {}

  lemma ReadKeptOk(db: Db, r: Tx, a: Action)
    requires r.Run? && RunOk(db, r) && a.ReadKept? && Ready(r, a)
    ensures RunOk(db, RunAfter(db, r, a))
  {
    KeptMinMeaning(db.table, r.cutoff);
  }

  /** Statistics read one by one, the kept minimum after them, and rows arriving all the
      while: a safe choice still holds a prefix of the table. */
  lemma SelectCuts(db: Db, after: Option<int>, r: Tx, drop: set<int>)
    requires r.Run? && r.phase.Reading? && RunOk(db, r) && r.phase.kept.Some?
    requires Ascending(after, db.table) && Selects(r.phase.stats, r.phase.kept.value, drop)
    ensures Cuts(db.table, drop)
  {
    var table := db.table;
    AscendingPairwise(after, table);
    forall i, j | 0 <= i < |table| && 0 <= j < |table| && RowDay(table[i]) in drop && RowDay(table[j]) !in drop
      ensures i < j
    {
      SelectedComesFirst(db, after, r, drop, i, j);
      assert table[i].seqNo <= table[j].seqNo || i < j;
    }
    PrefixFromOrder(table, drop);
  }

  lemma SelectedComesFirst(db: Db, after: Option<int>, r: Tx, drop: set<int>, i: nat, j: nat)
    requires r.Run? && r.phase.Reading? && RunOk(db, r) && r.phase.kept.Some?
    requires Ascending(after, db.table) && Selects(r.phase.stats, r.phase.kept.value, drop)
    requires i < |db.table| && j < |db.table| && RowDay(db.table[i]) in drop && RowDay(db.table[j]) !in drop
    ensures i < j || db.table[i].seqNo <= db.table[j].seqNo
  {
    var stats, kept := r.phase.stats, r.phase.kept.value;
    var d, e := RowDay(db.table[i]), RowDay(db.table[j]);
    var p := stats[d];
    StatMeaning(db.table, d);
    assert p in StatSet(stats, drop);
    if |db.archive| + j >= r.phase.mark {
    } else if e < r.cutoff {
      StatMeaning(db.table, e);
      var q := stats[e];
      assert q in StatSet(stats, stats.Keys);
      assert q !in StatSet(stats, drop) by {
        forall x | x in drop ensures stats[x] != q {
          StatMeaning(db.table, x);
        }
      }
      assert !Late(p, q.minSeq);
    } else {
      assert !Late(p, kept.value);
    }
  }

  /** The step takes exactly what the method that chooses partitions returns. */
  lemma MethodSelects(stats: map<int, PartStat>, kept: Option<int>, drop: set<PartStat>)
    requires forall d :: d in stats ==> stats[d].day == d
    requires Safe(drop, StatSet(stats, stats.Keys), kept)
    requires forall d :: Safe(d, StatSet(stats, stats.Keys), kept) ==> d <= drop
    ensures Selects(stats, kept, DaysIn(drop))
  {
    forall x | x in DaysIn(drop) ensures x in stats {
      var p := OwnerOf(drop, x);
    }
    assert StatSet(stats, DaysIn(drop)) == drop by {
      forall p | p in drop ensures p in StatSet(stats, DaysIn(drop)) {
        assert p.day in DaysIn(drop) && stats[p.day] == p;
      }
      forall p | p in StatSet(stats, DaysIn(drop)) ensures p in drop {
        var x :| x in DaysIn(drop) && stats[x] == p;
        var q := OwnerOf(drop, x);
        assert stats[x] == q;
      }
    }
  }

  lemma RunStepOk(h: Linker, db: Db, r: Tx, a: Action)
    requires DbOk(h, db) && r.Run? && RunOk(db, r) && Ready(r, a) && !Ends(a)
    requires a.Relist? ==> Aged(db, r.cutoff) <= r.held
    ensures RunOk(db, RunAfter(db, r, a))
  {
    match a
    case LockAged(_, _) =>
    case Relist(_) => RelistOk(h, db, r, a);
    case ReadStat(_, _) => ReadStatOk(db, r, a);
    case ReadKept(_) => ReadKeptOk(db, r, a);
    case Select(_, drop) =>
      TableContinues(h, db);
      SelectCuts(db, LastSeq(None, db.archive), r, drop);
      SelectedDays(r.phase.stats, r.phase.kept.value, drop);
    case Stream(_) =>
  }

  lemma SelectedDays(stats: map<int, PartStat>, kept: Option<int>, drop: set<int>)
    requires Selects(stats, kept, drop)
    ensures drop <= stats.Keys
  {}

  // ---- what one transaction's step does to the others ----

  lemma OthersAfterInsert(h: Linker, db: Db, tx: Tx)
    requires TxOk(h, db, tx) && !HasChain(tx)
    ensures TxOk(h, db.(nextSeq := db.nextSeq + 1), tx)
  {}

  lemma OthersAfterAppend(h: Linker, db: Db, rows: seq<Row>, days: set<int>, tx: Tx)
    requires TxOk(h, db, tx) && !HasChain(tx)
    requires On(rows, days) && tx.held !! days
    ensures TxOk(h, db.(table := db.table + rows, partitions := db.partitions + days), tx)
  {
    if tx.Run? {
      match tx.phase
      case Listed(_) =>
      case Reading(listed, mark, stats, kept) =>
        forall d | d in stats ensures stats[d] == StatOf(db.table + rows, d) {
          StatAppend(db.table, rows, d);
        }
      case Planned(drop) => CutsAppend(db.table, rows, drop);
      case Streamed(drop, _) =>
        CutsAppend(db.table, rows, drop);
        PickConcat(db.table, rows, drop, true);
        PickClear(rows, drop);
    }
  }

  lemma CutsAppend(table: seq<Row>, rows: seq<Row>, drop: set<int>)
    requires Cuts(table, drop) && Clear(rows, drop)
    ensures Cuts(table + rows, drop)
  {
    var n :| IsCut(table, drop, n);
    assert IsCut(table + rows, drop, n);
  }

  function Dropped(db: Db, drop: set<int>, n: nat): Db
    requires n <= |db.table|
  {
    Db(db.archive + db.table[..n], db.table[n..], db.nextSeq, db.partitions - drop)
  }

  lemma CutsDrop(table: seq<Row>, drop: set<int>, n: nat, other: set<int>)
    requires IsCut(table, drop, n) && Cuts(table, other) && drop !! other
    ensures Cuts(table[n..], other)
  {
    var m :| IsCut(table, other, m);
    var rest := table[n..];
    assert forall i :: 0 <= i < |rest| ==> rest[i] == table[n + i];
    if n == 0 {
      assert rest == table;
    } else {
      assert RowDay(table[0]) in drop;
      assert m == 0;
      assert IsCut(rest, other, 0);
    }
  }

  lemma CutClear(table: seq<Row>, drop: set<int>, n: nat, other: set<int>)
    requires IsCut(table, drop, n) && drop !! other
    ensures Clear(table[..n], other)
  {
    forall i | 0 <= i < n ensures RowDay(table[..n][i]) !in other {
      assert table[..n][i] == table[i];
    }
  }

  lemma StatsAfterDrop(table: seq<Row>, drop: set<int>, n: nat, stats: map<int, PartStat>)
    requires IsCut(table, drop, n) && stats.Keys !! drop && StatsHold(table, stats)
    ensures StatsHold(table[n..], stats)
  {
    assert table[..n] + table[n..] == table;
    forall d | d in stats ensures stats[d] == StatOf(table[n..], d) {
      CutClear(table, drop, n, {d});
      StatDrop(table[..n], table[n..], d);
    }
  }

  lemma PickAfterDrop(table: seq<Row>, drop: set<int>, n: nat, other: set<int>)
    requires IsCut(table, drop, n) && drop !! other
    ensures Pick(table[n..], other, true) == Pick(table, other, true)
  {
    CutClear(table, drop, n, other);
    assert table[..n] + table[n..] == table;
    PickConcat(table[..n], table[n..], other, true);
    PickClear(table[..n], other);
    assert [] + Pick(table[n..], other, true) == Pick(table[n..], other, true);
  }

  lemma MarkedAfterDrop(db: Db, drop: set<int>, n: nat, cutoff: int, listed: set<int>, mark: nat)
    requires n <= |db.table| && Marked(db, cutoff, listed, mark) && mark <= |Log(db)|
    ensures Marked(Dropped(db, drop, n), cutoff, listed, mark) && mark <= |Log(Dropped(db, drop, n))|
  {
    var now := Dropped(db, drop, n);
    assert forall j :: 0 <= j < |now.table| ==> now.table[j] == db.table[n + j];
  }

  lemma KeptAfterDrop(db: Db, drop: set<int>, n: nat, cutoff: int, mark: nat, kept: Option<int>)
    requires n <= |db.table| && KeptBelow(db, cutoff, mark, kept)
    ensures KeptBelow(Dropped(db, drop, n), cutoff, mark, kept)
  {
    var now := Dropped(db, drop, n);
    assert forall j :: 0 <= j < |now.table| ==> now.table[j] == db.table[n + j];
  }

  lemma RunAfterDrop(db: Db, drop: set<int>, n: nat, r: Tx)
    requires r.Run? && RunOk(db, r) && IsCut(db.table, drop, n) && drop !! r.held
    ensures RunOk(Dropped(db, drop, n), r)
  {
    match r.phase
    case Listed(_) =>
    case Reading(listed, mark, stats, kept) =>
      StatsAfterDrop(db.table, drop, n, stats);
      MarkedAfterDrop(db, drop, n, r.cutoff, listed, mark);
      if kept.Some? {
        KeptAfterDrop(db, drop, n, r.cutoff, mark, kept.value);
      }
    case Planned(other) => CutsDrop(db.table, drop, n, other);
    case Streamed(other, _) =>
      CutsDrop(db.table, drop, n, other);
      PickAfterDrop(db.table, drop, n, other);
  }

  lemma WriterAfterDrop(h: Linker, db: Db, drop: set<int>, n: nat, w: Tx)
    requires w.Write? && WriterOk(h, db, w) && IsCut(db.table, drop, n) && drop !! w.held
    ensures WriterOk(h, Dropped(db, drop, n), w)
  {
    if w.chained {
      var gone, now := db.table[..n], Dropped(db, drop, n);
      CutClear(db.table, drop, n, w.held);
      assert db.table == gone + now.table && Private(db, w) == gone + Private(now, w);
      HeadBehind(None, db.archive, gone);
      DoingAfterDrop(h, db, gone, now, w);
      AskedAfterDrop(h, db, gone, now, w);
      Cancel(gone, Doing(h, now, w).rows, Asked(h, now, w).rows);
      LinkedConcat(h, Base(db), gone, Doing(h, now, w).rows);
      AscendingConcat(LastSeq(None, db.archive), gone, Private(now, w));
      AscendingConcat(None, db.archive, gone);
    }
  }

  lemma Cancel(a: seq<Row>, b: seq<Row>, c: seq<Row>)
    requires a + b == a + c
    ensures b == c
  {
    assert (a + b)[|a|..] == b && (a + c)[|a|..] == c;
  }

  lemma DoingAfterDrop(h: Linker, db: Db, gone: seq<Row>, now: Db, w: Tx)
    requires w.Write? && CallOk(w) && Clear(gone, w.held) && now.nextSeq == db.nextSeq
    requires Private(db, w) == gone + Private(now, w)
    ensures Doing(h, db, w).rows == gone + Doing(h, now, w).rows && Doing(h, db, w).nextSeq == Doing(h, now, w).nextSeq
  {
    if w.call.Inserting? {
      var rest := w.call.batch[w.call.done..];
      assert DaysOf(rest) <= w.held by {
        assert forall i :: 0 <= i < |rest| ==> rest[i] == w.call.batch[w.call.done + i];
      }
      InsertAllClear(h, gone, Appending(Private(now, w), w.call.head, db.nextSeq), rest, w.held);
    }
  }

  lemma AskedAfterDrop(h: Linker, db: Db, gone: seq<Row>, now: Db, w: Tx)
    requires w.Write? && CallOk(w) && CallsOn(w.written, w.held) && Clear(gone, w.held)
    requires db.table == gone + now.table && Base(now) == HeadHash(Base(db), gone)
    ensures Asked(h, db, w) == Behind(gone, Asked(h, now, w))
  {
    var s := Appending(now.table, None, w.from);
    WriteCallsClear(h, Base(db), gone, s, w.written, w.held);
    if w.call.Inserting? {
      WriteCallClear(h, Base(db), gone, WriteCalls(h, Base(now), s, w.written), w.call.batch, w.held);
    }
  }

  // ---- commits ----

  lemma CommitWriteOk(h: Linker, db: Db, w: Tx)
    requires DbOk(h, db) && w.Write? && WriterOk(h, db, w) && w.call.Idle?
    ensures DbOk(h, db.(table := Private(db, w), partitions := db.partitions + w.held))
  {
    if w.chained {
      LinkedConcat(h, None, db.archive, db.table);
      AscendingConcat(None, db.archive, db.table);
      LinkedConcat(h, None, db.archive, Private(db, w));
      AscendingConcat(None, db.archive, Private(db, w));
    } else {
      assert Private(db, w) == db.table;
    }
  }

  lemma DropOk(h: Linker, db: Db, drop: set<int>, n: nat)
    requires DbOk(h, db) && IsCut(db.table, drop, n)
    ensures DbOk(h, Dropped(db, drop, n)) && Log(Dropped(db, drop, n)) == Log(db)
  {
    CutKeepsDays(db.table, db.partitions, drop, n);
    TwoHalves(db.table, n);
    Regrouped(db.archive, db.table[..n], db.table[n..]);
  }

  lemma Regrouped(a: seq<Row>, b: seq<Row>, c: seq<Row>)
    ensures a + b + c == a + (b + c)
  {}

  /** A committed run drops the rows it archived, and no others. */
  lemma CommitRunCuts(h: Linker, db: Db, r: Tx, a: Action) returns (n: nat)
    requires DbOk(h, db) && r.Run? && RunOk(db, r) && a.CommitRun? && Ready(r, a)
    ensures IsCut(db.table, r.phase.drop, n) && DbAfter(h, db, r, a) == Dropped(db, r.phase.drop, n)
  {
    n :| IsCut(db.table, r.phase.drop, n);
    CutSplits(db.table, r.phase.drop, n);
  }

  // ---- every step ----

  lemma DbStepOk(h: Linker, s: Sys, a: Action)
    requires Good(h, s) && Enabled(s, a) && !a.Begin? && !a.StartRun?
    ensures DbOk(h, DbAfter(h, s.db, s.txs[a.t], a))
  {
    var tx := s.txs[a.t];
    if a.CommitWrite? {
      CommitWriteOk(h, s.db, tx);
    } else if a.CommitRun? {
      var n := CommitRunCuts(h, s.db, tx, a);
      DropOk(h, s.db, tx.phase.drop, n);
    }
  }

  lemma OthersAfterCommitWrite(h: Linker, db: Db, w: Tx, a: Action, tx: Tx)
    requires w.Write? && WriterOk(h, db, w) && a.CommitWrite? && Ready(w, a)
    requires TxOk(h, db, tx) && w.held !! tx.held && !(w.chained && HasChain(tx))
    ensures TxOk(h, DbAfter(h, db, w, a), tx)
  {
    if w.chained {
      OthersAfterAppend(h, db, w.mine, w.held, tx);
    } else {
      assert Private(db, w) == db.table;
      assert TxOk(h, db.(partitions := db.partitions + w.held), tx);
    }
  }

  lemma OthersAfterCommitRun(h: Linker, db: Db, r: Tx, a: Action, tx: Tx)
    requires DbOk(h, db) && r.Run? && RunOk(db, r) && a.CommitRun? && Ready(r, a)
    requires TxOk(h, db, tx) && r.held !! tx.held
    ensures TxOk(h, DbAfter(h, db, r, a), tx)
  {
    var n := CommitRunCuts(h, db, r, a);
    if tx.Run? {
      RunAfterDrop(db, r.phase.drop, n, tx);
    } else {
      WriterAfterDrop(h, db, r.phase.drop, n, tx);
    }
  }

  lemma OtherStepOk(h: Linker, s: Sys, a: Action, u: nat)
    requires Good(h, s) && Enabled(s, a) && !a.Begin? && !a.StartRun?
    requires u in s.txs && u != a.t
    ensures TxOk(h, DbAfter(h, s.db, s.txs[a.t], a), s.txs[u])
  {
    hide WriterOk, RunOk, DbOk;
    var tx := s.txs[a.t];
    assert tx.held !! s.txs[u].held && !(HasChain(tx) && HasChain(s.txs[u]));
    assert TxOk(h, s.db, tx);
    if a.Insert? {
      InserterHasChain(h, s.db, tx, a);
      OthersAfterInsert(h, s.db, s.txs[u]);
    } else if a.CommitWrite? {
      OthersAfterCommitWrite(h, s.db, tx, a, s.txs[u]);
    } else if a.CommitRun? {
      OthersAfterCommitRun(h, s.db, tx, a, s.txs[u]);
    }
  }

  lemma InserterHasChain(h: Linker, db: Db, w: Tx, a: Action)
    requires w.Write? && WriterOk(h, db, w) && a.Insert? && Ready(w, a)
    ensures HasChain(w)
  {}

  lemma OwnStepOk(h: Linker, s: Sys, a: Action)
    requires Good(h, s) && Enabled(s, a) && CleanSeed(s, a) && LockedRelist(s, a) && !a.Begin? && !a.StartRun? && !Ends(a)
    ensures TxOk(h, Next(h, s, a).db, Next(h, s, a).txs[a.t])
  {
    var tx := s.txs[a.t];
    if tx.Write? {
      WriterStepOk(h, s.db, tx, a);
    } else {
      RunStepOk(h, s.db, tx, a);
    }
  }

  lemma LocksExclusive(h: Linker, s: Sys, a: Action)
    requires Exclusive(s.txs) && Enabled(s, a)
    ensures Exclusive(Next(h, s, a).txs)
  {
    if !a.Begin? && !a.StartRun? && !Ends(a) {
      LocksGrow(h, s, a);
    }
  }

  lemma LocksGrow(h: Linker, s: Sys, a: Action)
    requires Enabled(s, a) && !a.Begin? && !a.StartRun? && !Ends(a)
    ensures var tx, now := s.txs[a.t], Next(h, s, a).txs[a.t];
      && now.held == tx.held + (if a.LockDay? || a.LockAged? then {a.day} else {})
      && (HasChain(now) <==> HasChain(tx) || a.LockChain?)
  {}

  /** Whatever any transaction does next, the invariant stays. */
  lemma StepKeepsGood(h: Linker, s: Sys, a: Action)
    requires Good(h, s) && CleanSeed(s, a) && LockedRelist(s, a)
    ensures Good(h, Next(h, s, a))
  {
    if Enabled(s, a) {
      LocksExclusive(h, s, a);
      if a.Begin? || a.StartRun? {
        assert TxOk(h, s.db, Next(h, s, a).txs[a.t]);
      } else {
        DbStepOk(h, s, a);
        var now := Next(h, s, a);
        forall u | u in now.txs ensures TxOk(h, now.db, now.txs[u]) {
          if u == a.t {
            OwnStepOk(h, s, a);
          } else {
            OtherStepOk(h, s, a, u);
          }
        }
      }
    }
  }

  // ---- transactions happen one at a time ----

  /** What a step does to what is committed. A writer's commit has the effect of its batch
      calls made alone, at that moment, on what is committed; a run's commit moves a
      prefix of the table behind the archive; no other step shows. */
  ghost predicate Atomic(h: Linker, s: Sys, a: Action, now: Db) {
    var db := s.db;
    if Enabled(s, a) && a.CommitWrite? then
      var w := s.txs[a.t];
      now.archive == db.archive
      && now.table == WriteCalls(h, Base(db), Appending(db.table, None, w.from), w.written).rows
    else if Enabled(s, a) && a.CommitRun? then
      exists n :: IsCut(db.table, s.txs[a.t].phase.drop, n)
        && now.archive == db.archive + db.table[..n] && now.table == db.table[n..]
    else now.archive == db.archive && now.table == db.table
  }

  lemma StepsAreAtomic(h: Linker, s: Sys, a: Action)
    requires Good(h, s)
    ensures Atomic(h, s, a, Next(h, s, a).db)
    ensures Log(s.db) <= Log(Next(h, s, a).db) && s.db.archive <= Next(h, s, a).db.archive
  {
    if Enabled(s, a) && a.CommitWrite? {
      var w := s.txs[a.t];
      assert TxOk(h, s.db, w);
      assert !w.chained ==> Private(s.db, w) == s.db.table;
      Regrouped(s.db.archive, s.db.table, w.mine);
    } else if Enabled(s, a) && a.CommitRun? {
      assert TxOk(h, s.db, s.txs[a.t]);
      var n := CommitRunCuts(h, s.db, s.txs[a.t], a);
      DropOk(h, s.db, s.txs[a.t].phase.drop, n);
    }
  }

  // ---- no event twice ----

  lemma {:induction false} CallsKeepDistinct(h: Linker, base: Option<Hash>, a: Appending, calls: seq<seq<Content>>)
    requires Distinct(Keys(a.rows))
    ensures Distinct(Keys(WriteCalls(h, base, a, calls).rows))
  {
    if calls != [] {
      var before := WriteCalls(h, base, a, calls[..|calls| - 1]);
      CallsKeepDistinct(h, base, a, calls[..|calls| - 1]);
      KeysStored(h, before.(head := HeadHash(base, before.rows)), calls[|calls| - 1]);
    }
  }

  lemma {:induction false} DistinctRest(table: seq<Row>, n: nat)
    requires n <= |table| && Distinct(Keys(table))
    ensures Distinct(Keys(table[n..]))
  {
    assert table == table[..n] + table[n..];
    KeysConcat(table[..n], table[n..]);
    KeysLength(table[..n]);
    assert forall i :: 0 <= i < |Keys(table[n..])| ==> Keys(table[n..])[i] == Keys(table)[n + i];
  }

  lemma AtomicKeepsDistinct(h: Linker, s: Sys, a: Action, now: Db)
    requires Atomic(h, s, a, now) && Distinct(Keys(s.db.table))
    ensures Distinct(Keys(now.table))
  {
    if Enabled(s, a) && a.CommitWrite? {
      var w := s.txs[a.t];
      CallsKeepDistinct(h, Base(s.db), Appending(s.db.table, None, w.from), w.written);
    } else if Enabled(s, a) && a.CommitRun? {
      var n :| IsCut(s.db.table, s.txs[a.t].phase.drop, n)
        && now.archive == s.db.archive + s.db.table[..n] && now.table == s.db.table[n..];
      DistinctRest(s.db.table, n);
    }
  }

  /** After a commit every event of every batch it wrote is stored. */
  lemma {:induction false} CallsStoreTheirKeys(h: Linker, base: Option<Hash>, a: Appending, calls: seq<seq<Content>>, i: nat, j: nat)
    requires i < |calls| && j < |calls[i]|
    ensures KeyOf(calls[i][j]) in Keys(WriteCalls(h, base, a, calls).rows)
    decreases calls
  {
    var front, last := calls[..|calls| - 1], calls[|calls| - 1];
    var before := WriteCalls(h, base, a, front);
    var seeded := before.(head := HeadHash(base, before.rows));
    if i < |front| {
      CallsStoreTheirKeys(h, base, a, front, i, j);
      KeysStored(h, seeded, last);
      InPrefix(Keys(seeded.rows), Keys(InsertAll(h, seeded, last).rows), KeyOf(calls[i][j]));
    } else {
      BatchKeysStored(h, seeded, last, j);
    }
  }

  // ---- whole runs ----

  const NOTHING_YET := Sys(Db([], [], 1, {}), map[])

  lemma StartIsGood(h: Linker)
    ensures Good(h, NOTHING_YET) && Distinct(Keys(NOTHING_YET.db.table))
  {}

  lemma {:induction false} RunsStayGood(h: Linker, s: Sys, acts: seq<Action>)
    requires Good(h, s) && Distinct(Keys(s.db.table))
    requires Throughout(h, s, acts, CleanSeed) && Throughout(h, s, acts, LockedRelist)
    ensures Good(h, After(h, s, acts)) && Distinct(Keys(After(h, s, acts).db.table))
  {
    if acts != [] {
      var front, last := acts[..|acts| - 1], acts[|acts| - 1];
      RunsStayGood(h, s, front);
      StepKeepsGood(h, After(h, s, front), last);
      StepsAreAtomic(h, After(h, s, front), last);
      AtomicKeepsDistinct(h, After(h, s, front), last, After(h, s, acts).db);
    }
  }

  lemma {:induction false} LogOnlyGrows(h: Linker, s: Sys, acts: seq<Action>, k: nat)
    requires Good(h, s) && Distinct(Keys(s.db.table)) && k <= |acts|
    requires Throughout(h, s, acts, CleanSeed) && Throughout(h, s, acts, LockedRelist)
    ensures Log(After(h, s, acts[..k]).db) <= Log(After(h, s, acts).db)
    ensures After(h, s, acts[..k]).db.archive <= After(h, s, acts).db.archive
    decreases |acts|
  {
    if k == |acts| {
      assert acts[..k] == acts;
    } else {
      var front := acts[..|acts| - 1];
      assert front[..k] == acts[..k];
      LogOnlyGrows(h, s, front, k);
      RunsStayGood(h, s, front);
      StepsAreAtomic(h, After(h, s, front), acts[|acts| - 1]);
    }
  }

  lemma RowsStayPut(early: seq<Row>, archive: seq<Row>, table: seq<Row>, after: Option<int>)
    requires early <= archive + table && Ascending(None, archive + table)
    ensures forall r :: r in early ==> r in archive || r in table
    ensures forall i, j :: 0 <= i < |archive| && 0 <= j < |table| ==> archive[i].seqNo < table[j].seqNo
    ensures forall r :: r in archive ==> r !in table
  {
    var log := archive + table;
    AscendingPairwise(None, log);
    forall i, j | 0 <= i < |archive| && 0 <= j < |table| ensures archive[i].seqNo < table[j].seqNo {
      assert log[i] == archive[i] && log[|archive| + j] == table[j];
    }
    forall r | r in early ensures r in archive || r in table {
      assert r in log;
    }
  }

  /** Any number of writers and retention runs, any interleaving of their statements, any
      of them aborted anywhere. The archive followed by the table is one intact chain from
      its first row; every row ever committed is still there, unchanged, at the same place
      in the chain, and is either archived or in the table; no event is in the table twice;
      and the table verifies from the archive's last link. */
  lemma OneChain(h: Linker, acts: seq<Action>, k: nat)
    requires k <= |acts|
    requires Throughout(h, NOTHING_YET, acts, CleanSeed) && Throughout(h, NOTHING_YET, acts, LockedRelist)
    ensures var early, late := After(h, NOTHING_YET, acts[..k]).db, After(h, NOTHING_YET, acts).db;
      && Linked(h, None, late.archive + late.table)
      && Ascending(None, late.archive + late.table)
      && (forall i, j :: 0 <= i < |late.archive| && 0 <= j < |late.table| ==>
            late.archive[i].seqNo < late.table[j].seqNo)
      && early.archive + early.table <= late.archive + late.table
      && early.archive <= late.archive
      && (forall r :: r in early.archive + early.table ==> (r in late.archive <==> r !in late.table))
      && Distinct(Keys(late.table))
      && WalkRows(h, StartWalk(HeadHash(None, late.archive), LastSeq(None, late.archive)), late.table).broken.None?
  {
    StartIsGood(h);
    RunsStayGood(h, NOTHING_YET, acts);
    LogOnlyGrows(h, NOTHING_YET, acts, k);
    var early, late := After(h, NOTHING_YET, acts[..k]).db, After(h, NOTHING_YET, acts).db;
    RowsStayPut(Log(early), late.archive, late.table, None);
    TableContinues(h, late);
    WalkOkIffIntact(h, HeadHash(None, late.archive), LastSeq(None, late.archive), late.table);
  }
}
