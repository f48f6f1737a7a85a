/** Particular runs of the audit protocol: a writer nobody disturbs, and the run that loses
    a committed row when the second listing finds a partition that was not locked. */
module AuditRuns {
  import opened Common
  import opened Hashing
  import opened Chain
  import opened Writer
  import opened Retention
  import opened AuditProtocol
  import opened AuditSafety

  lemma {:induction false} AfterConcat(h: Linker, s: Sys, a: seq<Action>, b: seq<Action>, p: (Sys, Action) -> bool)
    ensures After(h, s, a + b) == After(h, After(h, s, a), b)
    ensures Throughout(h, s, a + b, p) <==> Throughout(h, s, a, p) && Throughout(h, After(h, s, a), b, p)
    decreases b
  {
    if b == [] {
      assert a + b == a;
    } else {
      assert (a + b)[..|a + b| - 1] == a + b[..|b| - 1];
      AfterConcat(h, s, a, b[..|b| - 1], p);
    }
  }

  lemma {:induction false} AfterOne(h: Linker, s: Sys, a: Action, p: (Sys, Action) -> bool)
    ensures After(h, s, [a]) == Next(h, s, a)
    ensures Throughout(h, s, [a], p) <==> p(s, a)
  {
    assert [a][..0] == [];
  }

  lemma {:induction false} AfterFirst(h: Linker, s: Sys, a: Action, rest: seq<Action>, p: (Sys, Action) -> bool)
    ensures After(h, s, [a] + rest) == After(h, Next(h, s, a), rest)
    ensures Throughout(h, s, [a] + rest, p) <==> p(s, a) && Throughout(h, Next(h, s, a), rest, p)
  {
    AfterConcat(h, s, [a], rest, p);
    AfterOne(h, s, a, p);
  }

  // ---- a writer alone ----

  function Locks(t: nat, c: Content): seq<Action> {
    [Begin(t)] + ([Call(t, [c])] + ([LockDay(t, c.ts.day)] + [LockChain(t)]))
  }

  function Writes(t: nat): seq<Action> {
    [SeedHead(t)] + ([Insert(t)] + ([EndCall(t)] + [CommitWrite(t)]))
  }

  ghost predicate Undisturbed(s: Sys, t: nat, c: Content) {
    && t !in s.txs
    && (forall u :: u in s.txs ==> c.ts.day !in s.txs[u].held && !HasChain(s.txs[u]))
    && KeyOf(c) !in Keys(s.db.table)
  }

  lemma {:induction false} SingleDay(c: Content)
    ensures DaysOf([c]) == {c.ts.day}
  {
    assert [c][0] == c;
  }

  function Holding(s: Sys, c: Content): Tx { Write({c.ts.day}, true, Chained([c]), [], [], s.db.nextSeq) }

  lemma {:induction false} LocksAlone(h: Linker, s: Sys, t: nat, c: Content)
    requires Undisturbed(s, t, c)
    ensures After(h, s, Locks(t, c))
         == s.(txs := s.txs[t := Holding(s, c)])
    ensures Throughout(h, s, Locks(t, c), CleanSeed)
  {
    SingleDay(c);
    var d := c.ts.day;
    var s1 := Next(h, s, Begin(t));
    var s2 := Next(h, s1, Call(t, [c]));
    var s3 := Next(h, s2, LockDay(t, d));
    var s4 := Next(h, s3, LockChain(t));
    AfterFirst(h, s, Begin(t), [Call(t, [c])] + ([LockDay(t, d)] + [LockChain(t)]), CleanSeed);
    AfterFirst(h, s1, Call(t, [c]), [LockDay(t, d)] + [LockChain(t)], CleanSeed);
    AfterFirst(h, s2, LockDay(t, d), [LockChain(t)], CleanSeed);
    AfterOne(h, s3, LockChain(t), CleanSeed);
    assert s1.txs[t] == Write({}, false, Idle, [], [], 0);
    assert s2.txs[t] == Write({}, false, Locking([c]), [], [], 0);
    assert s3.txs[t] == Write({d}, false, Locking([c]), [], [], 0);
    assert s4.txs == s.txs[t := Write({d}, true, Chained([c]), [], [], s.db.nextSeq)];
  }

  function Appended(h: Linker, db: Db, c: Content): Row {
    var tail := HeadHash(Base(db), db.table);
    Row(db.nextSeq, c, tail, h(tail, c))
  }

  function Inserted(h: Linker, db: Db, c: Content): Tx {
    var row := Appended(h, db, c);
    Write({c.ts.day}, true, Inserting([c], Some(row.rowHash), 1), [row], [], db.nextSeq)
  }

  lemma {:induction false} InsertsAlone(h: Linker, s: Sys, t: nat, c: Content)
    requires t in s.txs && s.txs[t] == Holding(s, c) && KeyOf(c) !in Keys(s.db.table)
    ensures After(h, s, [SeedHead(t)] + [Insert(t)])
         == Sys(s.db.(nextSeq := s.db.nextSeq + 1), s.txs[t := Inserted(h, s.db, c)])
    ensures Throughout(h, s, [SeedHead(t)] + [Insert(t)], CleanSeed)
  {
    var db, row := s.db, Appended(h, s.db, c);
    var s1 := Next(h, s, SeedHead(t));
    AfterFirst(h, s, SeedHead(t), [Insert(t)], CleanSeed);
    AfterOne(h, s1, Insert(t), CleanSeed);
    assert Private(db, s.txs[t]) == db.table;
    assert CleanBatch(Keys(db.table), None, [c]) by {
      assert [c][1..] == [];
    }
    assert s1.txs[t] == Write({c.ts.day}, true, Inserting([c], row.prevHash, 0), [], [], db.nextSeq);
    StoredIffKey(db.table, KeyOf(c));
    assert NextInsert(h, db, s1.txs[t]).rows == db.table + [row];
    assert (db.table + [row])[|db.table|..] == [row];
  }

  lemma {:induction false} EndsAlone(h: Linker, s: Sys, t: nat, w: Tx)
    requires t in s.txs && s.txs[t] == w && w.Write? && w.call.Inserting? && w.call.done == |w.call.batch|
    ensures After(h, s, [EndCall(t)] + [CommitWrite(t)])
         == Sys(s.db.(table := Private(s.db, w), partitions := s.db.partitions + w.held), Without(s.txs, t))
    ensures Throughout(h, s, [EndCall(t)] + [CommitWrite(t)], CleanSeed)
  {
    var s1 := Next(h, s, EndCall(t));
    AfterFirst(h, s, EndCall(t), [CommitWrite(t)], CleanSeed);
    AfterOne(h, s1, CommitWrite(t), CleanSeed);
    assert Without(s1.txs, t) == Without(s.txs, t);
  }

  lemma {:induction false} WritesAlone(h: Linker, s: Sys, t: nat, c: Content)
    requires t in s.txs && s.txs[t] == Holding(s, c) && KeyOf(c) !in Keys(s.db.table)
    ensures After(h, s, Writes(t))
         == Sys(Db(s.db.archive, s.db.table + [Appended(h, s.db, c)], s.db.nextSeq + 1, s.db.partitions + {c.ts.day}),
                Without(s.txs, t))
    ensures Throughout(h, s, Writes(t), CleanSeed)
  {
    InsertsAlone(h, s, t, c);
    var mid := After(h, s, [SeedHead(t)] + [Insert(t)]);
    EndsAlone(h, mid, t, Inserted(h, s.db, c));
    AfterConcat(h, s, [SeedHead(t)] + [Insert(t)], [EndCall(t)] + [CommitWrite(t)], CleanSeed);
    assert Writes(t) == ([SeedHead(t)] + [Insert(t)]) + ([EndCall(t)] + [CommitWrite(t)]);
    assert Without(mid.txs, t) == Without(s.txs, t);
  }

  /** A writer that nothing disturbs appends its event at the tail and leaves no lock. */
  lemma {:induction false} WriterAlone(h: Linker, s: Sys, t: nat, c: Content)
    requires Undisturbed(s, t, c)
    ensures After(h, s, Locks(t, c) + Writes(t))
         == s.(db := Db(s.db.archive, s.db.table + [Appended(h, s.db, c)], s.db.nextSeq + 1, s.db.partitions + {c.ts.day}))
    ensures Throughout(h, s, Locks(t, c) + Writes(t), CleanSeed)
  {
    AfterConcat(h, s, Locks(t, c), Writes(t), CleanSeed);
    LocksAlone(h, s, t, c);
    var mid := After(h, s, Locks(t, c));
    WritesAlone(h, mid, t, c);
    assert Without(mid.txs, t) == s.txs;
  }

  // ---- the lost row ----

  /** Retention starts; day 1 has an empty partition, and is locked. */
  const STARTS := [StartRun(0, 10)] + [LockAged(0, 1)]

  /** It lists again, reads its statistics, chooses, and streams. */
  const READS := [Relist(0)] + ([ReadStat(0, 1)] + ([ReadStat(0, 2)] + ([ReadKept(0)] + ([Select(0, {1, 2})] + [Stream(0)]))))

  const DAY_ONE := Sys(Db([], [], 1, {1}), map[])

  lemma {:induction false} StartsAlone(h: Linker)
    ensures After(h, DAY_ONE, STARTS) == DAY_ONE.(txs := map[0 := Run({1}, 10, Listed({1}))])
    ensures Throughout(h, DAY_ONE, STARTS, CleanSeed)
  {
    var s1 := Next(h, DAY_ONE, StartRun(0, 10));
    AfterFirst(h, DAY_ONE, StartRun(0, 10), [LockAged(0, 1)], CleanSeed);
    AfterOne(h, s1, LockAged(0, 1), CleanSeed);
    assert Aged(DAY_ONE.db, 10) == {1};
    assert s1.txs == map[0 := Run({}, 10, Listed({1}))];
    assert Enabled(s1, LockAged(0, 1));
    assert {} + {1} == {1};
  }

  function Read(table: seq<Row>): map<int, PartStat> {
    map[1 := StatOf(table, 1), 2 := StatOf(table, 2)]
  }

  lemma {:induction false} StatsRead(h: Linker, s: Sys)
    requires s.txs == map[0 := Run({1}, 10, Listed({1}))] && s.db.partitions == {1, 2}
    ensures After(h, s, [Relist(0)] + ([ReadStat(0, 1)] + [ReadStat(0, 2)]))
         == s.(txs := map[0 := Run({1}, 10, Reading({1, 2}, |Log(s.db)|, Read(s.db.table), None))])
    ensures Throughout(h, s, [Relist(0)] + ([ReadStat(0, 1)] + [ReadStat(0, 2)]), CleanSeed)
  {
    var s1 := Next(h, s, Relist(0));
    var s2 := Next(h, s1, ReadStat(0, 1));
    AfterFirst(h, s, Relist(0), [ReadStat(0, 1)] + [ReadStat(0, 2)], CleanSeed);
    AfterFirst(h, s1, ReadStat(0, 1), [ReadStat(0, 2)], CleanSeed);
    AfterOne(h, s2, ReadStat(0, 2), CleanSeed);
    assert Aged(s.db, 10) == {1, 2};
    assert s1.txs[0] == Run({1}, 10, Reading({1, 2}, |Log(s.db)|, map[], None));
    assert s2.txs[0] == Run({1}, 10, Reading({1, 2}, |Log(s.db)|, map[1 := StatOf(s.db.table, 1)], None));
    assert map[1 := StatOf(s.db.table, 1)][2 := StatOf(s.db.table, 2)] == Read(s.db.table);
  }

  lemma {:induction false} ChoosesBoth(table: seq<Row>)
    ensures Selects(Read(table), None, {1, 2})
  {
    assert Read(table).Keys == {1, 2};
  }

  lemma {:induction false} ChoiceStreamed(h: Linker, s: Sys, row: Row)
    requires s.txs == map[0 := Run({1}, 10, Reading({1, 2}, |Log(s.db)|, Read(s.db.table), None))]
    requires s.db.table == [row] && RowDay(row) == 2
    ensures After(h, s, [ReadKept(0)] + ([Select(0, {1, 2})] + [Stream(0)]))
         == s.(txs := map[0 := Run({1}, 10, Streamed({1, 2}, [row]))])
    ensures Throughout(h, s, [ReadKept(0)] + ([Select(0, {1, 2})] + [Stream(0)]), CleanSeed)
  {
    var s1 := Next(h, s, ReadKept(0));
    var s2 := Next(h, s1, Select(0, {1, 2}));
    AfterFirst(h, s, ReadKept(0), [Select(0, {1, 2})] + [Stream(0)], CleanSeed);
    AfterFirst(h, s1, Select(0, {1, 2}), [Stream(0)], CleanSeed);
    AfterOne(h, s2, Stream(0), CleanSeed);
    assert [row][..0] == [];
    assert KeptMin([row], 10) == None;
    assert Read(s.db.table).Keys == {1, 2};
    assert s1.txs[0] == Run({1}, 10, Reading({1, 2}, |Log(s.db)|, Read(s.db.table), Some(None)));
    ChoosesBoth(s.db.table);
    assert s2.txs[0] == Run({1}, 10, Planned({1, 2}));
    assert Pick([row], {1, 2}, true) == [row];
  }

  lemma {:induction false} ReadsAlone(h: Linker, s: Sys, row: Row)
    requires s.txs == map[0 := Run({1}, 10, Listed({1}))] && s.db.partitions == {1, 2}
    requires s.db.table == [row] && RowDay(row) == 2
    ensures After(h, s, READS) == s.(txs := map[0 := Run({1}, 10, Streamed({1, 2}, [row]))])
    ensures Throughout(h, s, READS, CleanSeed)
  {
    var first, second := [Relist(0)] + ([ReadStat(0, 1)] + [ReadStat(0, 2)]), [ReadKept(0)] + ([Select(0, {1, 2})] + [Stream(0)]);
    assert READS == first + second;
    AfterConcat(h, s, first, second, CleanSeed);
    StatsRead(h, s);
    ChoiceStreamed(h, After(h, s, first), row);
  }

  lemma {:induction false} DropsBoth(h: Linker, s: Sys, r1: Row, r2: Row)
    requires s.txs == map[0 := Run({1}, 10, Streamed({1, 2}, [r1]))]
    requires s.db == Db([], [r1, r2], s.db.nextSeq, {1, 2}) && RowDay(r1) == 2 && RowDay(r2) == 2
    ensures After(h, s, [CommitRun(0)]).db.archive == [r1] && After(h, s, [CommitRun(0)]).db.table == []
    ensures Throughout(h, s, [CommitRun(0)], CleanSeed)
  {
    AfterOne(h, s, CommitRun(0), CleanSeed);
    assert [r1, r2][..1] == [r1] && [r1][..0] == [];
    assert Pick([r1], {1, 2}, false) == [];
    assert Pick([r1, r2], {1, 2}, false) == [];
  }

  function FirstRow(h: Linker, c1: Content): Row { Row(1, c1, None, h(None, c1)) }

  function SecondRow(h: Linker, c1: Content, c2: Content): Row {
    var tail := Some(FirstRow(h, c1).rowHash);
    Row(2, c2, tail, h(tail, c2))
  }

  function Listing(h: Linker, c1: Content): Sys {
    Sys(Db([], [FirstRow(h, c1)], 2, {1, 2}), map[0 := Run({1}, 10, Listed({1}))])
  }

  function Streaming(h: Linker, c1: Content): Sys {
    Listing(h, c1).(txs := map[0 := Run({1}, 10, Streamed({1, 2}, [FirstRow(h, c1)]))])
  }

  function Dropping(h: Linker, c1: Content, c2: Content): Sys {
    Streaming(h, c1).(db := Db([], [FirstRow(h, c1), SecondRow(h, c1, c2)], 3, {1, 2}))
  }

  lemma {:induction false} ReachesListing(h: Linker, c1: Content)
    requires c1.ts.day == 2
    ensures After(h, DAY_ONE, STARTS + (Locks(1, c1) + Writes(1))) == Listing(h, c1)
    ensures Throughout(h, DAY_ONE, STARTS + (Locks(1, c1) + Writes(1)), CleanSeed)
  {
    var s := After(h, DAY_ONE, STARTS);
    AfterConcat(h, DAY_ONE, STARTS, Locks(1, c1) + Writes(1), CleanSeed);
    StartsAlone(h);
    WriterAlone(h, s, 1, c1);
    assert s.db.table + [Appended(h, s.db, c1)] == [FirstRow(h, c1)];
  }

  lemma {:induction false} ReachesDropping(h: Linker, c1: Content, c2: Content)
    requires c1.ts.day == 2 && c2.ts.day == 2 && KeyOf(c1) != KeyOf(c2)
    ensures After(h, Listing(h, c1), READS + (Locks(1, c2) + Writes(1))) == Dropping(h, c1, c2)
    ensures Throughout(h, Listing(h, c1), READS + (Locks(1, c2) + Writes(1)), CleanSeed)
  {
    hide After, Throughout;
    var r1 := FirstRow(h, c1);
    AfterConcat(h, Listing(h, c1), READS, Locks(1, c2) + Writes(1), CleanSeed);
    ReadsAlone(h, Listing(h, c1), r1);
    assert [r1][..0] == [] && Keys([r1]) == [KeyOf(c1)];
    var s := Streaming(h, c1);
    WriterAlone(h, s, 1, c2);
    assert s.db.table + [Appended(h, s.db, c2)] == [r1, SecondRow(h, c1, c2)];
    assert {1, 2} + {2} == {1, 2};
  }

  function Lost(c1: Content, c2: Content): seq<Action> {
    (STARTS + (Locks(1, c1) + Writes(1))) + (READS + (Locks(1, c2) + Writes(1)))
  }

  lemma {:induction false} PickedDays(rows: seq<Row>, days: set<int>, inside: bool)
    ensures forall i :: 0 <= i < |Pick(rows, days, inside)| ==> (RowDay(Pick(rows, days, inside)[i]) in days) == inside
    ensures |Pick(rows, days, inside)| <= |rows|
    ensures |Pick(rows, days, inside)| == |rows| <==> forall i :: 0 <= i < |rows| ==> (RowDay(rows[i]) in days) == inside
  {
    if rows != [] {
      PickedDays(rows[..|rows| - 1], days, inside);
    }
  }

  /** Taking some days' rows out to the front leaves every row in place exactly when they hold
      a prefix. */
  lemma PickFrontIff(table: seq<Row>, days: set<int>)
    ensures Pick(table, days, true) + Pick(table, days, false) == table <==> Cuts(table, days)
  {
    var some, rest := Pick(table, days, true), Pick(table, days, false);
    if some + rest == table {
      PickedDays(table, days, true);
      PickedDays(table, days, false);
      assert IsCut(table, days, |some|);
    }
    if n :| IsCut(table, days, n) {
      CutSplits(table, days, n);
    }
  }

  /** Exactly when dropping harms nothing, whatever was committed after the rows were
      streamed, by writers or by other runs, and whether the partitions were locked or not: the
      days hold a prefix of the table, and what they hold is what was streamed. */
  lemma DropHarmlessIff(h: Linker, db: Db, r: Tx, a: Action)
    requires r.Run? && a.CommitRun? && Ready(r, a)
    ensures Log(DbAfter(h, db, r, a)) == Log(db) <==>
            Cuts(db.table, r.phase.drop) && Pick(db.table, r.phase.drop, true) == r.phase.rows
  {
    var drop, rows := r.phase.drop, r.phase.rows;
    var rest := Pick(db.table, drop, false);
    assert Log(DbAfter(h, db, r, a)) == db.archive + (rows + rest);
    PickFrontIff(db.table, drop);
    if Log(DbAfter(h, db, r, a)) == Log(db) {
      assert (db.archive + (rows + rest))[|db.archive|..] == rows + rest;
      assert (db.archive + db.table)[|db.archive|..] == db.table;
      FrontIsPicked(rows, rest, drop);
    }
  }

  /** If the table is some rows and then its rows of other days, the first are its rows of
      these days. */
  lemma FrontIsPicked(rows: seq<Row>, rest: seq<Row>, drop: set<int>)
    requires Pick(rows + rest, drop, false) == rest
    ensures Pick(rows + rest, drop, true) == rows
  {
    PickedDays(rows + rest, drop, false);
    PickConcat(rows, rest, drop, true);
    PickConcat(rows, rest, drop, false);
    PickNone(rest, drop, true);
    PickAll(rest, drop, false);
    PickedTogether(rows, drop);
    PickedDays(rows, drop, true);
    PickAll(rows, drop, true);
  }

  /** When only writers committed since: exactly when the days held a prefix as they were
      streamed and no row was committed on one of them since. */
  lemma LateRowsHarmlessIff(h: Linker, db: Db, r: Tx, a: Action, streamed: seq<Row>, since: seq<Row>)
    requires r.Run? && a.CommitRun? && Ready(r, a)
    requires db.table == streamed + since && r.phase.rows == Pick(streamed, r.phase.drop, true)
    ensures Log(DbAfter(h, db, r, a)) == Log(db) <==> Cuts(streamed, r.phase.drop) && Clear(since, r.phase.drop)
  {
    var drop := r.phase.drop;
    var some, rest, more := Pick(streamed, drop, true), Pick(streamed, drop, false), Pick(since, drop, false);
    PickConcat(streamed, since, drop, false);
    PickFrontIff(streamed, drop);
    PickedDays(since, drop, false);
    PickedTogether(streamed, drop);
    assert Log(DbAfter(h, db, r, a)) == db.archive + (some + rest + more);
    assert Log(db) == db.archive + (streamed + since);
    if Log(DbAfter(h, db, r, a)) == Log(db) {
      assert some + rest + more == streamed + since by {
        assert (db.archive + (some + rest + more))[|db.archive|..] == some + rest + more;
        assert (db.archive + (streamed + since))[|db.archive|..] == streamed + since;
      }
      assert (some + rest + more)[..|streamed|] == some + rest && (streamed + since)[..|streamed|] == streamed;
    }
    if Clear(since, drop) {
      PickClear(since, drop);
    }
  }

  lemma {:induction false} PickedTogether(rows: seq<Row>, days: set<int>)
    ensures |Pick(rows, days, true) + Pick(rows, days, false)| == |rows|
  {
    if rows != [] {
      PickedTogether(rows[..|rows| - 1], days);
    }
  }

  /** Why the second listing must find locked partitions only. Between the listings a
      writer makes a partition for an aged day; retention reads it without holding its
      lock; another writer commits one more row there; retention drops it. Every batch is
      clean, every row of the table was linked, and a committed row is gone. */
  lemma {:induction false} UnlockedPartitionLosesRow(h: Linker, c1: Content, c2: Content)
    requires c1.ts.day == 2 && c2.ts.day == 2 && KeyOf(c1) != KeyOf(c2)
    ensures Good(h, DAY_ONE) && Throughout(h, DAY_ONE, Lost(c1, c2) + [CommitRun(0)], CleanSeed)
    ensures var before := After(h, DAY_ONE, Lost(c1, c2)).db;
            var after := After(h, DAY_ONE, Lost(c1, c2) + [CommitRun(0)]).db;
            && Linked(h, None, Log(before)) && |Log(before)| == 2 && Log(after) == Log(before)[..1]
            && Log(before)[1].content == c2 && Log(before)[1] !in Log(after)
  {
    var r1, r2, s := FirstRow(h, c1), SecondRow(h, c1, c2), Dropping(h, c1, c2);
    ReachesListing(h, c1);
    ReachesDropping(h, c1, c2);
    AfterConcat(h, DAY_ONE, STARTS + (Locks(1, c1) + Writes(1)), READS + (Locks(1, c2) + Writes(1)), CleanSeed);
    DropsBoth(h, s, r1, r2);
    AfterConcat(h, DAY_ONE, Lost(c1, c2), [CommitRun(0)], CleanSeed);
    LinkedSingle(h, None, r1);
    LinkedConcat(h, None, [r1], [r2]);
    LinkedSingle(h, Some(r1.rowHash), r2);
    assert Log(s.db) == [r1] + [r2];
  }
}
