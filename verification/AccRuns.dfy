/** Particular runs: a slow drain that overwrites a newer cursor, a reset in the middle of a
    retention run, and a page that is not the core's. */
module AccRuns {
  import opened Common
  import opened Accountability
  import opened Cursors
  import opened Drains
  import opened AccRetention
  import opened AccProtocol
  import opened AccSafety
  import opened AccCursors
  import opened AccContents
  import Chain
  import DrainedLog
  import Hashing
  import Puller
  import Writer

  lemma {:induction false} AfterConcat(e: Env, s: Sys, a: seq<Action>, b: seq<Action>)
    ensures After(e, s, a + b) == After(e, After(e, s, a), b)
    ensures HonestRun(e, s, a + b) <==> HonestRun(e, s, a) && HonestRun(e, After(e, s, a), b)
    ensures Throughout(e, s, a + b, NotBehind) <==> Throughout(e, s, a, NotBehind) && Throughout(e, After(e, s, a), b, NotBehind)
    decreases b
  {
    hide Next, Honest, NotBehind;
    if b == [] {
      assert a + b == a;
    } else {
      assert (a + b)[..|a + b| - 1] == a + b[..|b| - 1];
      AfterConcat(e, s, a, b[..|b| - 1]);
    }
  }

  lemma {:induction false} AfterFirst(e: Env, s: Sys, a: Action, rest: seq<Action>)
    ensures After(e, s, [a] + rest) == After(e, Next(e, s, a), rest)
    ensures HonestRun(e, s, [a] + rest) <==> Honest(e, s, a) && HonestRun(e, Next(e, s, a), rest)
    ensures Throughout(e, s, [a] + rest, NotBehind) <==> NotBehind(s, a) && Throughout(e, Next(e, s, a), rest, NotBehind)
  {
    hide Next, Honest, NotBehind;
    assert [a][..0] == [];
    AfterConcat(e, s, [a], rest);
    assert After(e, s, [a]) == Next(e, s, a);
  }

  lemma {:induction false} AfterLast(e: Env, s: Sys, a: Action)
    ensures After(e, s, [a]) == Next(e, s, a)
    ensures HonestRun(e, s, [a]) <==> Honest(e, s, a)
    ensures Throughout(e, s, [a], NotBehind) <==> NotBehind(s, a)
  {
    hide Next, Honest, NotBehind;
    assert [a] == [a] + [];
    AfterFirst(e, s, a, []);
  }

  /** A drain that commits its cursor does not move an existing one back. */
  predicate NotBehind(s: Sys, a: Action) {
    a.CommitDrain? && a.t in s.txs && s.txs[a.t].Staged? && s.cursor.Some? ==>
      s.txs[a.t].place.lastSeq >= s.cursor.value.cursor.lastSeq
  }

  // ---- a drain of one page ----

  function Take(t: nat, recs: seq<CoreRecord>): seq<Action> { [Open(t)] + ([Resume(t)] + [FetchPage(t, recs, None)]) }

  function Finish(t: nat): seq<Action> { [WritePage(t)] + ([StageCursor(t)] + [CommitDrain(t)]) }

  function RowNow(s: Sys): CursorRow { if s.cursor.Some? then s.cursor.value else CursorRow(FRESH, None) }

  lemma {:induction false} Takes(e: Env, s: Sys, t: nat, c: Cursor, recs: seq<CoreRecord>)
    requires t !in s.txs && RowNow(s).halt.None? && c == StartFrom(RowNow(s).cursor, Anchor(s.archive))
    requires recs != [] && VerdictOf(e.g, PosOf(c), recs, None) == Accepted
    ensures After(e, s, Take(t, recs)) == s.(txs := s.txs[t := Draining(c, c, [], recs)])
    ensures HonestRun(e, s, Take(t, recs)) <==> EndsInCore(s.core, recs) && CoreBinds(e.g, CoreInputs(s.core) + CoreInputs(recs))
    ensures Throughout(e, s, Take(t, recs), NotBehind)
  {
    hide VerdictOf, PosOf, CoreBinds, EndsInCore, Anchor, CoreInputs, StartFrom;
    var s1 := s.(txs := s.txs[t := Opening(RowNow(s))]);
    var s2 := s.(txs := s.txs[t := Draining(c, c, [], [])]);
    AfterFirst(e, s, Open(t), [Resume(t)] + [FetchPage(t, recs, None)]);
    assert Next(e, s, Open(t)) == s1;
    AfterFirst(e, s1, Resume(t), [FetchPage(t, recs, None)]);
    assert s1.txs[t := Draining(c, c, [], [])] == s2.txs;
    assert Next(e, s1, Resume(t)) == s2;
    AfterLast(e, s2, FetchPage(t, recs, None));
    assert s2.txs[t := Draining(c, c, [], recs)] == s.txs[t := Draining(c, c, [], recs)];
  }

  /** What a drain of one page leaves when it commits. */
  function Drained(e: Env, s: Sys, t: nat, recs: seq<CoreRecord>): Sys
    requires recs != []
  {
    s.(copied := s.copied + SetOf(recs), log := Logged(e, s.log, [recs]),
       cursor := Some(RowNow(s).(cursor := Advance(recs[|recs| - 1]))), txs := Without(s.txs, t))
  }

  lemma FlatOne(recs: seq<CoreRecord>)
    ensures Puller.Flat([recs]) == recs && [] + [recs] == [recs]
  {
    assert [recs][1..] == [];
  }

  lemma {:induction false} Finishes(e: Env, s: Sys, t: nat, c: Cursor, recs: seq<CoreRecord>)
    requires t in s.txs && s.txs[t] == Draining(c, c, [], recs) && recs != [] && ChainFree(s.txs, t)
    ensures After(e, s, Finish(t)) == Drained(e, s, t, recs)
    ensures HonestRun(e, s, Finish(t))
    ensures Throughout(e, s, Finish(t), NotBehind) <==> s.cursor.Some? ==> recs[|recs| - 1].seqNo >= s.cursor.value.cursor.lastSeq
  {
    hide Logged, SetOf, Puller.Flat, VerdictOf, Verified, MaxAged, Upto, Above, StartFrom, Shortened, Limit;
    var place := Advance(recs[|recs| - 1]);
    var s1 := s.(txs := s.txs[t := Draining(c, place, [recs], [])]);
    var s2 := s.(txs := s.txs[t := Staged(c, place, [recs])]);
    FlatOne(recs);
    AfterFirst(e, s, WritePage(t), [StageCursor(t)] + [CommitDrain(t)]);
    assert Next(e, s, WritePage(t)) == s1;
    AfterFirst(e, s1, StageCursor(t), [CommitDrain(t)]);
    assert s1.txs[t := Staged(c, place, [recs])] == s2.txs;
    assert Next(e, s1, StageCursor(t)) == s2;
    AfterLast(e, s2, CommitDrain(t));
    assert Without(s2.txs, t) == Without(s.txs, t);
  }

  // ---- a retention run over the whole chain ----

  lemma {:induction false} NumberedStart(g: CoreLinker, core: seq<CoreRecord>)
    requires CoreChain(g, core)
    ensures Continues(g, ORIGIN, core)
  {
    if core != [] {
      var front, last := core[..|core| - 1], core[|core| - 1];
      assert front + [last] == core;
      CoreLast(g, front, last);
      NumberedStart(g, front);
    }
  }

  lemma {:induction false} AllAged(g: CoreLinker, core: seq<CoreRecord>, cutoff: int)
    requires CoreChain(g, core) && core != [] && core[|core| - 1].ts < cutoff
    ensures MaxAged(core, cutoff) == Some(|core|)
  {
    var front, last := core[..|core| - 1], core[|core| - 1];
    assert front + [last] == core;
    CoreLast(g, front, last);
    if front != [] {
      CoreNumbers(g, core);
      AllAged(g, front, cutoff);
    }
  }

  function Read(t: nat, cutoff: int): seq<Action> { [StartRetire(t, cutoff)] + ([ReadCursor(t)] + [StreamRows(t)]) }

  /** Nothing is archived and the cursor is at the chain's end. */
  ghost predicate AllCopied(e: Env, s: Sys, cutoff: int) {
    && CoreChain(e.g, s.core) && s.core != [] && s.table == s.core && s.archive == []
    && s.core[|s.core| - 1].ts < cutoff
    && s.cursor.Some? && s.cursor.value.halt.None? && s.cursor.value.cursor.lastSeq == |s.core|
  }

  lemma AllStreamed(e: Env, s: Sys, cutoff: int)
    requires AllCopied(e, s, cutoff)
    ensures Upto(s.table, |s.core|) == s.core && Above(s.table, |s.core|) == []
    ensures Verified(e.g, s.archive, s.core, |s.core|) && MaxAged(s.table, cutoff) == Some(|s.core|)
  {
    hide Continues;
    CoreNumbers(e.g, s.core);
    AllUpto(s.table, |s.core|);
    NumberedStart(e.g, s.core);
    AllAged(e.g, s.core, cutoff);
  }

  lemma {:induction false} Reads(e: Env, s: Sys, t: nat, cutoff: int)
    requires AllCopied(e, s, cutoff) && t !in s.txs && forall u :: u in s.txs ==> !Retires(s.txs[u])
    ensures After(e, s, Read(t, cutoff)) == s.(txs := s.txs[t := Streamed(|s.core|, s.core)])
    ensures HonestRun(e, s, Read(t, cutoff)) && Throughout(e, s, Read(t, cutoff), NotBehind)
  {
    hide Upto, Above, Verified, MaxAged, CoreChain;
    var n := |s.core|;
    var s1 := s.(txs := s.txs[t := AgedRead(n)]);
    var s2 := s.(txs := s.txs[t := Limited(n)]);
    AllStreamed(e, s, cutoff);
    AfterFirst(e, s, StartRetire(t, cutoff), [ReadCursor(t)] + [StreamRows(t)]);
    assert Next(e, s, StartRetire(t, cutoff)) == s1;
    AfterFirst(e, s1, ReadCursor(t), [StreamRows(t)]);
    assert s1.txs[t := Limited(n)] == s2.txs;
    assert Next(e, s1, ReadCursor(t)) == s2;
    AfterLast(e, s2, StreamRows(t));
    assert s2.txs[t := Streamed(n, s.core)] == s.txs[t := Streamed(n, s.core)];
  }

  lemma {:induction false} Commits(e: Env, s: Sys, t: nat)
    requires CoreChain(e.g, s.core) && s.table == s.core && s.archive == []
    requires t in s.txs && s.txs[t] == Streamed(|s.core|, s.core)
    ensures After(e, s, [CommitRetire(t)]) == s.(archive := s.core, table := [], txs := Without(s.txs, t))
    ensures HonestRun(e, s, [CommitRetire(t)]) && Throughout(e, s, [CommitRetire(t)], NotBehind)
  {
    CoreNumbers(e.g, s.core);
    AllUpto(s.table, |s.core|);
    AfterLast(e, s, CommitRetire(t));
    assert [] + s.core == s.core;
  }

  // ---- two records ----

  lemma {:induction false} TwoRecords(g: CoreLinker, r1: CoreRecord, r2: CoreRecord)
    requires CoreChain(g, [r1, r2])
    ensures CoreChain(g, [r1]) && r1.seqNo == 1 && r2.seqNo == 2 && r1.ts < r2.ts
    ensures EndsInCore([r1, r2], [r1]) && EndsInCore([r1, r2], [r1, r2])
    ensures VerdictOf(g, PosOf(FRESH), [r1], None) == Accepted && VerdictOf(g, PosOf(FRESH), [r1, r2], None) == Accepted
    ensures CoreInputs([r1, r2]) + CoreInputs([r1]) == CoreInputs([r1, r2])
    ensures CoreInputs([r1, r2]) + CoreInputs([r1, r2]) == CoreInputs([r1, r2])
  {
    hide Continues;
    var core := [r1, r2];
    CoreNumbers(g, core);
    assert core[0] == r1 && core[1] == r2;
    assert [r1] + [r2] == core;
    CoreLast(g, [r1], r2);
    HonestVerdict(g, core, 0, 1, None);
    HonestVerdict(g, core, 0, 2, None);
    assert core[0..1] == [r1] && core[0..2] == core;
    assert forall r :: r in [r1] ==> r in core;
  }

  function Written(r1: CoreRecord, r2: CoreRecord): Sys { NOTHING_YET.(core := [r1, r2], table := [r1, r2]) }

  lemma {:induction false} WritesBoth(e: Env, r1: CoreRecord, r2: CoreRecord)
    requires CoreChain(e.g, [r1, r2])
    ensures var acts := [CoreAppend(r1)] + [CoreAppend(r2)];
      && After(e, NOTHING_YET, acts) == Written(r1, r2) && HonestRun(e, NOTHING_YET, acts) && Throughout(e, NOTHING_YET, acts, NotBehind)
  {
    hide CoreChain;
    TwoRecords(e.g, r1, r2);
    var s1 := NOTHING_YET.(core := [r1], table := [r1]);
    AfterFirst(e, NOTHING_YET, CoreAppend(r1), [CoreAppend(r2)]);
    assert [] + [r1] == [r1] && [r1] + [r2] == [r1, r2];
    assert Next(e, NOTHING_YET, CoreAppend(r1)) == s1;
    AfterLast(e, s1, CoreAppend(r2));
  }

  // ---- a slow drain ----

  function SlowRun(r1: CoreRecord, r2: CoreRecord): seq<Action> {
    ([CoreAppend(r1)] + [CoreAppend(r2)])
    + (Take(0, [r1]) + (Take(1, [r1, r2]) + (Finish(1) + (Read(2, r2.ts + 1) + ([CommitRetire(2)] + Finish(0))))))
  }

  lemma {:induction false} Race(e: Env, r1: CoreRecord, r2: CoreRecord) returns (s: Sys)
    requires CoreChain(e.g, [r1, r2]) && CoreBinds(e.g, CoreInputs([r1, r2]))
    ensures var acts := Take(0, [r1]) + (Take(1, [r1, r2]) + Finish(1));
      After(e, Written(r1, r2), acts) == s && HonestRun(e, Written(r1, r2), acts)
    ensures AllCopied(e, s, r2.ts + 1) && s.core == [r1, r2] && s.copied == SetOf([r1, r2])
    ensures s.txs == map[0 := Draining(FRESH, FRESH, [], [r1])] && s.cursor == Some(CursorRow(Advance(r2), None))
  {
    hide CoreChain, CoreBinds, CoreInputs, EndsInCore, VerdictOf, Logged, SetOf;
    TwoRecords(e.g, r1, r2);
    var s0 := Written(r1, r2);
    var s1 := s0.(txs := map[0 := Draining(FRESH, FRESH, [], [r1])]);
    var s2 := s0.(txs := s1.txs[1 := Draining(FRESH, FRESH, [], [r1, r2])]);
    Takes(e, s0, 0, FRESH, [r1]);
    Takes(e, s1, 1, FRESH, [r1, r2]);
    Finishes(e, s2, 1, FRESH, [r1, r2]);
    AfterConcat(e, s0, Take(0, [r1]), Take(1, [r1, r2]) + Finish(1));
    AfterConcat(e, s1, Take(1, [r1, r2]), Finish(1));
    s := Drained(e, s2, 1, [r1, r2]);
    assert Without(s2.txs, 1) == map[0 := Draining(FRESH, FRESH, [], [r1])];
    assert {} + SetOf([r1, r2]) == SetOf([r1, r2]);
  }

  /** The cursor is neither monotone nor bound to stay at or above the archive. A drain that
      fetched one record, and has not yet asked for the log's lock, is overtaken by one that
      copies two; retention archives both; then the first goes on and commits. Every record
      was copied before it was deleted, but the next record of the core is now a gap for the
      cursor, until a reset resumes from the archive. */
  lemma {:induction false} SlowDrainStrandsCursor(e: Env, r1: CoreRecord, r2: CoreRecord, r3: CoreRecord)
    requires CoreChain(e.g, [r1, r2, r3]) && CoreBinds(e.g, CoreInputs([r1, r2]))
    ensures HonestRun(e, NOTHING_YET, SlowRun(r1, r2))
    ensures var s := After(e, NOTHING_YET, SlowRun(r1, r2));
      && s.archive == [r1, r2] && s.table == [] && s.cursor == Some(CursorRow(Advance(r1), None)) && !CursorHigh(s)
      && FaultOf(e.g, PosOf(s.cursor.value.cursor), r3) == Some(Gap)
      && FaultOf(e.g, PosOf(StartFrom(FRESH, Anchor(s.archive))), r3).None?
  {
    hide CoreBinds, CoreInputs, Logged, SetOf, Continues, After, HonestRun, Throughout, Take, Finish, Read, Next, NotBehind, Enabled;
    assert [r1, r2] + [r3] == [r1, r2, r3];
    CoreLast(e.g, [r1, r2], r3);
    TwoRecords(e.g, r1, r2);
    WritesBoth(e, r1, r2);
    var s0 := Written(r1, r2);
    var s1 := Race(e, r1, r2);
    Reads(e, s1, 2, r2.ts + 1);
    var s2 := s1.(txs := s1.txs[2 := Streamed(2, [r1, r2])]);
    Commits(e, s2, 2);
    var s3 := s2.(archive := [r1, r2], table := [], txs := Without(s2.txs, 2));
    Finishes(e, s3, 0, FRESH, [r1]);
    var rest := Read(2, r2.ts + 1) + ([CommitRetire(2)] + Finish(0));
    var race := Take(0, [r1]) + (Take(1, [r1, r2]) + Finish(1));
    assert SlowRun(r1, r2) == ([CoreAppend(r1)] + [CoreAppend(r2)]) + (race + rest);
    AfterConcat(e, NOTHING_YET, [CoreAppend(r1)] + [CoreAppend(r2)], race + rest);
    AfterConcat(e, s0, race, rest);
    AfterConcat(e, s1, Read(2, r2.ts + 1), [CommitRetire(2)] + Finish(0));
    AfterConcat(e, s2, [CommitRetire(2)], Finish(0));
    assert After(e, NOTHING_YET, SlowRun(r1, r2)) == Drained(e, s3, 0, [r1]);
    ThirdFollows(e.g, r1, r2, r3);
  }

  lemma ThirdFollows(g: CoreLinker, r1: CoreRecord, r2: CoreRecord, r3: CoreRecord)
    requires CoreChain(g, [r1, r2, r3])
    ensures FaultOf(g, PosOf(Advance(r1)), r3) == Some(Gap)
    ensures FaultOf(g, PosOf(StartFrom(FRESH, Anchor([r1, r2]))), r3).None?
  {
    hide Continues;
    var core := [r1, r2, r3];
    CoreNumbers(g, core);
    ContinuesAt(g, GENESIS, core, 2);
    assert core[..2] == [r1, r2] && core[0] == r1 && core[1] == r2 && core[2] == r3;
  }

  // ---- a reset in the middle of a retention run ----

  function ResetRun(r1: CoreRecord, r2: CoreRecord): seq<Action> {
    ([CoreAppend(r1)] + [CoreAppend(r2)])
    + (Take(1, [r1, r2]) + (Finish(1) + (Read(2, r2.ts + 1) + ([Operate(Reset)] + (Take(0, [r1]) + (Finish(0) + [CommitRetire(2)]))))))
  }

  /** Never moving the cursor back is not enough: retention reads the cursor, an operator
      resets it, a drain copies the first record again and commits, and then retention
      archives both. No cursor was committed behind another, yet it ends below the archive. */
  lemma {:induction false} ResetMidRunStrandsCursor(e: Env, r1: CoreRecord, r2: CoreRecord)
    requires CoreChain(e.g, [r1, r2]) && CoreBinds(e.g, CoreInputs([r1, r2]))
    ensures HonestRun(e, NOTHING_YET, ResetRun(r1, r2)) && Throughout(e, NOTHING_YET, ResetRun(r1, r2), NotBehind)
    ensures var s := After(e, NOTHING_YET, ResetRun(r1, r2));
      s.archive == [r1, r2] && s.cursor == Some(CursorRow(Advance(r1), None)) && !CursorHigh(s)
  {
    hide CoreBinds, CoreInputs, Logged, SetOf, CoreChain, EndsInCore, VerdictOf, After, HonestRun, Throughout, Take, Finish, Read, Next, NotBehind;
    TwoRecords(e.g, r1, r2);
    WritesBoth(e, r1, r2);
    var s0 := Written(r1, r2);
    var s1 := s0.(txs := map[1 := Draining(FRESH, FRESH, [], [r1, r2])]);
    Takes(e, s0, 1, FRESH, [r1, r2]);
    Finishes(e, s1, 1, FRESH, [r1, r2]);
    var s2 := Drained(e, s1, 1, [r1, r2]);
    assert Without(s1.txs, 1) == map[];
    Reads(e, s2, 2, r2.ts + 1);
    var s3 := s2.(txs := map[2 := Streamed(2, [r1, r2])]);
    Resets(e, s3);
    var s4 := s3.(cursor := None);
    Takes(e, s4, 0, FRESH, [r1]);
    var s5 := s4.(txs := s4.txs[0 := Draining(FRESH, FRESH, [], [r1])]);
    Finishes(e, s5, 0, FRESH, [r1]);
    var s6 := Drained(e, s5, 0, [r1]);
    assert Without(s5.txs, 0) == map[2 := Streamed(2, [r1, r2])];
    Commits(e, s6, 2);
    ResetRunIs(e, r1, r2, s2, s3, s4, s5, s6);
  }

  lemma {:induction false} Resets(e: Env, s: Sys)
    ensures After(e, s, [Operate(Reset)]) == s.(cursor := None) && Clean(e, s, [Operate(Reset)])
  {
    AfterLast(e, s, Operate(Reset));
  }

  /** The stretches of the run, put together. */
  lemma {:induction false} ResetRunIs(e: Env, r1: CoreRecord, r2: CoreRecord, s2: Sys, s3: Sys, s4: Sys, s5: Sys, s6: Sys)
    requires var s0 := Written(r1, r2); var s1 := s0.(txs := map[1 := Draining(FRESH, FRESH, [], [r1, r2])]);
      && After(e, NOTHING_YET, [CoreAppend(r1)] + [CoreAppend(r2)]) == s0 && Clean(e, NOTHING_YET, [CoreAppend(r1)] + [CoreAppend(r2)])
      && After(e, s0, Take(1, [r1, r2])) == s1 && Clean(e, s0, Take(1, [r1, r2]))
      && After(e, s1, Finish(1)) == s2 && Clean(e, s1, Finish(1))
    requires After(e, s2, Read(2, r2.ts + 1)) == s3 && Clean(e, s2, Read(2, r2.ts + 1))
    requires After(e, s3, [Operate(Reset)]) == s4 && Clean(e, s3, [Operate(Reset)])
    requires After(e, s4, Take(0, [r1])) == s5 && Clean(e, s4, Take(0, [r1]))
    requires After(e, s5, Finish(0)) == s6 && Clean(e, s5, Finish(0))
    requires Clean(e, s6, [CommitRetire(2)])
    ensures After(e, NOTHING_YET, ResetRun(r1, r2)) == After(e, s6, [CommitRetire(2)])
    ensures Clean(e, NOTHING_YET, ResetRun(r1, r2))
  {
    hide After, HonestRun, Throughout, Take, Finish, Read, Next;
    var s0 := Written(r1, r2);
    var s1 := s0.(txs := map[1 := Draining(FRESH, FRESH, [], [r1, r2])]);
    var a5 := Finish(0) + [CommitRetire(2)];
    var a4 := Take(0, [r1]) + a5;
    var a3 := [Operate(Reset)] + a4;
    var a2 := Read(2, r2.ts + 1) + a3;
    AfterConcat(e, NOTHING_YET, [CoreAppend(r1)] + [CoreAppend(r2)], Take(1, [r1, r2]) + (Finish(1) + a2));
    AfterConcat(e, s0, Take(1, [r1, r2]), Finish(1) + a2);
    AfterConcat(e, s1, Finish(1), a2);
    AfterConcat(e, s2, Read(2, r2.ts + 1), a3);
    AfterConcat(e, s3, [Operate(Reset)], a4);
    AfterConcat(e, s4, Take(0, [r1]), a5);
    AfterConcat(e, s5, Finish(0), [CommitRetire(2)]);
  }

  ghost predicate Clean(e: Env, s: Sys, acts: seq<Action>) { HonestRun(e, s, acts) && Throughout(e, s, acts, NotBehind) }

  // ---- a page that is not the core's ----

  function ForgedRun(r1: CoreRecord, forged: CoreRecord): seq<Action> {
    [CoreAppend(r1)] + (Take(0, [forged]) + (Finish(0) + (Read(2, r1.ts + 1) + [CommitRetire(2)])))
  }

  lemma {:induction false} WritesOne(e: Env, r1: CoreRecord)
    ensures After(e, NOTHING_YET, [CoreAppend(r1)]) == NOTHING_YET.(core := [r1], table := [r1])
    ensures CoreChain(e.g, [r1]) ==> HonestRun(e, NOTHING_YET, [CoreAppend(r1)])
  {
    AfterLast(e, NOTHING_YET, CoreAppend(r1));
    assert [] + [r1] == [r1];
  }

  lemma {:induction false} ForgedRunIs(e: Env, r1: CoreRecord, forged: CoreRecord, s0: Sys, s1: Sys, s2: Sys, s3: Sys)
    requires After(e, NOTHING_YET, [CoreAppend(r1)]) == s0 && After(e, s0, Take(0, [forged])) == s1
    requires After(e, s1, Finish(0)) == s2 && After(e, s2, Read(2, r1.ts + 1)) == s3
    ensures After(e, NOTHING_YET, ForgedRun(r1, forged)) == After(e, s3, [CommitRetire(2)])
  {
    hide After, HonestRun, Throughout, Take, Finish, Read, Next;
    var a2 := Read(2, r1.ts + 1) + [CommitRetire(2)];
    AfterConcat(e, NOTHING_YET, [CoreAppend(r1)], Take(0, [forged]) + (Finish(0) + a2));
    AfterConcat(e, s0, Take(0, [forged]), Finish(0) + a2);
    AfterConcat(e, s1, Finish(0), a2);
    AfterConcat(e, s2, Read(2, r1.ts + 1), [CommitRetire(2)]);
  }

  /** Why the last hash of a page must be the core's. A page holds a record with another body
      and the hash of that body; every check passes, the cursor moves, and retention deletes
      the core's record, which was never copied. */
  lemma {:induction false} ForgedPageLosesRecord(e: Env, r1: CoreRecord, body: CoreBody)
    requires CoreChain(e.g, [r1]) && !SameBody(body, r1.body)
    ensures var forged := CoreRecord(1, r1.ts, body, None, e.g(None, 1, r1.ts, body));
            var s := After(e, NOTHING_YET, ForgedRun(r1, forged));
      && s.core == [r1] && s.table == [] && s.archive == [r1]
      && s.copied == {Joined(forged)} && Joined(r1) !in s.copied
  {
    hide CoreChain, VerdictOf, Logged, SameBody, EndsInCore, CoreBinds, CoreInputs, Joined, After, Next, HonestRun, Throughout, Take, Finish, Read, NotBehind;
    var forged := CoreRecord(1, r1.ts, body, None, e.g(None, 1, r1.ts, body));
    ForgedFirst(e.g, r1, body);
    WritesOne(e, r1);
    var s0 := NOTHING_YET.(core := [r1], table := [r1]);
    Takes(e, s0, 0, FRESH, [forged]);
    var s1 := s0.(txs := map[0 := Draining(FRESH, FRESH, [], [forged])]);
    Finishes(e, s1, 0, FRESH, [forged]);
    var s2 := Drained(e, s1, 0, [forged]);
    assert Without(s1.txs, 0) == map[];
    Reads(e, s2, 2, r1.ts + 1);
    var s3 := s2.(txs := map[2 := Streamed(1, [r1])]);
    Commits(e, s3, 2);
    ForgedRunIs(e, r1, forged, s0, s1, s2, s3);
    assert SetOf([forged]) == {Joined(forged)};
  }

  lemma ForgedFirst(g: CoreLinker, r1: CoreRecord, body: CoreBody)
    requires CoreChain(g, [r1]) && !SameBody(body, r1.body)
    ensures var forged := CoreRecord(1, r1.ts, body, None, g(None, 1, r1.ts, body));
      && VerdictOf(g, PosOf(FRESH), [forged], None) == Accepted && Joined(forged) != Joined(r1)
    ensures r1.seqNo == 1
  {
    hide Continues, VerdictOf, SameBody;
    var forged := CoreRecord(1, r1.ts, body, None, g(None, 1, r1.ts, body));
    CoreNumbers(g, [r1]);
    assert [r1][0] == r1;
    ForgedRecordAccepted(g, [r1], 0, body);
    SameRecordIffJoined(forged, r1);
  }

  // ---- a key that someone else took ----

  function ForeignRun(r1: CoreRecord, c: Hashing.Content): seq<Action> {
    [CoreAppend(r1)] + ([OthersWrite([c])] + (Take(0, [r1]) + (Finish(0) + (Read(2, r1.ts + 1) + [CommitRetire(2)]))))
  }

  function ForeignLog(e: Env, c: Hashing.Content): AuditLog {
    NO_LOG.(chain := Writer.Written(e.h, NO_LOG.chain, [c]))
  }

  lemma {:induction false} OthersStep(e: Env, s: Sys, c: Hashing.Content)
    requires s.txs == map[] && s.log == NO_LOG
    ensures After(e, s, [OthersWrite([c])]) == s.(log := ForeignLog(e, c)) && HonestRun(e, s, [OthersWrite([c])])
  {
    hide Writer.Written;
    AfterLast(e, s, OthersWrite([c]));
  }

  /** The record's copy finds its key taken and is not stored. */
  lemma CopyAbsorbed(e: Env, r1: CoreRecord, c: Hashing.Content)
    requires Writer.KeyOf(c) == KeyFor(e, r1)
    ensures LogContents(Logged(e, ForeignLog(e, c), [[r1]])) == [c]
  {
    hide Puller.PagesWritten, Puller.Copy, Writer.KeyOf;
    var table := ForeignLog(e, c).chain.table;
    FlatOne([r1]);
    DrainedLog.PagesStored(e.h, e.minting, e.tenant, ForeignLog(e, c).chain, [[r1]]);
    Writer.FreshFollow(e.h, Writer.Seed(NO_LOG.chain), [c]);
    assert Writer.FreshContents([], [c]) == [c] by {
      assert [c][1..] == [] && [c] + [] == [c];
    }
    assert Chain.Contents(table) == [] + [c];
    DrainedLog.KeysOfContents(table);
    assert Writer.Keys(table) == [Writer.KeyOf(c)];
    var cs := Puller.Copies(e.minting, e.tenant, [r1]);
    assert cs == [CopyOf(e, r1)] && cs[1..] == [];
    assert Writer.FreshContents(Writer.Keys(table), cs) == [];
    var now := Logged(e, ForeignLog(e, c), [[r1]]);
    assert now.archived + now.chain.table == now.chain.table;
  }

  /** Why no other writer may take the key of a record: an event of the same id and time with
      another content is stored first, the copy is absorbed as a duplicate, every check passes,
      and retention deletes a record whose copy is nowhere, although its key is in the log. */
  lemma {:induction false} ForeignKeyAbsorbsCopy(e: Env, r1: CoreRecord, c: Hashing.Content)
    requires CoreChain(e.g, [r1]) && CoreBinds(e.g, CoreInputs([r1]))
    requires Writer.KeyOf(c) == KeyFor(e, r1) && c != CopyOf(e, r1)
    ensures HonestRun(e, NOTHING_YET, ForeignRun(r1, c)) && !OthersRight(e, [r1], ForeignRun(r1, c))
    ensures var s := After(e, NOTHING_YET, ForeignRun(r1, c));
      && s.core == [r1] && s.table == [] && KeyFor(e, r1) in LogKeys(s.log)
      && LogContents(s.log) == [c] && CopyOf(e, r1) !in LogContents(s.log)
  {
    hide CoreChain, VerdictOf, Logged, ForeignLog, EndsInCore, CoreBinds, CoreInputs, Joined, After, Next, HonestRun, Throughout, Take, Finish,
      Read, NotBehind, LogContents, LogKeys, KeyFor, CopyOf, OthersRight, Writer.KeyOf;
    ForeignFirst(e, r1);
    WritesOne(e, r1);
    var s0 := NOTHING_YET.(core := [r1], table := [r1]);
    OthersStep(e, s0, c);
    var t0 := s0.(log := ForeignLog(e, c));
    Takes(e, t0, 0, FRESH, [r1]);
    var s1 := t0.(txs := map[0 := Draining(FRESH, FRESH, [], [r1])]);
    Finishes(e, s1, 0, FRESH, [r1]);
    var s2 := Drained(e, s1, 0, [r1]);
    assert Without(s1.txs, 0) == map[];
    CoreNumbers(e.g, [r1]);
    Reads(e, s2, 2, r1.ts + 1);
    var s3 := s2.(txs := map[2 := Streamed(1, [r1])]);
    Commits(e, s3, 2);
    ForeignRunIs(e, r1, c, s0, t0, s1, s2, s3);
    CopyAbsorbed(e, r1, c);
    ForeignIsWrong(e, r1, c);
    var s := After(e, NOTHING_YET, ForeignRun(r1, c));
    NothingDeletedUncopied(e, ForeignRun(r1, c));
    assert r1 in s.core && r1 !in s.table;
  }

  lemma ForeignIsWrong(e: Env, r1: CoreRecord, c: Hashing.Content)
    requires Writer.KeyOf(c) == KeyFor(e, r1) && c != CopyOf(e, r1)
    ensures !OthersRight(e, [r1], ForeignRun(r1, c))
  {
    hide Take, Finish, Read;
    var acts := ForeignRun(r1, c);
    assert acts[1] == OthersWrite([c]) && c in [c] && [r1][0] == r1;
    assert !Right(e, [r1], c);
  }

  lemma ForeignFirst(e: Env, r1: CoreRecord)
    requires CoreChain(e.g, [r1])
    ensures VerdictOf(e.g, PosOf(FRESH), [r1], None) == Accepted && EndsInCore([r1], [r1]) && r1.seqNo == 1
    ensures CoreInputs([r1]) + CoreInputs([r1]) == CoreInputs([r1])
  {
    hide Continues;
    CoreNumbers(e.g, [r1]);
    HonestVerdict(e.g, [r1], 0, 1, None);
    assert [r1][0..1] == [r1] && [r1][0] == r1;
  }

  lemma {:induction false} ForeignRunIs(e: Env, r1: CoreRecord, c: Hashing.Content, s0: Sys, t0: Sys, s1: Sys, s2: Sys, s3: Sys)
    requires After(e, NOTHING_YET, [CoreAppend(r1)]) == s0 && HonestRun(e, NOTHING_YET, [CoreAppend(r1)])
    requires After(e, s0, [OthersWrite([c])]) == t0 && HonestRun(e, s0, [OthersWrite([c])])
    requires After(e, t0, Take(0, [r1])) == s1 && HonestRun(e, t0, Take(0, [r1]))
    requires After(e, s1, Finish(0)) == s2 && HonestRun(e, s1, Finish(0))
    requires After(e, s2, Read(2, r1.ts + 1)) == s3 && HonestRun(e, s2, Read(2, r1.ts + 1))
    requires HonestRun(e, s3, [CommitRetire(2)])
    ensures After(e, NOTHING_YET, ForeignRun(r1, c)) == After(e, s3, [CommitRetire(2)])
    ensures HonestRun(e, NOTHING_YET, ForeignRun(r1, c))
  {
    hide After, HonestRun, Throughout, Take, Finish, Read, Next;
    var a3 := Read(2, r1.ts + 1) + [CommitRetire(2)];
    var a2 := Finish(0) + a3;
    var a1 := Take(0, [r1]) + a2;
    AfterConcat(e, NOTHING_YET, [CoreAppend(r1)], [OthersWrite([c])] + a1);
    AfterConcat(e, s0, [OthersWrite([c])], a1);
    AfterConcat(e, t0, Take(0, [r1]), a2);
    AfterConcat(e, s1, Finish(0), a3);
    AfterConcat(e, s2, Read(2, r1.ts + 1), [CommitRetire(2)]);
  }
}
