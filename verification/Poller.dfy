/** The poller's two passes: over the chains that hints name, rolling back when one is
    refused, and over every chain, rolling back nothing. */
module Poller {
  import opened Common
  import opened Hashing
  import opened Chain
  import opened Writer
  import opened Accountability
  import opened Cursors
  import opened Puller
  import opened DrainPass

  // ---- what a pass meets ----

  predicate DistinctChains(ts: seq<Option<string>>) {
    forall i, j :: 0 <= i < j < |ts| ==> AuditKey(ts[i]) != AuditKey(ts[j]) && CursorKey(ts[i]) != CursorKey(ts[j])
  }

  predicate RefusedAt(c: Setup, chains: map<string, ChainState>, cursors: CursorTable, t: Option<string>) {
    !Halted(cursors, t) && Pulling(c, chains, cursors, t).ending.Refused?
  }

  predicate DiesAt(c: Setup, chains: map<string, ChainState>, cursors: CursorTable, t: Option<string>) {
    !Halted(cursors, t) && (Pulling(c, chains, cursors, t).ending.Unreachable? || Pulling(c, chains, cursors, t).ending.Unwritable?)
  }

  /** A failed statement: nothing more can be done in the transaction, and committing it
      rolls it back. */
  predicate JamsAt(c: Setup, chains: map<string, ChainState>, cursors: CursorTable, t: Option<string>) {
    !Halted(cursors, t) && Pulling(c, chains, cursors, t).ending.Unwritable?
  }

  predicate NoneDies(c: Setup, chains: map<string, ChainState>, cursors: CursorTable, ts: seq<Option<string>>) {
    forall i :: 0 <= i < |ts| ==> !DiesAt(c, chains, cursors, ts[i])
  }

  /** Where the first statement fails, if one does. */
  function FirstJam(c: Setup, chains: map<string, ChainState>, cursors: CursorTable, ts: seq<Option<string>>): (n: nat)
    ensures n <= |ts|
  {
    if ts == [] then 0
    else if FirstJam(c, chains, cursors, ts[..|ts| - 1]) < |ts| - 1 || JamsAt(c, chains, cursors, ts[|ts| - 1])
    then FirstJam(c, chains, cursors, ts[..|ts| - 1])
    else |ts|
  }

  lemma {:induction false} JamStands(c: Setup, chains: map<string, ChainState>, cursors: CursorTable, ts: seq<Option<string>>, n: nat)
    requires n < |ts| && FirstJam(c, chains, cursors, ts[..n]) == n
    ensures JamsAt(c, chains, cursors, ts[n]) ==> FirstJam(c, chains, cursors, ts) == n
    ensures !JamsAt(c, chains, cursors, ts[n]) ==> FirstJam(c, chains, cursors, ts[..n + 1]) == n + 1
  {
    hide JamsAt;
    assert ts[..n + 1][..n] == ts[..n];
    if n + 1 < |ts| {
      var front := ts[..|ts| - 1];
      assert front[..n] == ts[..n];
      JamStands(c, chains, cursors, front, n);
    } else {
      assert ts[..n + 1] == ts;
    }
  }

  function Yield(c: Setup, chains: map<string, ChainState>, cursors: CursorTable, t: Option<string>): nat {
    if Goes(c, chains, cursors, t) then |Flat(Taken(c, chains, cursors, t))| else 0
  }

  /** How many records the drains that ended well report together. */
  function Reported(c: Setup, chains: map<string, ChainState>, cursors: CursorTable, ts: seq<Option<string>>): nat {
    if ts == [] then 0
    else Reported(c, chains, cursors, ts[..|ts| - 1]) + Yield(c, chains, cursors, ts[|ts| - 1])
  }

  /** Up to and including the last chain that was refused. */
  function RolledBack(c: Setup, chains: map<string, ChainState>, cursors: CursorTable, ts: seq<Option<string>>): (n: nat)
    ensures n <= |ts|
  {
    if ts == [] then 0
    else if RefusedAt(c, chains, cursors, ts[|ts| - 1]) then |ts|
    else RolledBack(c, chains, cursors, ts[..|ts| - 1])
  }

  /** The chains from `from` on have their pages; all others are as they were. */
  ghost predicate PassLeft(h: Linker, c: Setup, was: map<string, ChainState>, cursors: CursorTable, ts: seq<Option<string>>, from: nat,
                           now: map<string, ChainState>)
    requires from <= |ts|
  {
    && now.Keys == was.Keys
    && (forall i :: from <= i < |ts| && AuditKey(ts[i]) in was ==>
          now[AuditKey(ts[i])] == PagesWritten(h, c.minting, ts[i], was[AuditKey(ts[i])], Taken(c, was, cursors, ts[i])))
    && (forall k :: k in was && (forall i :: from <= i < |ts| ==> AuditKey(ts[i]) != k) ==> now[k] == was[k])
  }

  lemma {:induction false} PassGrows(h: Linker, c: Setup, was: map<string, ChainState>, cursors: CursorTable, ts: seq<Option<string>>, from: nat,
                                     now: map<string, ChainState>, t: Option<string>, next: map<string, ChainState>)
    requires from <= |ts| && PassLeft(h, c, was, cursors, ts, from, now)
    requires forall i :: 0 <= i < |ts| ==> AuditKey(ts[i]) != AuditKey(t)
    requires LogHas(h, c.minting, t, now, next, Taken(c, was, cursors, t))
    ensures PassLeft(h, c, was, cursors, ts + [t], from, next)
  {
    hide PagesWritten, Taken, AuditKey;
    var all := ts + [t];
    assert all[|ts|] == t && forall i :: 0 <= i < |ts| ==> all[i] == ts[i];
    assert AuditKey(t) in was ==> now[AuditKey(t)] == was[AuditKey(t)];
    forall i | from <= i < |all| && AuditKey(all[i]) in was
      ensures next[AuditKey(all[i])] == PagesWritten(h, c.minting, all[i], was[AuditKey(all[i])], Taken(c, was, cursors, all[i]))
    {
      if i < |ts| {
        assert AuditKey(ts[i]) != AuditKey(t);
      }
    }
    forall k | k in was && (forall i :: from <= i < |all| ==> AuditKey(all[i]) != k) ensures next[k] == was[k] {
      assert AuditKey(all[|ts|]) != k;
      forall i | from <= i < |ts| ensures AuditKey(ts[i]) != k {
        assert all[i] == ts[i];
      }
    }
  }

  lemma PassStartsOver(h: Linker, c: Setup, was: map<string, ChainState>, cursors: CursorTable, ts: seq<Option<string>>)
    ensures PassLeft(h, c, was, cursors, ts, |ts|, was)
  {}

  // ---- one drain, as the pass sees it ----

  /** The rows of chains that were not drained yet are as the pass found them. */
  ghost predicate Unread(cursors: CursorTable, now: CursorTable, ts: seq<Option<string>>, n: nat)
    requires n <= |ts|
  {
    forall k :: (forall i :: 0 <= i < n ==> CursorKey(ts[i]) != k) ==> Find(now, k) == Find(cursors, k)
  }

  /** Cursors as they would be if the transaction committed now. */
  function Merged(committed: CursorTable, pending: CursorTable): CursorTable { committed + pending }

  /** A pass after `n` chains, of which those before `from` were rolled back. */
  ghost predicate Passing(h: Linker, c: Setup, was: map<string, ChainState>, base: CursorTable, ts: seq<Option<string>>, from: nat, n: nat,
                          now: map<string, ChainState>, txCursors: CursorTable, committed: CursorTable, pending: CursorTable)
  {
    && from <= n <= |ts|
    && PassLeft(h, c, was, base, ts[..n], from, now)
    && Unread(base, txCursors, ts, n) && Unread(base, committed, ts, n)
    && (forall k :: (forall j :: 0 <= j < n ==> CursorKey(ts[j]) != k) ==> k !in pending)
    && (forall j :: from <= j < n ==> CursorLeft(c, was, base, ts[j], RowOf(Merged(committed, pending), CursorKey(ts[j])).cursor))
    && (forall j :: 0 <= j < from ==> RowOf(Merged(committed, pending), CursorKey(ts[j])).cursor == RowOf(base, CursorKey(ts[j])).cursor)
  }

  lemma PassBegins(h: Linker, c: Setup, was: map<string, ChainState>, base: CursorTable, ts: seq<Option<string>>)
    ensures Passing(h, c, was, base, ts, 0, 0, was, base, base, map[])
  {
    assert ts[..0] == [];
  }

  /** What one drain leaves, for the pass. */
  ghost predicate DrainLeft(h: Linker, c: Setup, was: map<string, ChainState>, base: CursorTable, t: Option<string>,
                            now: map<string, ChainState>, txCursors: CursorTable, committed: CursorTable, pending: CursorTable,
                            next: map<string, ChainState>, txNext: CursorTable, committedNext: CursorTable, pendingNext: CursorTable)
  {
    && LogHas(h, c.minting, t, now, next, Taken(c, was, base, t))
    && (forall k :: k != CursorKey(t) ==> Find(txNext, k) == Find(txCursors, k))
    && (forall k :: k != CursorKey(t) ==> Find(committedNext, k) == Find(committed, k))
    && (forall k :: k != CursorKey(t) ==> Find(pendingNext, k) == Find(pending, k))
    && CursorLeft(c, was, base, t, RowOf(Merged(committedNext, pendingNext), CursorKey(t)).cursor)
  }

  lemma SameRow(committed: CursorTable, pending: CursorTable, committedNext: CursorTable, pendingNext: CursorTable, k: string)
    requires Find(committedNext, k) == Find(committed, k) && Find(pendingNext, k) == Find(pending, k)
    ensures RowOf(Merged(committedNext, pendingNext), k) == RowOf(Merged(committed, pending), k)
  {}

  lemma PassGoesOn(h: Linker, c: Setup, was: map<string, ChainState>, base: CursorTable, ts: seq<Option<string>>, from: nat, n: nat,
                   now: map<string, ChainState>, txCursors: CursorTable, committed: CursorTable, pending: CursorTable,
                   next: map<string, ChainState>, txNext: CursorTable, committedNext: CursorTable, pendingNext: CursorTable)
    requires DistinctChains(ts) && n < |ts|
    requires Passing(h, c, was, base, ts, from, n, now, txCursors, committed, pending)
    requires DrainLeft(h, c, was, base, ts[n], now, txCursors, committed, pending, next, txNext, committedNext, pendingNext)
    ensures Passing(h, c, was, base, ts, from, n + 1, next, txNext, committedNext, pendingNext)
  {
    hide LogHas, PassLeft, Taken, CursorLeft, CursorKey, AuditKey, Merged, RowOf;
    var t := ts[n];
    assert ts[..n + 1] == ts[..n] + [t];
    PassGrows(h, c, was, base, ts[..n], from, now, t, next);
    forall j | 0 <= j < n
      ensures RowOf(Merged(committedNext, pendingNext), CursorKey(ts[j])) == RowOf(Merged(committed, pending), CursorKey(ts[j]))
    {
      SameRow(committed, pending, committedNext, pendingNext, CursorKey(ts[j]));
    }
    forall k | forall j :: 0 <= j < n + 1 ==> CursorKey(ts[j]) != k ensures k !in pendingNext {
      assert CursorKey(ts[n]) != k;
      assert forall j :: 0 <= j < n ==> CursorKey(ts[j]) != k;
      assert Find(pending, k) == Find(pendingNext, k) && k !in pending;
    }
  }

  /** Rolling back gives up what the transaction did; halts were committed elsewhere. */
  lemma PassRollsBack(h: Linker, c: Setup, was: map<string, ChainState>, base: CursorTable, ts: seq<Option<string>>, from: nat, n: nat,
                      now: map<string, ChainState>, txCursors: CursorTable, committed: CursorTable, pending: CursorTable)
    requires Passing(h, c, was, base, ts, from, n, now, txCursors, committed, pending) && NoCursorMoved(base, committed)
    ensures Passing(h, c, was, base, ts, n, n, was, committed, committed, map[])
  {
    PassStartsOver(h, c, was, base, ts[..n]);
    assert Merged(committed, map[]) == committed;
  }

  class AccountabilityPoller {
    const puller: AccountabilityPuller
    const log: AuditDb
    const cursors: CursorStore
    var heads: map<string, Option<Hash>>

    constructor (puller: AccountabilityPuller, log: AuditDb, cursors: CursorStore)
      ensures this.puller == puller && this.log == log && this.cursors == cursors
    {
      this.puller, this.log, this.cursors := puller, log, cursors;
      heads := map[];
    }

    function SetupFor(world: Outside): Setup {
      Setup(puller.g, puller.minting, puller.pageSize, puller.maxPages, world)
    }

    /** Drains one chain in the pass's transaction. */
    method DrainOne(tx: AuditDb, txCursors: CursorStore, t: Option<string>, world: Outside, alarmLost: bool,
                    ghost was: map<string, ChainState>, ghost base: CursorTable)
      returns (res: DrainResult)
      requires txCursors != cursors
      requires tx.chains.Keys == was.Keys && Find(txCursors.rows, CursorKey(t)) == Find(base, CursorKey(t))
      requires Find(cursors.rows, CursorKey(t)) == Find(base, CursorKey(t))
      modifies this`heads, tx, txCursors, cursors
      ensures LogHas(tx.h, SetupFor(world).minting, t, old(tx.chains), tx.chains, Taken(SetupFor(world), was, base, t))
      ensures res.Appended? || res.IsHalted? <==> Goes(SetupFor(world), was, base, t)
      ensures res.Appended? ==> res.count == Yield(SetupFor(world), was, base, t)
      ensures res.Appended? ==> CursorKey(t) in txCursors.rows
      ensures res.Appended? ==> CursorLeft(SetupFor(world), was, base, t, RowOf(txCursors.rows, CursorKey(t)).cursor)
      ensures res.IsHalted? ==> Yield(SetupFor(world), was, base, t) == 0
      ensures !res.Appended? ==> CursorLeft(SetupFor(world), was, base, t, RowOf(cursors.rows, CursorKey(t)).cursor)
      ensures res.Raised? ==> (res.why.Refused? <==> RefusedAt(SetupFor(world), was, base, t))
      ensures res.Raised? ==> (!res.why.Refused? <==> DiesAt(SetupFor(world), was, base, t))
      ensures res.Raised? && res.why.Unwritable? <==> JamsAt(SetupFor(world), was, base, t)
      ensures forall k :: k != CursorKey(t) ==> Find(txCursors.rows, k) == Find(old(txCursors.rows), k)
      ensures forall k :: k != CursorKey(t) ==> Find(cursors.rows, k) == Find(old(cursors.rows), k)
      ensures NoCursorMoved(old(cursors.rows), cursors.rows)
    {
      hide Pull, PagesWritten;
      ghost var c, key := SetupFor(world), CursorKey(t);
      ghost var now, nowCursors, alarms := tx.chains, txCursors.rows, cursors.rows;
      res, heads := puller.Drain(tx, txCursors, cursors, t, world.source(t), world.anchor(t), world.hint(t), alarmLost, heads);
      SameTaken(c, was, base, now, nowCursors, t);
      if Halted(nowCursors, t) {
        if AuditKey(t) in now {
          NoPages(tx.h, c.minting, t, now[AuditKey(t)]);
        }
      } else {
        DrainMoves(nowCursors, txCursors.rows, key, Pulling(c, now, nowCursors, t));
        AlarmMovesNothing(alarms, cursors.rows, key, Pulling(c, now, nowCursors, t), alarmLost);
      }
    }

    /** A pass over every chain. A drain that fails is passed over and nothing is rolled back:
        pages it took before it failed are committed without the cursor. A failed statement
        is fatal to all of it, yet the drains before it are reported. */
    method PassAll(ts: seq<Option<string>>, world: Outside, alarmLost: bool, commitFails: bool) returns (drained: nat)
      requires DistinctChains(ts)
      modifies this`heads, log, cursors
      ensures drained == if commitFails then 0
                         else Reported(SetupFor(world), old(log.chains), old(cursors.rows),
                                       ts[..FirstJam(SetupFor(world), old(log.chains), old(cursors.rows), ts)])
      ensures commitFails || FirstJam(SetupFor(world), old(log.chains), old(cursors.rows), ts) < |ts| ==>
        log.chains == old(log.chains) && NoCursorMoved(old(cursors.rows), cursors.rows)
      ensures !commitFails && FirstJam(SetupFor(world), old(log.chains), old(cursors.rows), ts) == |ts| ==>
        var c := SetupFor(world);
        && PassLeft(log.h, c, old(log.chains), old(cursors.rows), ts, 0, log.chains)
        && forall i :: 0 <= i < |ts| ==>
             CursorLeft(c, old(log.chains), old(cursors.rows), ts[i], RowOf(cursors.rows, CursorKey(ts[i])).cursor)
    {
      hide LogHas, PassLeft, Taken, CursorLeft, Yield, JamsAt, FirstJam, Passing, Merged, Halted, Goes, Pulling, AuditKey, CursorKey, DistinctChains, Find;
      ghost var c, was, base := SetupFor(world), log.chains, cursors.rows;
      var tx := new AuditDb(log.h, log.chains);
      var txCursors := new CursorStore(cursors.rows);
      var pending: CursorTable := map[];
      var i, jammed := 0, false;
      drained := 0;
      PassBegins(log.h, c, was, base, ts);
      while i < |ts| && !jammed
        invariant i <= |ts| && tx.h == log.h && log.chains == was && NoCursorMoved(base, cursors.rows)
        invariant !jammed ==> Passing(log.h, c, was, base, ts, 0, i, tx.chains, txCursors.rows, cursors.rows, pending)
        invariant drained == Reported(c, was, base, ts[..i])
        invariant FirstJam(c, was, base, ts[..i]) == i && (jammed ==> i < |ts| && FirstJam(c, was, base, ts) == i)
        decreases |ts| - i, !jammed
      {
        JamStands(c, was, base, ts, i);
        ghost var now, txWas, committedWas, pendingWas := tx.chains, txCursors.rows, cursors.rows, pending;
        PassReads(log.h, c, was, base, ts, 0, i, now, txWas, committedWas, pending);
        var res := DrainOne(tx, txCursors, ts[i], world, alarmLost, was, base);
        if res.Raised? && res.why.Unwritable? {
          jammed := true;
        } else {
          ReportedStep(c, was, base, ts, i);
          if res.Appended? {
            drained := drained + res.count;
            pending := pending[CursorKey(ts[i]) := txCursors.rows[CursorKey(ts[i])]];
          } else {
            YieldsNothing(c, was, base, ts[i]);
          }
          PassTakes(log.h, c, was, base, ts, 0, i, now, txWas, committedWas, pendingWas,
                    tx.chains, txCursors.rows, cursors.rows, pending, res);
          i := i + 1;
        }
      }
      if commitFails {
        heads := map[];
        return 0;
      }
      if !jammed {
        assert ts[..i] == ts;
        PassEnds(log.h, c, was, base, ts, 0, tx.chains, txCursors.rows, cursors.rows, pending);
        log.chains := tx.chains;
        cursors.rows := Merged(cursors.rows, pending);
      }
    }

    /** A pass over the chains that hints name. A refused drain rolls the whole transaction
        back, the drains before it included; any other failure ends the pass. What is reported
        was committed exactly when the drains that were rolled back had copied nothing. */
    method PassHints(ts: seq<Option<string>>, world: Outside, alarmLost: bool, commitFails: bool) returns (drained: nat)
      requires DistinctChains(ts)
      modifies this`heads, log, cursors
      ensures commitFails || !NoneDies(SetupFor(world), old(log.chains), old(cursors.rows), ts) ==>
        drained == 0 && log.chains == old(log.chains) && NoCursorMoved(old(cursors.rows), cursors.rows)
      ensures !commitFails && NoneDies(SetupFor(world), old(log.chains), old(cursors.rows), ts) ==>
        var c := SetupFor(world);
        var from := RolledBack(c, old(log.chains), old(cursors.rows), ts);
        && drained == Reported(c, old(log.chains), old(cursors.rows), ts)
        && (drained == Reported(c, old(log.chains), old(cursors.rows), ts[from..]) <==>
              forall i :: 0 <= i < from ==> Yield(c, old(log.chains), old(cursors.rows), ts[i]) == 0)
        && PassLeft(log.h, c, old(log.chains), old(cursors.rows), ts, from, log.chains)
        && (forall i :: 0 <= i < from ==> RowOf(cursors.rows, CursorKey(ts[i])).cursor == RowOf(old(cursors.rows), CursorKey(ts[i])).cursor)
        && forall i :: from <= i < |ts| ==>
             CursorLeft(c, old(log.chains), old(cursors.rows), ts[i], RowOf(cursors.rows, CursorKey(ts[i])).cursor)
    {
      hide LogHas, PassLeft, Taken, CursorLeft, Yield, DiesAt, RefusedAt, JamsAt, Passing, Merged, Halted, Goes, Pulling, AuditKey, CursorKey, DistinctChains, Find;
      ghost var c, was, base := SetupFor(world), log.chains, cursors.rows;
      var tx := new AuditDb(log.h, log.chains);
      var txCursors := new CursorStore(cursors.rows);
      var pending: CursorTable := map[];
      var i := 0;
      drained := 0;
      PassBegins(log.h, c, was, base, ts);
      while i < |ts|
        invariant i <= |ts| && tx.h == log.h && log.chains == was && NoCursorMoved(base, cursors.rows)
        invariant fresh(tx) && fresh(txCursors)
        invariant Passing(log.h, c, was, base, ts, RolledBack(c, was, base, ts[..i]), i, tx.chains, txCursors.rows, cursors.rows, pending)
        invariant drained == Reported(c, was, base, ts[..i])
        invariant forall j :: 0 <= j < i ==> !DiesAt(c, was, base, ts[j])
      {
        ghost var from := RolledBack(c, was, base, ts[..i]);
        ghost var now, txWas, committedWas, pendingWas := tx.chains, txCursors.rows, cursors.rows, pending;
        PassReads(log.h, c, was, base, ts, from, i, now, txWas, committedWas, pending);
        ReportedStep(c, was, base, ts, i);
        var res := DrainOne(tx, txCursors, ts[i], world, alarmLost, was, base);
        if res.Raised? && !res.why.Refused? {
          heads := map[];
          return 0;
        }
        if res.Appended? {
          drained := drained + res.count;
          pending := pending[CursorKey(ts[i]) := txCursors.rows[CursorKey(ts[i])]];
        } else {
          YieldsNothing(c, was, base, ts[i]);
        }
        PassTakes(log.h, c, was, base, ts, from, i, now, txWas, committedWas, pendingWas,
                  tx.chains, txCursors.rows, cursors.rows, pending, res);
        RefusedDoesNotGo(c, was, base, ts[i]);
        if res.Raised? {
          PassRollsBack(log.h, c, was, base, ts, from, i + 1, tx.chains, txCursors.rows, cursors.rows, pending);
          tx := new AuditDb(log.h, log.chains);
          txCursors := new CursorStore(cursors.rows);
          pending := map[];
        }
        i := i + 1;
      }
      assert ts[..i] == ts;
      if commitFails {
        heads := map[];
        return 0;
      }
      ReportIsHonestIff(c, was, base, ts);
      PassEnds(log.h, c, was, base, ts, RolledBack(c, was, base, ts), tx.chains, txCursors.rows, cursors.rows, pending);
      log.chains := tx.chains;
      cursors.rows := Merged(cursors.rows, pending);
    }
  }

  lemma PassEnds(h: Linker, c: Setup, was: map<string, ChainState>, base: CursorTable, ts: seq<Option<string>>, from: nat,
                 now: map<string, ChainState>, txCursors: CursorTable, committed: CursorTable, pending: CursorTable)
    requires from <= |ts| && Passing(h, c, was, base, ts, from, |ts|, now, txCursors, committed, pending)
    ensures PassLeft(h, c, was, base, ts, from, now)
    ensures forall i :: 0 <= i < from ==> RowOf(Merged(committed, pending), CursorKey(ts[i])).cursor == RowOf(base, CursorKey(ts[i])).cursor
    ensures forall i :: from <= i < |ts| ==> CursorLeft(c, was, base, ts[i], RowOf(Merged(committed, pending), CursorKey(ts[i])).cursor)
  {
    assert ts[..|ts|] == ts;
  }

  /** What a pass reports was committed exactly when the drains it rolled back had copied
      nothing: a refused hint takes earlier chains' rows with it, not their count. */
  lemma ReportIsHonestIff(c: Setup, was: map<string, ChainState>, base: CursorTable, ts: seq<Option<string>>)
    ensures var from := RolledBack(c, was, base, ts);
      && Reported(c, was, base, ts) == Reported(c, was, base, ts[..from]) + Reported(c, was, base, ts[from..])
      && (Reported(c, was, base, ts) == Reported(c, was, base, ts[from..]) <==> forall i :: 0 <= i < from ==> Yield(c, was, base, ts[i]) == 0)
  {
    var from := RolledBack(c, was, base, ts);
    ReportedSplits(c, was, base, ts, from);
    ReportedNothing(c, was, base, ts[..from]);
    assert forall i :: 0 <= i < from ==> ts[..from][i] == ts[i];
  }

  /** How many records the drains of a pass write, those that then fail included. */
  function CopiedBy(c: Setup, was: map<string, ChainState>, base: CursorTable, ts: seq<Option<string>>): nat {
    if ts == [] then 0
    else CopiedBy(c, was, base, ts[..|ts| - 1]) + |Flat(Taken(c, was, base, ts[|ts| - 1]))|
  }

  /** A scheduled pass that commits reports what it committed exactly when no drain that
      failed had taken a page before. One that jams commits nothing, and says so exactly when
      the drains before had copied nothing. */
  lemma ScheduledReportIff(c: Setup, was: map<string, ChainState>, base: CursorTable, ts: seq<Option<string>>)
    ensures Reported(c, was, base, ts) == CopiedBy(c, was, base, ts)
            <==> forall i :: 0 <= i < |ts| ==> Goes(c, was, base, ts[i]) || Flat(Taken(c, was, base, ts[i])) == []
    ensures var n := FirstJam(c, was, base, ts);
            Reported(c, was, base, ts[..n]) == 0 <==> forall i :: 0 <= i < n ==> Yield(c, was, base, ts[i]) == 0
  {
    ReportedOfCopied(c, was, base, ts);
    var n := FirstJam(c, was, base, ts);
    ReportedNothing(c, was, base, ts[..n]);
    assert forall i :: 0 <= i < n ==> ts[..n][i] == ts[i];
  }

  lemma YieldOfCopied(c: Setup, was: map<string, ChainState>, base: CursorTable, t: Option<string>)
    ensures Yield(c, was, base, t) <= |Flat(Taken(c, was, base, t))|
    ensures Yield(c, was, base, t) == |Flat(Taken(c, was, base, t))| <==> Goes(c, was, base, t) || Flat(Taken(c, was, base, t)) == []
  {
    hide Pull;
  }

  lemma {:induction false} ReportedOfCopied(c: Setup, was: map<string, ChainState>, base: CursorTable, ts: seq<Option<string>>)
    ensures Reported(c, was, base, ts) <= CopiedBy(c, was, base, ts)
    ensures Reported(c, was, base, ts) == CopiedBy(c, was, base, ts)
            <==> forall i :: 0 <= i < |ts| ==> Goes(c, was, base, ts[i]) || Flat(Taken(c, was, base, ts[i])) == []
  {
    hide Yield, Goes, Taken, Flat;
    if ts != [] {
      var front := ts[..|ts| - 1];
      ReportedOfCopied(c, was, base, front);
      YieldOfCopied(c, was, base, ts[|ts| - 1]);
      assert forall i :: 0 <= i < |front| ==> front[i] == ts[i];
    }
  }

  lemma {:induction false} ReportedSplits(c: Setup, was: map<string, ChainState>, base: CursorTable, ts: seq<Option<string>>, n: nat)
    requires n <= |ts|
    ensures Reported(c, was, base, ts) == Reported(c, was, base, ts[..n]) + Reported(c, was, base, ts[n..])
  {
    hide Yield;
    if n == |ts| {
      assert ts[..n] == ts && ts[n..] == [];
    } else {
      var front := ts[..|ts| - 1];
      ReportedSplits(c, was, base, front, n);
      assert front[..n] == ts[..n] && front[n..] == ts[n..][..|ts| - n - 1];
    }
  }

  lemma {:induction false} ReportedNothing(c: Setup, was: map<string, ChainState>, base: CursorTable, ts: seq<Option<string>>)
    ensures Reported(c, was, base, ts) == 0 <==> forall i :: 0 <= i < |ts| ==> Yield(c, was, base, ts[i]) == 0
  {
    hide Yield;
    if ts != [] {
      var front := ts[..|ts| - 1];
      ReportedNothing(c, was, base, front);
      assert forall i :: 0 <= i < |front| ==> front[i] == ts[i];
    }
  }

  lemma RefusedDoesNotGo(c: Setup, was: map<string, ChainState>, base: CursorTable, t: Option<string>)
    ensures RefusedAt(c, was, base, t) || DiesAt(c, was, base, t) <==> !Goes(c, was, base, t)
  {}

  lemma PassReads(h: Linker, c: Setup, was: map<string, ChainState>, base: CursorTable, ts: seq<Option<string>>, from: nat, n: nat,
                  now: map<string, ChainState>, txCursors: CursorTable, committed: CursorTable, pending: CursorTable)
    requires DistinctChains(ts) && n < |ts| && Passing(h, c, was, base, ts, from, n, now, txCursors, committed, pending)
    ensures now.Keys == was.Keys && CursorKey(ts[n]) !in pending
    ensures Find(txCursors, CursorKey(ts[n])) == Find(base, CursorKey(ts[n]))
    ensures Find(committed, CursorKey(ts[n])) == Find(base, CursorKey(ts[n]))
  {
    hide CursorKey;
  }

  lemma ReportedStep(c: Setup, was: map<string, ChainState>, base: CursorTable, ts: seq<Option<string>>, n: nat)
    requires n < |ts|
    ensures Reported(c, was, base, ts[..n + 1]) == Reported(c, was, base, ts[..n]) + Yield(c, was, base, ts[n])
    ensures RolledBack(c, was, base, ts[..n + 1]) == if RefusedAt(c, was, base, ts[n]) then n + 1 else RolledBack(c, was, base, ts[..n])
  {
    assert ts[..n + 1][..n] == ts[..n];
  }

  lemma YieldsNothing(c: Setup, was: map<string, ChainState>, base: CursorTable, t: Option<string>)
    ensures Halted(base, t) || !Goes(c, was, base, t) ==> Yield(c, was, base, t) == 0
  {}

  /** One more chain drained, whatever came of it. */
  lemma PassTakes(h: Linker, c: Setup, was: map<string, ChainState>, base: CursorTable, ts: seq<Option<string>>, from: nat, n: nat,
                  now: map<string, ChainState>, txCursors: CursorTable, committed: CursorTable, pending: CursorTable,
                  next: map<string, ChainState>, txNext: CursorTable, committedNext: CursorTable, pendingNext: CursorTable, res: DrainResult)
    requires DistinctChains(ts) && n < |ts|
    requires Passing(h, c, was, base, ts, from, n, now, txCursors, committed, pending)
    requires LogHas(h, c.minting, ts[n], now, next, Taken(c, was, base, ts[n]))
    requires forall k :: k != CursorKey(ts[n]) ==> Find(txNext, k) == Find(txCursors, k)
    requires forall k :: k != CursorKey(ts[n]) ==> Find(committedNext, k) == Find(committed, k)
    requires if res.Appended? then CursorKey(ts[n]) in txNext && pendingNext == pending[CursorKey(ts[n]) := txNext[CursorKey(ts[n])]]
                                   && CursorLeft(c, was, base, ts[n], RowOf(txNext, CursorKey(ts[n])).cursor)
             else pendingNext == pending && CursorLeft(c, was, base, ts[n], RowOf(committedNext, CursorKey(ts[n])).cursor)
    ensures Passing(h, c, was, base, ts, from, n + 1, next, txNext, committedNext, pendingNext)
  {
    hide Passing, LogHas, Taken, CursorLeft, CursorKey, Find, RowOf, DistinctChains;
    PassReads(h, c, was, base, ts, from, n, now, txCursors, committed, pending);
    DrainLeaves(h, c, was, base, ts[n], now, txCursors, committed, pending, next, txNext, committedNext, pendingNext, res);
    PassGoesOn(h, c, was, base, ts, from, n, now, txCursors, committed, pending, next, txNext, committedNext, pendingNext);
  }

  lemma DrainLeaves(h: Linker, c: Setup, was: map<string, ChainState>, base: CursorTable, t: Option<string>,
                    now: map<string, ChainState>, txCursors: CursorTable, committed: CursorTable, pending: CursorTable,
                    next: map<string, ChainState>, txNext: CursorTable, committedNext: CursorTable, pendingNext: CursorTable, res: DrainResult)
    requires LogHas(h, c.minting, t, now, next, Taken(c, was, base, t))
    requires forall k :: k != CursorKey(t) ==> Find(txNext, k) == Find(txCursors, k)
    requires forall k :: k != CursorKey(t) ==> Find(committedNext, k) == Find(committed, k)
    requires CursorKey(t) !in pending
    requires if res.Appended? then CursorKey(t) in txNext && pendingNext == pending[CursorKey(t) := txNext[CursorKey(t)]]
                                   && CursorLeft(c, was, base, t, RowOf(txNext, CursorKey(t)).cursor)
             else pendingNext == pending && CursorLeft(c, was, base, t, RowOf(committedNext, CursorKey(t)).cursor)
    ensures DrainLeft(h, c, was, base, t, now, txCursors, committed, pending, next, txNext, committedNext, pendingNext)
  {}
}
