/** Draining several chains in one transaction: each chain on its own gets the pages its
    drain takes, whatever the others do. */
module DrainPass {
  import opened Common
  import opened Hashing
  import opened Chain
  import opened Writer
  import opened Accountability
  import opened Cursors
  import opened Puller
  import Locks

  // ---- in what order ----

  predicate Sorted(ts: seq<string>) { forall i, j :: 0 <= i < j < |ts| ==> Locks.TextLess(ts[i], ts[j]) }

  lemma SortedDistinct(ts: seq<string>, i: nat, j: nat)
    requires Sorted(ts) && i < j < |ts|
    ensures ts[i] != ts[j]
  {
    Locks.TextLessIrreflexive(ts[i]);
  }

  /** No tenant is named like a reserved key. */
  predicate NoReserved(ts: seq<string>) { GLOBAL_KEY !in ts && GLOBAL_CHAIN_KEY !in ts }

  /** The global chain goes first. */
  function DrainOrder(ts: seq<string>): seq<Option<string>> {
    [None] + seq(|ts|, i requires 0 <= i < |ts| => Some(ts[i]))
  }

  lemma OrderDistinct(ts: seq<string>, i: nat, j: nat)
    requires Sorted(ts) && NoReserved(ts) && i < j < |DrainOrder(ts)|
    ensures AuditKey(DrainOrder(ts)[i]) != AuditKey(DrainOrder(ts)[j])
    ensures CursorKey(DrainOrder(ts)[i]) != CursorKey(DrainOrder(ts)[j])
  {
    if i > 0 {
      SortedDistinct(ts, i - 1, j - 1);
    } else {
      assert ts[j - 1] in ts;
    }
  }

  // ---- what the drains of one pass leave ----

  /** Everything outside the database that the drains depend on. */
  datatype Outside = Outside(source: Option<string> -> Source, anchor: Option<string> -> Option<Cursor>,
                             hint: Option<string> -> Option<int>)

  datatype Setup = Setup(g: CoreLinker, minting: Minting, size: nat, most: nat, world: Outside)

  function Pulling(c: Setup, chains: map<string, ChainState>, cursors: CursorTable, t: Option<string>): Pulled {
    Pull(c.g, c.world.source(t), StartFrom(RowOf(cursors, CursorKey(t)).cursor, c.world.anchor(t)), c.world.hint(t), 0, c.size, c.most,
         AuditKey(t) in chains)
  }

  predicate Halted(cursors: CursorTable, t: Option<string>) { RowOf(cursors, CursorKey(t)).halt.Some? }

  /** The pages a pass copies of one chain: none while it is halted. */
  function Taken(c: Setup, chains: map<string, ChainState>, cursors: CursorTable, t: Option<string>): seq<seq<CoreRecord>> {
    if Halted(cursors, t) then [] else Pulling(c, chains, cursors, t).pages
  }

  /** The chain does not stop the pass: it is halted, or its drain ends well. */
  predicate Goes(c: Setup, chains: map<string, ChainState>, cursors: CursorTable, t: Option<string>) {
    Halted(cursors, t) || Pulling(c, chains, cursors, t).ending == Finished
  }

  predicate AllGo(c: Setup, chains: map<string, ChainState>, cursors: CursorTable, ts: seq<Option<string>>) {
    forall i :: 0 <= i < |ts| ==> Goes(c, chains, cursors, ts[i])
  }

  /** A chain's cursor after a drain that ended well is at the end of what it copied; no other
      drain moves it. */
  predicate CursorLeft(c: Setup, chains: map<string, ChainState>, cursors: CursorTable, t: Option<string>, now: Cursor) {
    now == if Goes(c, chains, cursors, t) && Flat(Taken(c, chains, cursors, t)) != [] then Pulling(c, chains, cursors, t).cursor
           else RowOf(cursors, CursorKey(t)).cursor
  }

  lemma DrainMoves(was: CursorTable, now: CursorTable, key: string, p: Pulled)
    requires Moved(was, now, key, p)
    ensures RowOf(now, key).cursor == if p.ending == Finished && Flat(p.pages) != [] then p.cursor else RowOf(was, key).cursor
    ensures RowOf(now, key).halt == RowOf(was, key).halt
    ensures p.ending == Finished ==> key in now
  {
    assert Find(now, key).Some? ==> Find(now, key).value == RowOf(now, key);
    assert Find(was, key).Some? ==> Find(was, key).value == RowOf(was, key);
  }

  /** The drain moved its chain's cursor as far as it copied, and no halt; a chain that was read
      has a row. */
  predicate CursorMoved(c: Setup, chains: map<string, ChainState>, cursors: CursorTable, t: Option<string>, nowCursors: CursorTable) {
    && CursorLeft(c, chains, cursors, t, RowOf(nowCursors, CursorKey(t)).cursor)
    && RowOf(nowCursors, CursorKey(t)).halt == RowOf(cursors, CursorKey(t)).halt
    && (!Halted(cursors, t) ==> CursorKey(t) in nowCursors)
  }

  /** The drains of `ts[..n]` are done: their chains have their pages and their cursors, the
      others are as they were. */
  ghost predicate Drained(h: Linker, c: Setup, was: map<string, ChainState>, cursors: CursorTable, ts: seq<Option<string>>, n: nat,
                          now: map<string, ChainState>, nowCursors: CursorTable)
    requires n <= |ts|
  {
    && now.Keys == was.Keys
    && (forall i :: 0 <= i < n && AuditKey(ts[i]) in was ==>
          now[AuditKey(ts[i])] == PagesWritten(h, c.minting, ts[i], was[AuditKey(ts[i])], Taken(c, was, cursors, ts[i])))
    && (forall k :: k in was && (forall i :: 0 <= i < n ==> AuditKey(ts[i]) != k) ==> now[k] == was[k])
    && (forall i :: 0 <= i < n ==> CursorMoved(c, was, cursors, ts[i], nowCursors))
    && (forall k :: (forall i :: 0 <= i < n ==> CursorKey(ts[i]) != k) ==> Find(nowCursors, k) == Find(cursors, k))
  }

  lemma NoPages(h: Linker, m: Minting, t: Option<string>, s: ChainState)
    ensures PagesWritten(h, m, t, s, []) == s
  {}

  /** What one drain of a pass does: nothing while its chain is halted, else the pages it
      takes are written and its cursor is at the end of them. */
  ghost predicate OneDrained(h: Linker, c: Setup, t: Option<string>, now: map<string, ChainState>, nowCursors: CursorTable,
                             next: map<string, ChainState>, nextCursors: CursorTable)
  {
    && LogHas(h, c.minting, t, now, next, Taken(c, now, nowCursors, t))
    && CursorMoved(c, now, nowCursors, t, nextCursors)
    && forall k :: k != CursorKey(t) ==> Find(nextCursors, k) == Find(nowCursors, k)
  }

  lemma DrainIsOne(h: Linker, c: Setup, t: Option<string>, now: map<string, ChainState>, nowCursors: CursorTable,
                   next: map<string, ChainState>, nextCursors: CursorTable)
    requires if Halted(nowCursors, t) then next == now && nextCursors == nowCursors
             else LogHas(h, c.minting, t, now, next, Pulling(c, now, nowCursors, t).pages)
                  && Pulling(c, now, nowCursors, t).ending == Finished
                  && Moved(nowCursors, nextCursors, CursorKey(t), Pulling(c, now, nowCursors, t))
    ensures OneDrained(h, c, t, now, nowCursors, next, nextCursors)
  {
    if AuditKey(t) in now {
      NoPages(h, c.minting, t, now[AuditKey(t)]);
    }
    if !Halted(nowCursors, t) {
      DrainMoves(nowCursors, nextCursors, CursorKey(t), Pulling(c, now, nowCursors, t));
    }
  }

  /** One more chain is drained. */
  lemma DrainedMore(h: Linker, c: Setup, was: map<string, ChainState>, cursors: CursorTable, ts: seq<Option<string>>, n: nat,
                    now: map<string, ChainState>, nowCursors: CursorTable, next: map<string, ChainState>, nextCursors: CursorTable)
    requires n < |ts| && Drained(h, c, was, cursors, ts, n, now, nowCursors)
    requires forall i :: 0 <= i < n ==> AuditKey(ts[i]) != AuditKey(ts[n]) && CursorKey(ts[i]) != CursorKey(ts[n])
    requires OneDrained(h, c, ts[n], now, nowCursors, next, nextCursors)
    ensures Drained(h, c, was, cursors, ts, n + 1, next, nextCursors)
  {
    hide Pull, PagesWritten, CursorKey, AuditKey, Find, CursorMoved;
    var t, key := ts[n], AuditKey(ts[n]);
    SameTaken(c, was, cursors, now, nowCursors, t);
    SameMove(c, was, cursors, now, nowCursors, t, nextCursors);
    forall i | 0 <= i < n ensures CursorMoved(c, was, cursors, ts[i], nextCursors) {
      MovedStays(c, was, cursors, ts[i], nowCursors, nextCursors);
    }
    forall i | 0 <= i < n + 1 && AuditKey(ts[i]) in was
      ensures next[AuditKey(ts[i])] == PagesWritten(h, c.minting, ts[i], was[AuditKey(ts[i])], Taken(c, was, cursors, ts[i]))
    {
      if i < n {
        assert AuditKey(ts[i]) != key;
      }
    }
  }

  lemma SameTaken(c: Setup, was: map<string, ChainState>, cursors: CursorTable, now: map<string, ChainState>, nowCursors: CursorTable, t: Option<string>)
    requires now.Keys == was.Keys && Find(nowCursors, CursorKey(t)) == Find(cursors, CursorKey(t))
    ensures Taken(c, now, nowCursors, t) == Taken(c, was, cursors, t)
    ensures Goes(c, now, nowCursors, t) <==> Goes(c, was, cursors, t)
  {}

  lemma SameMove(c: Setup, was: map<string, ChainState>, cursors: CursorTable, now: map<string, ChainState>, nowCursors: CursorTable,
                 t: Option<string>, next: CursorTable)
    requires now.Keys == was.Keys && Find(nowCursors, CursorKey(t)) == Find(cursors, CursorKey(t))
    requires CursorMoved(c, now, nowCursors, t, next)
    ensures CursorMoved(c, was, cursors, t, next)
  {
    SameTaken(c, was, cursors, now, nowCursors, t);
  }

  lemma MovedStays(c: Setup, was: map<string, ChainState>, cursors: CursorTable, t: Option<string>, now: CursorTable, next: CursorTable)
    requires CursorMoved(c, was, cursors, t, now) && Find(next, CursorKey(t)) == Find(now, CursorKey(t))
    ensures CursorMoved(c, was, cursors, t, next)
  {}

  lemma NothingDrained(h: Linker, c: Setup, was: map<string, ChainState>, cursors: CursorTable, ts: seq<Option<string>>)
    ensures Drained(h, c, was, cursors, ts, 0, was, cursors)
  {}

  lemma DrainedSoFar(h: Linker, c: Setup, was: map<string, ChainState>, cursors: CursorTable, ts: seq<Option<string>>, n: nat,
                     now: map<string, ChainState>, nowCursors: CursorTable)
    requires n < |ts| && Drained(h, c, was, cursors, ts, n, now, nowCursors)
    requires forall i :: 0 <= i < n ==> CursorKey(ts[i]) != CursorKey(ts[n])
    ensures now.Keys == was.Keys && Find(nowCursors, CursorKey(ts[n])) == Find(cursors, CursorKey(ts[n]))
  {}

  lemma DrainedKeys(h: Linker, c: Setup, was: map<string, ChainState>, cursors: CursorTable, ts: seq<Option<string>>,
                    now: map<string, ChainState>, nowCursors: CursorTable)
    requires Drained(h, c, was, cursors, ts, |ts|, now, nowCursors)
    ensures now.Keys == was.Keys
  {}

  /** Halts may be new; no cursor has moved. */
  ghost predicate NoCursorMoved(was: CursorTable, now: CursorTable) {
    forall k :: RowOf(now, k).cursor == RowOf(was, k).cursor
  }

  lemma AlarmMovesNothing(was: CursorTable, now: CursorTable, key: string, p: Pulled, alarmLost: bool)
    requires Alarmed(was, now, key, p, alarmLost)
    ensures NoCursorMoved(was, now)
  {
    forall k ensures RowOf(now, k).cursor == RowOf(was, k).cursor {
      assert Find(now, k).Some? ==> Find(now, k).value == now[k];
      assert Find(was, k).Some? ==> Find(was, k).value == was[k];
    }
  }
}
