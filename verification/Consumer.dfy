/** The queue consumer: read, drain the core first, write, commit, and only then acknowledge. */
module Consumer {
  import opened Common
  import opened Hashing
  import opened Chain
  import opened Writer
  import opened Accountability
  import opened Cursors
  import opened Puller
  import opened Drains
  import opened DrainedLog
  import opened DrainPass
  import Locks

  /** A delivered message; one that cannot be parsed has no row. */
  datatype Entry = Entry(id: string, row: Option<AuditRow>)

  function RowsOf(entries: seq<Entry>): seq<AuditRow> {
    if entries == [] then []
    else
      var e := entries[|entries| - 1];
      RowsOf(entries[..|entries| - 1]) + (if e.row.Some? then [e.row.value] else [])
  }

  function Ids(entries: seq<Entry>, valid: bool): set<string> {
    set i | 0 <= i < |entries| && entries[i].row.Some? == valid :: entries[i].id
  }

  // ---- which chains are drained, and in what order ----

  function InsertText(t: string, ts: seq<string>): seq<string> {
    if ts == [] then [t]
    else if t == ts[0] then ts
    else if Locks.TextLess(t, ts[0]) then [t] + ts
    else [ts[0]] + InsertText(t, ts[1..])
  }

  predicate NamesTenant(r: AuditRow) { !r.isGlobal && r.tenant.Some? && r.tenant.value != "" }

  /** The tenants of these rows, sorted, each once. */
  function TenantsOf(rows: seq<AuditRow>): seq<string> {
    if rows == [] then []
    else
      var r, front := rows[|rows| - 1], TenantsOf(rows[..|rows| - 1]);
      if NamesTenant(r) then InsertText(r.tenant.value, front) else front
  }

  lemma {:induction false} InsertTextKeeps(t: string, ts: seq<string>)
    requires Sorted(ts)
    ensures Sorted(InsertText(t, ts))
    ensures forall x :: x in InsertText(t, ts) <==> x in ts || x == t
    decreases ts
  {
    if ts != [] && t != ts[0] {
      assert ts == [ts[0]] + ts[1..];
      if Locks.TextLess(t, ts[0]) {
        forall i | 0 <= i < |ts| ensures Locks.TextLess(t, ts[i]) {
          if i > 0 {
            Locks.TextLessTransitive(t, ts[0], ts[i]);
          }
        }
      } else {
        Locks.TextLessTotal(t, ts[0]);
        InsertTextKeeps(t, ts[1..]);
        var rest := InsertText(t, ts[1..]);
        forall i | 0 <= i < |rest| ensures Locks.TextLess(ts[0], rest[i]) {
          assert rest[i] in rest;
          if rest[i] != t {
            var j :| 0 <= j < |ts[1..]| && ts[1..][j] == rest[i];
            assert ts[j + 1] == rest[i];
          }
        }
      }
    }
  }

  lemma {:induction false} TenantsSorted(rows: seq<AuditRow>)
    ensures Sorted(TenantsOf(rows))
    ensures forall t :: t in TenantsOf(rows) <==> t != "" && exists i :: 0 <= i < |rows| && !rows[i].isGlobal && rows[i].tenant == Some(t)
  {
    if rows != [] {
      var n := |rows| - 1;
      TenantsSorted(rows[..n]);
      if NamesTenant(rows[n]) {
        InsertTextKeeps(rows[n].tenant.value, TenantsOf(rows[..n]));
      }
      forall t ensures t in TenantsOf(rows) <==> exists i :: 0 <= i < |rows| && NamesTenant(rows[i]) && rows[i].tenant == Some(t) {
        if i :| 0 <= i < |rows| && NamesTenant(rows[i]) && rows[i].tenant == Some(t) {
          assert i < n ==> rows[..n][i] == rows[i];
        }
        if t in TenantsOf(rows[..n]) {
          var i :| 0 <= i < |rows[..n]| && NamesTenant(rows[..n][i]) && rows[..n][i].tenant == Some(t);
          assert rows[i] == rows[..n][i];
        }
      }
    }
  }

  ghost predicate AfterDrains(h: Linker, c: Setup, was: map<string, ChainState>, cursors: CursorTable, rows: seq<AuditRow>,
                              mid: map<string, ChainState>, midCursors: CursorTable)
  {
    Drained(h, c, was, cursors, DrainOrder(TenantsOf(rows)), |DrainOrder(TenantsOf(rows))|, mid, midCursors)
  }

  /** What a committed cycle leaves: on every chain the core's records first, then the rows
      of the queue. */
  ghost predicate CommittedCycle(h: Linker, c: Setup, was: map<string, ChainState>, cursors: CursorTable, rows: seq<AuditRow>,
                                 now: map<string, ChainState>, nowCursors: CursorTable)
  {
    if rows == [] then now == was && nowCursors == cursors
    else
      exists mid ::
        && AfterDrains(h, c, was, cursors, rows, mid, nowCursors)
        && now.Keys == mid.Keys
        && (forall k :: k in mid ==> now[k] == Written(h, mid[k], Project(rows, k)))
        && (forall i :: 0 <= i < |rows| ==> ChainKey(rows[i]) in mid)
  }

  datatype CycleResult = NothingRead | WriteFailed(acked: nat) | Committed(acked: nat)

  class AuditConsumer {
    const puller: AccountabilityPuller
    const log: AuditDb
    const cursors: CursorStore
    var acked: set<string>
    var heads: map<string, Option<Hash>>
    var written: nat
    var dropped: nat

    constructor (puller: AccountabilityPuller, log: AuditDb, cursors: CursorStore)
      ensures this.puller == puller && this.log == log && this.cursors == cursors && acked == {} && written == 0 && dropped == 0
    {
      this.puller, this.log, this.cursors := puller, log, cursors;
      acked, heads, written, dropped := {}, map[], 0, 0;
    }

    /** The consumer passes no hint. */
    function SetupFor(world: Outside): Setup {
      Setup(puller.g, puller.minting, puller.pageSize, puller.maxPages, world.(hint := _ => None))
    }

    /** Drains the global chain, then every tenant the rows name. Any failure fails the
        cycle; a halted chain is passed over. */
    method DrainCoreFirst(db: AuditDb, txCursors: CursorStore, rows: seq<AuditRow>, world: Outside, alarmLost: bool)
      returns (ok: bool)
      requires txCursors != cursors && NoReserved(TenantsOf(rows))
      modifies db, txCursors, cursors, this`heads
      ensures ok ==> Drained(db.h, SetupFor(world), old(db.chains), old(txCursors.rows), DrainOrder(TenantsOf(rows)),
                             |DrainOrder(TenantsOf(rows))|, db.chains, txCursors.rows)
      ensures ok ==> cursors.rows == old(cursors.rows) && db.chains.Keys == old(db.chains.Keys)
      ensures NoCursorMoved(old(cursors.rows), cursors.rows)
      ensures ok <==> AllGo(SetupFor(world), old(db.chains), old(txCursors.rows), DrainOrder(TenantsOf(rows)))
    {
      hide Pull, PagesWritten, Drained, DrainOrder, LogHas;
      NothingDrained(db.h, SetupFor(world), db.chains, txCursors.rows, DrainOrder(TenantsOf(rows)));
      var ts := DrainOrder(TenantsOf(rows));
      TenantsSorted(rows);
      var i := 0;
      while i < |ts|
        invariant i <= |ts| && cursors.rows == old(cursors.rows)
        invariant Drained(db.h, SetupFor(world), old(db.chains), old(txCursors.rows), ts, i, db.chains, txCursors.rows)
        invariant forall j :: 0 <= j < i ==> Goes(SetupFor(world), old(db.chains), old(txCursors.rows), ts[j])
      {
        ghost var now, nowCursors := db.chains, txCursors.rows;
        forall j | 0 <= j < i ensures AuditKey(ts[j]) != AuditKey(ts[i]) && CursorKey(ts[j]) != CursorKey(ts[i]) {
          OrderDistinct(TenantsOf(rows), j, i);
        }
        DrainedSoFar(db.h, SetupFor(world), old(db.chains), old(txCursors.rows), ts, i, now, nowCursors);
        SameTaken(SetupFor(world), old(db.chains), old(txCursors.rows), now, nowCursors, ts[i]);
        var res;
        res, heads := puller.Drain(db, txCursors, cursors, ts[i], world.source(ts[i]), world.anchor(ts[i]), None, alarmLost, heads);
        if res.Raised? {
          AlarmMovesNothing(old(cursors.rows), cursors.rows, CursorKey(ts[i]),
                            Pulling(SetupFor(world), now, nowCursors, ts[i]), alarmLost);
          return false;
        }
        DrainIsOne(db.h, SetupFor(world), ts[i], now, nowCursors, db.chains, txCursors.rows);
        DrainedMore(db.h, SetupFor(world), old(db.chains), old(txCursors.rows), ts, i, now, nowCursors, db.chains, txCursors.rows);
        i := i + 1;
      }
      DrainedKeys(db.h, SetupFor(world), old(db.chains), old(txCursors.rows), ts, db.chains, txCursors.rows);
      return true;
    }

    /** Drains, writes and commits in one transaction, or leaves the log as it was. */
    method WriteRows(rows: seq<AuditRow>, world: Outside, alarmLost: bool, commitFails: bool) returns (ok: bool)
      requires NoReserved(TenantsOf(rows)) && rows != []
      modifies this`heads, log, cursors
      ensures !ok ==> log.chains == old(log.chains) && NoCursorMoved(old(cursors.rows), cursors.rows)
      ensures ok ==>
        CommittedCycle(log.h, SetupFor(world), old(log.chains), old(cursors.rows), rows, log.chains, cursors.rows)
      ensures ok <==> !commitFails && AllGo(SetupFor(world), old(log.chains), old(cursors.rows), DrainOrder(TenantsOf(rows)))
                      && forall i :: 0 <= i < |rows| ==> ChainKey(rows[i]) in old(log.chains)
    {
      hide Drained, PagesWritten, Pull, Written;
      var tx := new AuditDb(log.h, log.chains);
      var txCursors := new CursorStore(cursors.rows);
      ok := DrainCoreFirst(tx, txCursors, rows, world, alarmLost);
      if !ok {
        heads := map[];
        return false;
      }
      ghost var mid, midCursors := tx.chains, txCursors.rows;
      var count;
      ok, count, heads := WriteBatch(tx, rows, heads);
      if !ok || commitFails {
        heads := map[];
        return false;
      }
      assert AfterDrains(log.h, SetupFor(world), old(log.chains), old(cursors.rows), rows, mid, midCursors);
      log.chains := tx.chains;
      cursors.rows := txCursors.rows;
    }

    /** One cycle. Poison is acknowledged at once; the other messages only when their rows,
        and every core record read before them, were committed together. */
    method Process(entries: seq<Entry>, world: Outside, alarmLost: bool, commitFails: bool, crashBeforeAck: bool)
      returns (res: CycleResult)
      requires NoReserved(TenantsOf(RowsOf(entries)))
      modifies this`acked, this`heads, this`written, this`dropped, log, cursors
      ensures res.NothingRead? <==> entries == []
      ensures !res.Committed? ==> log.chains == old(log.chains) && NoCursorMoved(old(cursors.rows), cursors.rows)
      ensures res.WriteFailed? ==> res.acked == |Ids(entries, false)|
      ensures res.Committed? ==> res.acked == |Ids(entries, false)| + if RowsOf(entries) != [] && crashBeforeAck then 0 else |Ids(entries, true)|
      ensures dropped == old(dropped) + |Ids(entries, false)|
      ensures written == old(written) + if res.Committed? && !crashBeforeAck then |RowsOf(entries)| else 0
      ensures acked == old(acked) + Ids(entries, false) + (if res.Committed? && !crashBeforeAck then Ids(entries, true) else {})
      ensures res.Committed? ==>
        CommittedCycle(log.h, SetupFor(world), old(log.chains), old(cursors.rows), RowsOf(entries), log.chains, cursors.rows)
      ensures entries != [] && RowsOf(entries) != [] ==>
        (res.Committed? <==>
           && !commitFails && AllGo(SetupFor(world), old(log.chains), old(cursors.rows), DrainOrder(TenantsOf(RowsOf(entries))))
           && forall i :: 0 <= i < |RowsOf(entries)| ==> ChainKey(RowsOf(entries)[i]) in old(log.chains))
    {
      hide CommittedCycle;
      if entries == [] {
        return NothingRead;
      }
      var rows := RowsOf(entries);
      acked := acked + Ids(entries, false);
      dropped := dropped + |Ids(entries, false)|;
      NoRowsNoValid(entries);
      if rows != [] {
        var ok := WriteRows(rows, world, alarmLost, commitFails);
        if !ok {
          return WriteFailed(|Ids(entries, false)|);
        }
        if crashBeforeAck {
          return Committed(|Ids(entries, false)|);
        }
        acked := acked + Ids(entries, true);
        written := written + |rows|;
      } else {
        NoRowsCommitted(log.h, SetupFor(world), log.chains, cursors.rows);
      }
      return Committed(|Ids(entries, true)| + |Ids(entries, false)|);
    }
  }

  lemma NoRowsCommitted(h: Linker, c: Setup, chains: map<string, ChainState>, cursors: CursorTable)
    ensures CommittedCycle(h, c, chains, cursors, [], chains, cursors)
  {}

  lemma {:induction false} NoRowsNoValid(entries: seq<Entry>)
    ensures RowsOf(entries) == [] <==> Ids(entries, true) == {}
  {
    if entries != [] {
      var n := |entries| - 1;
      NoRowsNoValid(entries[..n]);
      if entries[n].row.Some? {
        assert entries[n].id in Ids(entries, true);
      } else {
        assert Ids(entries, true) == Ids(entries[..n], true) by {
          forall x ensures x in Ids(entries, true) <==> x in Ids(entries[..n], true) {
            if i :| 0 <= i < |entries| && entries[i].row.Some? && entries[i].id == x {
              assert entries[..n][i] == entries[i];
            }
            if i :| 0 <= i < n && entries[..n][i].row.Some? && entries[..n][i].id == x {
              assert entries[i] == entries[..n][i];
            }
          }
        }
      }
    }
  }

  // ---- the core goes first ----

  /** The tenant's chain is drained by a cycle over these rows. */
  predicate DrainedBy(rows: seq<AuditRow>, t: Option<string>) { t.None? || t.value in TenantsOf(rows) }

  lemma DrainedChain(h: Linker, c: Setup, was: map<string, ChainState>, cursors: CursorTable, rows: seq<AuditRow>,
                     mid: map<string, ChainState>, midCursors: CursorTable, t: Option<string>)
    requires AfterDrains(h, c, was, cursors, rows, mid, midCursors) && DrainedBy(rows, t) && AuditKey(t) in was
    ensures AuditKey(t) in mid
    ensures mid[AuditKey(t)] == PagesWritten(h, c.minting, t, was[AuditKey(t)], Taken(c, was, cursors, t))
    ensures CursorMoved(c, was, cursors, t, midCursors)
  {
    var ts := DrainOrder(TenantsOf(rows));
    if t.None? {
      assert ts[0] == t;
    } else {
      var j :| 0 <= j < |TenantsOf(rows)| && TenantsOf(rows)[j] == t.value;
      assert ts[j + 1] == t;
    }
  }

  /** The core answers truthfully and has records from `i` on that were not read yet. */
  ghost predicate Facing(c: Setup, cursors: CursorTable, t: Option<string>, core: seq<CoreRecord>, kept: nat, i: nat) {
    && CoreChain(c.g, core) && kept <= i <= |core| && c.size > 0 && c.most > 0
    && c.world.source(t) == HonestSource(core, kept) && c.world.hint(t).None?
    && StartFrom(RowOf(cursors, CursorKey(t)).cursor, c.world.anchor(t)) == CursorAt(core, i)
  }

  /** Where one drain gets to: nowhere when the chain is halted, else as far as it may read. */
  function Drawn(c: Setup, cursors: CursorTable, t: Option<string>, total: nat, i: nat): (j: nat)
    requires i <= total
    ensures i <= j <= total
  {
    if Halted(cursors, t) then i else i + Least(total - i, Bound(c))
  }

  /** As many records as one drain may read. */
  function Bound(c: Setup): nat { c.size * c.most }

  lemma BacklogCopied(h: Linker, c: Setup, was: map<string, ChainState>, cursors: CursorTable, t: Option<string>,
                      core: seq<CoreRecord>, kept: nat, i: nat)
    requires Facing(c, cursors, t, core, kept, i) && AuditKey(t) in was
    ensures var s, j := was[AuditKey(t)], Drawn(c, cursors, t, |core|, i);
      var mid := PagesWritten(h, c.minting, t, s, Taken(c, was, cursors, t));
      && s.table <= mid.table
      && Contents(mid.table) == Contents(s.table) + FreshContents(Keys(s.table), Copies(c.minting, t, core[i..j]))
      && forall k :: i <= k < j ==> KeyOf(Copy(c.minting, t, core[k])) in Keys(mid.table)
  {
    hide Pull, PagesWritten, CoreChain, FreshContents;
    var s, pages, j := was[AuditKey(t)], Taken(c, was, cursors, t), Drawn(c, cursors, t, |core|, i);
    HonestDrain(c.g, core, kept, i, None, c.size, c.most);
    PagesStored(h, c.minting, t, s, pages);
    assert Flat(pages) == core[i..j] by {
      assert core[i..i] == [];
    }
    forall k | i <= k < j ensures core[k] in Flat(pages) {
      assert core[i..j][k - i] == core[k];
    }
  }

  /** The cursor is committed with the copies: it is at the end of them. */
  lemma BacklogCursor(c: Setup, was: map<string, ChainState>, cursors: CursorTable, t: Option<string>, core: seq<CoreRecord>, kept: nat,
                      i: nat, nowCursors: CursorTable)
    requires Facing(c, cursors, t, core, kept, i) && AuditKey(t) in was && CursorMoved(c, was, cursors, t, nowCursors)
    ensures var j, row := Drawn(c, cursors, t, |core|, i), RowOf(nowCursors, CursorKey(t));
      && row.cursor == (if Halted(cursors, t) || j == i then RowOf(cursors, CursorKey(t)).cursor else CursorAt(core, j))
      && row.halt == RowOf(cursors, CursorKey(t)).halt
  {
    hide Pull, CoreChain, CursorAt;
    HonestDrain(c.g, core, kept, i, None, c.size, c.most);
    var j := Drawn(c, cursors, t, |core|, i);
    assert Flat(Taken(c, was, cursors, t)) == core[i..j];
  }

  lemma {:induction false} NotFresh(keys: seq<Key>, batch: seq<Content>, key: Key)
    requires forall q :: q in batch ==> KeyOf(q) != key
    ensures key !in KeysOf(FreshContents(keys, batch))
  {
    var added := FreshContents(keys, batch);
    FreshOnes(keys, batch);
    forall n | 0 <= n < |added| ensures KeysOf(added)[n] != key {
      assert added[n] in added;
    }
  }

  lemma StretchKeysDiffer(c: Setup, t: Option<string>, core: seq<CoreRecord>, i: nat, j: nat, k: nat)
    requires CoreChain(c.g, core) && i <= j <= k < |core|
    ensures forall q :: q in Copies(c.minting, t, core[i..j]) ==> KeyOf(q) != KeyOf(Copy(c.minting, t, core[k]))
  {
    hide CoreChain;
    CoreNumbers(c.g, core);
    var batch := Copies(c.minting, t, core[i..j]);
    forall q | q in batch ensures KeyOf(q) != KeyOf(Copy(c.minting, t, core[k])) {
      var m :| 0 <= m < |batch| && batch[m] == q;
      assert core[i..j][m] == core[i + m] && core[i + m].ts < core[k].ts;
      assert InstantOf(core[i + m].ts) != InstantOf(core[k].ts);
    }
  }

  /** A record that was not copied now has its key in the table only if it had before. */
  lemma UncopiedKey(c: Setup, t: Option<string>, core: seq<CoreRecord>, i: nat, j: nat, k: nat, was: seq<Row>, now: seq<Row>)
    requires CoreChain(c.g, core) && i <= j <= k < |core|
    requires Contents(now) == Contents(was) + FreshContents(Keys(was), Copies(c.minting, t, core[i..j]))
    ensures KeyOf(Copy(c.minting, t, core[k])) in Keys(now) <==> KeyOf(Copy(c.minting, t, core[k])) in Keys(was)
  {
    hide CoreChain, FreshContents, Keys;
    var key, batch := KeyOf(Copy(c.minting, t, core[k])), Copies(c.minting, t, core[i..j]);
    KeysOfContents(was);
    KeysOfContents(now);
    KeysOfConcat(Contents(was), FreshContents(Keys(was), batch));
    StretchKeysDiffer(c, t, core, i, j, k);
    NotFresh(Keys(was), batch, key);
  }

  lemma QueueFollows(h: Linker, mid: ChainState, batch: seq<Content>)
    ensures mid.table <= Written(h, mid, batch).table
    ensures Contents(Written(h, mid, batch).table) == Contents(mid.table) + FreshContents(Keys(mid.table), batch)
  {
    FreshFollow(h, Seed(mid), batch);
    OldRowsStay(h, Seed(mid), batch);
  }

  /** What a committed cycle leaves of a chain it drains, whatever the log had before: the new
      ones of the copies, as far as the drain got, and then the new ones of the queue's rows.
      So every unread core record is ahead of the cycle's queue rows if and only if those the
      drain did not get to were in the log already. */
  lemma CorePrecedesQueue(h: Linker, c: Setup, was: map<string, ChainState>, cursors: CursorTable, rows: seq<AuditRow>,
                          now: map<string, ChainState>, nowCursors: CursorTable, t: Option<string>,
                          core: seq<CoreRecord>, kept: nat, i: nat)
    returns (drained: seq<Row>, queued: seq<Content>)
    requires CommittedCycle(h, c, was, cursors, rows, now, nowCursors) && rows != []
    requires DrainedBy(rows, t) && AuditKey(t) in was && Facing(c, cursors, t, core, kept, i)
    ensures AuditKey(t) in now && was[AuditKey(t)].table <= drained <= now[AuditKey(t)].table
    ensures Contents(drained) == Contents(was[AuditKey(t)].table)
         + FreshContents(Keys(was[AuditKey(t)].table), Copies(c.minting, t, core[i..Drawn(c, cursors, t, |core|, i)]))
    ensures Contents(now[AuditKey(t)].table) == Contents(drained) + queued
    ensures queued == FreshContents(Keys(drained), Project(rows, AuditKey(t)))
    ensures forall q :: q in queued ==> q in Project(rows, AuditKey(t))
    ensures var j, row := Drawn(c, cursors, t, |core|, i), RowOf(nowCursors, CursorKey(t));
      && row.cursor == (if Halted(cursors, t) || j == i then RowOf(cursors, CursorKey(t)).cursor else CursorAt(core, j))
      && row.halt == RowOf(cursors, CursorKey(t)).halt
    ensures AllAhead(c, t, core, i, drained) <==>
            forall k :: Drawn(c, cursors, t, |core|, i) <= k < |core| ==> KeyOf(Copy(c.minting, t, core[k])) in Keys(was[AuditKey(t)].table)
  {
    hide PagesWritten, Written, Taken, Drained, Drawn, FreshContents, Keys, CoreChain, HonestSource;
    var key := AuditKey(t);
    var mid :| AfterDrains(h, c, was, cursors, rows, mid, nowCursors) && now.Keys == mid.Keys
      && (forall k :: k in mid ==> now[k] == Written(h, mid[k], Project(rows, k)))
      && (forall i :: 0 <= i < |rows| ==> ChainKey(rows[i]) in mid);
    DrainedChain(h, c, was, cursors, rows, mid, nowCursors, t);
    BacklogCopied(h, c, was, cursors, t, core, kept, i);
    BacklogCursor(c, was, cursors, t, core, kept, i, nowCursors);
    QueueFollows(h, mid[key], Project(rows, key));
    drained := mid[key].table;
    queued := FreshContents(Keys(drained), Project(rows, key));
    FreshOnes(Keys(drained), Project(rows, key));
    AheadIff(c, t, core, i, Drawn(c, cursors, t, |core|, i), was[key].table, drained);
  }

  /** Every record from `i` on is in these rows. */
  ghost predicate AllAhead(c: Setup, t: Option<string>, core: seq<CoreRecord>, i: nat, drained: seq<Row>) {
    forall k :: i <= k < |core| ==> KeyOf(Copy(c.minting, t, core[k])) in Keys(drained)
  }

  lemma AheadIff(c: Setup, t: Option<string>, core: seq<CoreRecord>, i: nat, j: nat, was: seq<Row>, drained: seq<Row>)
    requires CoreChain(c.g, core) && i <= j <= |core|
    requires Contents(drained) == Contents(was) + FreshContents(Keys(was), Copies(c.minting, t, core[i..j]))
    requires forall k :: i <= k < j ==> KeyOf(Copy(c.minting, t, core[k])) in Keys(drained)
    ensures AllAhead(c, t, core, i, drained) <==> forall k :: j <= k < |core| ==> KeyOf(Copy(c.minting, t, core[k])) in Keys(was)
  {
    hide FreshContents, Keys, CoreChain, KeyOf, Copy;
    forall k | j <= k < |core|
      ensures KeyOf(Copy(c.minting, t, core[k])) in Keys(drained) <==> KeyOf(Copy(c.minting, t, core[k])) in Keys(was)
    {
      UncopiedKey(c, t, core, i, j, k, was, drained);
    }
  }

  /** When the log has none of the unread records: the cycle puts every one of them ahead of its
      queue rows if and only if there is none, or the chain is not halted and no more are
      unread than one drain may read. */
  lemma CoreFirstIff(c: Setup, cursors: CursorTable, t: Option<string>, core: seq<CoreRecord>, kept: nat, i: nat, was: seq<Row>,
                     drained: seq<Row>)
    requires Facing(c, cursors, t, core, kept, i)
    requires forall k :: i <= k < |core| ==> KeyOf(Copy(c.minting, t, core[k])) !in Keys(was)
    requires AllAhead(c, t, core, i, drained) <==>
             forall k :: Drawn(c, cursors, t, |core|, i) <= k < |core| ==> KeyOf(Copy(c.minting, t, core[k])) in Keys(was)
    ensures AllAhead(c, t, core, i, drained) <==> i == |core| || (!Halted(cursors, t) && |core| - i <= Bound(c))
  {
    hide Keys, KeyOf, Copy, CoreChain, HonestSource, AllAhead, Bound;
    var j := Drawn(c, cursors, t, |core|, i);
    if j < |core| {
      assert KeyOf(Copy(c.minting, t, core[j])) !in Keys(was);
    }
    BoundPositive(c);
  }

  lemma BoundPositive(c: Setup)
    requires c.size > 0 && c.most > 0
    ensures Bound(c) > 0
  {}

  // ---- acknowledged means stored, over all runs ----

  /** Every chain keeps its rows and may have got more. */
  ghost predicate Grown(was: map<string, ChainState>, now: map<string, ChainState>) {
    was.Keys <= now.Keys && forall k :: k in was ==> was[k].table <= now[k].table
  }

  ghost predicate Stored(chains: map<string, ChainState>, r: AuditRow) {
    ChainKey(r) in chains && KeyOf(ContentOf(r)) in Keys(chains[ChainKey(r)].table)
  }

  lemma DrainsGrow(h: Linker, c: Setup, was: map<string, ChainState>, cursors: CursorTable, rows: seq<AuditRow>,
                   mid: map<string, ChainState>, midCursors: CursorTable)
    requires AfterDrains(h, c, was, cursors, rows, mid, midCursors)
    ensures Grown(was, mid)
  {
    var ts := DrainOrder(TenantsOf(rows));
    forall k | k in was ensures was[k].table <= mid[k].table {
      if i :| 0 <= i < |ts| && AuditKey(ts[i]) == k {
        PagesStored(h, c.minting, ts[i], was[k], Taken(c, was, cursors, ts[i]));
      }
    }
  }

  lemma {:induction false} ProjectHas(rows: seq<AuditRow>, i: nat)
    requires i < |rows|
    ensures ContentOf(rows[i]) in Project(rows, ChainKey(rows[i]))
  {
    if i > 0 {
      ProjectHas(rows[1..], i - 1);
    }
  }

  lemma WrittenStores(h: Linker, s: ChainState, rows: seq<AuditRow>, i: nat)
    requires i < |rows|
    ensures KeyOf(ContentOf(rows[i])) in Keys(Written(h, s, Project(rows, ChainKey(rows[i]))).table)
  {
    var batch := Project(rows, ChainKey(rows[i]));
    ProjectHas(rows, i);
    var j :| 0 <= j < |batch| && batch[j] == ContentOf(rows[i]);
    BatchKeysStored(h, Seed(s), batch, j);
  }

  /** A committed cycle keeps every row and stores every one of its own. */
  lemma CycleStores(h: Linker, c: Setup, was: map<string, ChainState>, cursors: CursorTable, rows: seq<AuditRow>,
                    now: map<string, ChainState>, nowCursors: CursorTable)
    requires CommittedCycle(h, c, was, cursors, rows, now, nowCursors)
    ensures Grown(was, now)
    ensures forall i :: 0 <= i < |rows| ==> Stored(now, rows[i])
  {
    hide Written, AfterDrains;
    if rows != [] {
      var mid :| AfterDrains(h, c, was, cursors, rows, mid, nowCursors) && now.Keys == mid.Keys
        && (forall k :: k in mid ==> now[k] == Written(h, mid[k], Project(rows, k)))
        && (forall i :: 0 <= i < |rows| ==> ChainKey(rows[i]) in mid);
      DrainsGrow(h, c, was, cursors, rows, mid, nowCursors);
      forall k | k in was ensures was[k].table <= now[k].table {
        QueueFollows(h, mid[k], Project(rows, k));
      }
      forall i | 0 <= i < |rows| ensures Stored(now, rows[i]) {
        WrittenStores(h, mid[ChainKey(rows[i])], rows, i);
      }
    }
  }

  /** What is committed, in tables and in archives, and what is acknowledged. */
  datatype World = World(chains: map<string, ChainState>, archives: map<string, seq<Row>>, acked: set<string>)

  /** A chain's archived rows, then its table. */
  function Whole(w: World, key: string): seq<Row>
    requires key in w.chains
  {
    (if key in w.archives then w.archives[key] else []) + w.chains[key].table
  }

  /** The message's event is in its chain's table or archive. */
  ghost predicate Kept(w: World, r: AuditRow) {
    ChainKey(r) in w.chains && KeyOf(ContentOf(r)) in Keys(Whole(w, ChainKey(r)))
  }

  ghost predicate Grew(w: World, w': World) { Grown(w.chains, w'.chains) && w'.archives == w.archives }

  /** Retention runs move rows behind archives, as `Retention.RunScope` does: each chain's
      archive followed by its table stays as it is. */
  ghost predicate Retired(w: World, w': World) {
    w'.chains.Keys == w.chains.Keys && forall k :: k in w.chains ==> Whole(w', k) == Whole(w, k)
  }

  lemma KeptStays(w: World, w': World, r: AuditRow)
    requires Kept(w, r) && (Grew(w, w') || Retired(w, w'))
    ensures Kept(w', r)
  {
    var a, b := Whole(w, ChainKey(r)), Whole(w', ChainKey(r));
    if Grew(w, w') {
      assert b == a + w'.chains[ChainKey(r)].table[|w.chains[ChainKey(r)].table|..];
      KeysConcat(a, b[|a|..]);
    }
  }

  lemma StoredIsKept(w: World, r: AuditRow)
    requires Stored(w.chains, r)
    ensures Kept(w, r)
  {
    var table := w.chains[ChainKey(r)].table;
    KeysConcat(Whole(w, ChainKey(r))[..|Whole(w, ChainKey(r))| - |table|], table);
  }

  /** A cycle as `Process` leaves it (failed, committed, or committed and stopped before it
      acknowledged), another process's commit, or retention. Every message has one content. */
  ghost predicate Step(h: Linker, message: string -> Option<AuditRow>, w: World, w': World) {
    || ((Grew(w, w') || Retired(w, w')) && w'.acked == w.acked)
    || exists entries: seq<Entry> ::
         && (forall i :: 0 <= i < |entries| ==> entries[i].row == message(entries[i].id))
         && Cycled(h, w, w', entries)
  }

  ghost predicate Cycled(h: Linker, w: World, w': World, entries: seq<Entry>) {
    && w'.archives == w.archives
    && (|| (w'.chains == w.chains && w'.acked == w.acked + Ids(entries, false))
        || (exists c, cursors, nowCursors ::
              && CommittedCycle(h, c, w.chains, cursors, RowsOf(entries), w'.chains, nowCursors)
              && w'.acked <= w.acked + Ids(entries, false) + Ids(entries, true)))
  }

  ghost predicate AckedAreStored(message: string -> Option<AuditRow>, w: World) {
    forall id :: id in w.acked && message(id).Some? ==> Kept(w, message(id).value)
  }

  lemma {:induction false} RowsOfHas(entries: seq<Entry>, i: nat)
    requires i < |entries| && entries[i].row.Some?
    ensures entries[i].row.value in RowsOf(entries)
    decreases |entries|
  {
    if i < |entries| - 1 {
      RowsOfHas(entries[..|entries| - 1], i);
    }
  }

  lemma CycleKeepsAcked(h: Linker, message: string -> Option<AuditRow>, w: World, w': World, entries: seq<Entry>)
    requires forall i :: 0 <= i < |entries| ==> entries[i].row == message(entries[i].id)
    requires Cycled(h, w, w', entries) && AckedAreStored(message, w)
    ensures AckedAreStored(message, w')
  {
    hide CommittedCycle, Kept, Stored, Grown;
    if !(w'.chains == w.chains && w'.acked == w.acked + Ids(entries, false)) {
      var c, cursors, nowCursors :| CommittedCycle(h, c, w.chains, cursors, RowsOf(entries), w'.chains, nowCursors)
        && w'.acked <= w.acked + Ids(entries, false) + Ids(entries, true);
      CycleStores(h, c, w.chains, cursors, RowsOf(entries), w'.chains, nowCursors);
      forall id | id in w'.acked && message(id).Some? ensures Kept(w', message(id).value) {
        if id in w.acked {
          KeptStays(w, w', message(id).value);
        } else {
          if j :| 0 <= j < |entries| && entries[j].row.None? && entries[j].id == id {
            assert entries[j].row == message(id);
          }
          assert id in Ids(entries, true);
          var i :| 0 <= i < |entries| && entries[i].row.Some? && entries[i].id == id;
          RowsOfHas(entries, i);
          StoredIsKept(w', message(id).value);
        }
      }
    } else {
      forall id | id in w'.acked && message(id).Some? ensures Kept(w', message(id).value) {
        if j :| 0 <= j < |entries| && entries[j].row.None? && entries[j].id == id {
          assert entries[j].row == message(id);
        }
        SameKept(w, w', message(id).value);
      }
    }
  }

  lemma SameKept(w: World, w': World, r: AuditRow)
    requires w'.chains == w.chains && w'.archives == w.archives && Kept(w, r)
    ensures Kept(w', r)
  {}

  lemma StepKeepsAcked(h: Linker, message: string -> Option<AuditRow>, w: World, w': World)
    requires Step(h, message, w, w') && AckedAreStored(message, w)
    ensures AckedAreStored(message, w')
  {
    hide Cycled, Kept, Grown, Retired;
    if (Grew(w, w') || Retired(w, w')) && w'.acked == w.acked {
      forall id | id in w'.acked && message(id).Some? ensures Kept(w', message(id).value) {
        KeptStays(w, w', message(id).value);
      }
    } else {
      var entries: seq<Entry> :| (forall i :: 0 <= i < |entries| ==> entries[i].row == message(entries[i].id)) && Cycled(h, w, w', entries);
      CycleKeepsAcked(h, message, w, w', entries);
    }
  }

  /** Whatever fails, crashes, is delivered again or is archived, in any run: a valid message
      that was acknowledged is in the log, in its table or in its archive. */
  lemma {:induction false} AcknowledgedIsStored(h: Linker, message: string -> Option<AuditRow>, worlds: seq<World>, n: nat)
    requires n < |worlds| && worlds[0].acked == {}
    requires forall i :: 0 <= i < |worlds| - 1 ==> Step(h, message, worlds[i], worlds[i + 1])
    ensures AckedAreStored(message, worlds[n])
  {
    if n > 0 {
      AcknowledgedIsStored(h, message, worlds, n - 1);
      StepKeepsAcked(h, message, worlds[n - 1], worlds[n]);
    }
  }
}
