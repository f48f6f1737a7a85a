/** Writers and retention runs on one chain, interleaved statement by statement: locks,
    private rows, commit and abort anywhere. Every committed transaction has the effect
    it would have had alone, so archive and table stay one chain. */
module AuditProtocol {
  import opened Common
  import opened Hashing
  import opened Chain
  import opened Writer
  import opened Retention

  // ---- state ----

  /** What is committed: the archived rows, the rows in the table and the days it has
      partitions for. The sequence belongs to no transaction: aborting gives nothing back. */
  datatype Db = Db(archive: seq<Row>, table: seq<Row>, nextSeq: int, partitions: set<int>)

  function Log(db: Db): seq<Row> { db.archive + db.table }

  function Base(db: Db): Option<Hash> { HeadHash(None, db.archive) }

  /** Where a writer is in its current batch. */
  datatype BatchCall = Idle | Locking(batch: seq<Content>) | Chained(batch: seq<Content>)
                     | Inserting(batch: seq<Content>, head: Option<Hash>, done: nat)

  /** Where a retention run is. `mark` remembers how long the chain was at the second
      listing; the code has no such variable. */
  datatype Phase = Listed(first: set<int>)
                 | Reading(listed: set<int>, mark: nat, stats: map<int, PartStat>, kept: Option<Option<int>>)
                 | Planned(drop: set<int>)
                 | Streamed(drop: set<int>, rows: seq<Row>)

  /** An open transaction. A writer may make several batch calls; its rows are its own until it
      commits. `written` and `from` remember its finished calls and the sequence value it
      started at. */
  datatype Tx = Write(held: set<int>, chained: bool, call: BatchCall, mine: seq<Row>,
                      written: seq<seq<Content>>, from: int)
              | Run(held: set<int>, cutoff: int, phase: Phase)

  datatype Sys = Sys(db: Db, txs: map<nat, Tx>)

  datatype Action =
    | Begin(t: nat) | Call(t: nat, batch: seq<Content>) | LockDay(t: nat, day: int) | LockChain(t: nat)
    | SeedHead(t: nat) | Insert(t: nat) | EndCall(t: nat) | CommitWrite(t: nat)
    | StartRun(t: nat, cutoff: int) | LockAged(t: nat, day: int) | Relist(t: nat) | ReadStat(t: nat, day: int)
    | ReadKept(t: nat) | Select(t: nat, drop: set<int>) | Stream(t: nat) | CommitRun(t: nat)
    | Abort(t: nat)

  // ---- steps ----

  function Aged(db: Db, cutoff: int): set<int> { set d | d in db.partitions && d < cutoff }

  function StatSet(stats: map<int, PartStat>, days: set<int>): set<PartStat>
    requires days <= stats.Keys
  {
    set d | d in days :: stats[d]
  }

  /** What `select_droppable` returns: the greatest safe set. */
  ghost predicate Selects(stats: map<int, PartStat>, kept: Option<int>, drop: set<int>) {
    && drop <= stats.Keys
    && Safe(StatSet(stats, drop), StatSet(stats, stats.Keys), kept)
    && forall d :: Safe(d, StatSet(stats, stats.Keys), kept) ==> d <= StatSet(stats, drop)
  }

  /** The transaction is at the statement `a`. */
  ghost predicate Ready(tx: Tx, a: Action) {
    match a
    case Begin(_) => false
    case StartRun(_, _) => false
    case Call(_, _) => tx.Write? && tx.call.Idle?
    case LockDay(_, d) => tx.Write? && tx.call.Locking? && d in DaysOf(tx.call.batch) && d !in tx.held
    case LockChain(_) => tx.Write? && tx.call.Locking? && DaysOf(tx.call.batch) <= tx.held
    case SeedHead(_) => tx.Write? && tx.call.Chained?
    case Insert(_) => tx.Write? && tx.call.Inserting? && tx.call.done < |tx.call.batch|
    case EndCall(_) => tx.Write? && tx.call.Inserting? && tx.call.done == |tx.call.batch|
    case CommitWrite(_) => tx.Write? && tx.call.Idle?
    case LockAged(_, d) => tx.Run? && tx.phase.Listed? && d in tx.phase.first && d !in tx.held
    case Relist(_) => tx.Run? && tx.phase.Listed? && tx.phase.first != {} && tx.phase.first <= tx.held
    case ReadStat(_, d) => tx.Run? && tx.phase.Reading? && d in tx.phase.listed && d !in tx.phase.stats
    case ReadKept(_) => tx.Run? && tx.phase.Reading? && tx.phase.stats.Keys == tx.phase.listed && tx.phase.kept.None?
    case Select(_, drop) => tx.Run? && tx.phase.Reading? && tx.phase.kept.Some?
                            && Selects(tx.phase.stats, tx.phase.kept.value, drop)
    case Stream(_) => tx.Run? && tx.phase.Planned?
    case CommitRun(_) => tx.Run? && tx.phase.Streamed?
    case Abort(_) => true
  }

  predicate HasChain(tx: Tx) { tx.Write? && tx.chained }

  /** The lock the statement waits for is not held by another transaction. */
  predicate Granted(txs: map<nat, Tx>, a: Action) {
    match a
    case LockDay(t, d) => forall u :: u in txs ==> d !in txs[u].held
    case LockAged(t, d) => forall u :: u in txs ==> d !in txs[u].held
    case LockChain(t) => forall u :: u in txs && u != t ==> !HasChain(txs[u])
    case _ => true
  }

  function Private(db: Db, w: Tx): seq<Row>
    requires w.Write?
  {
    db.table + w.mine
  }

  function NextInsert(h: Linker, db: Db, w: Tx): Appending
    requires w.Write? && w.call.Inserting? && w.call.done < |w.call.batch|
  {
    InsertOne(h, Appending(Private(db, w), w.call.head, db.nextSeq), w.call.batch[w.call.done])
  }

  lemma NextInsertGrows(h: Linker, db: Db, w: Tx)
    requires w.Write? && w.call.Inserting? && w.call.done < |w.call.batch|
    ensures Private(db, w) <= NextInsert(h, db, w).rows
    ensures |NextInsert(h, db, w).rows| >= |db.table|
  {}

  function WriterAfter(h: Linker, db: Db, w: Tx, a: Action): Tx
    requires w.Write? && Ready(w, a) && !a.Abort? && !a.CommitWrite?
  {
    match a
    case Call(_, batch) => w.(call := Locking(batch))
    case LockDay(_, d) => Write(w.held + {d}, w.chained, w.call, w.mine, w.written, w.from)
    case LockChain(_) => w.(call := Chained(w.call.batch), chained := true, from := if w.chained then w.from else db.nextSeq)
    case SeedHead(_) => w.(call := Inserting(w.call.batch, HeadHash(Base(db), Private(db, w)), 0))
    case Insert(_) =>
      var next := NextInsert(h, db, w);
      NextInsertGrows(h, db, w);
      w.(mine := next.rows[|db.table|..], call := Inserting(w.call.batch, next.head, w.call.done + 1))
    case EndCall(_) => w.(call := Idle, written := w.written + [w.call.batch])
  }

  function RunAfter(db: Db, r: Tx, a: Action): Tx
    requires r.Run? && Ready(r, a) && !a.Abort? && !a.CommitRun?
  {
    match a
    case LockAged(_, d) => Run(r.held + {d}, r.cutoff, r.phase)
    case Relist(_) => r.(phase := Reading(Aged(db, r.cutoff), |Log(db)|, map[], None))
    case ReadStat(_, d) => r.(phase := r.phase.(stats := r.phase.stats[d := StatOf(db.table, d)]))
    case ReadKept(_) => r.(phase := r.phase.(kept := Some(KeptMin(db.table, r.cutoff))))
    case Select(_, drop) => r.(phase := Planned(drop))
    case Stream(_) => r.(phase := Streamed(r.phase.drop, Pick(db.table, r.phase.drop, true)))
  }

  /** What becomes visible to everyone. Creating a partition and adding rows do so on
      commit; taking a sequence value does at once. Dropping a partition takes whatever
      rows are in it. */
  function DbAfter(h: Linker, db: Db, tx: Tx, a: Action): Db
    requires Ready(tx, a)
  {
    match a
    case Insert(_) => db.(nextSeq := db.nextSeq + 1)
    case CommitWrite(_) => db.(table := Private(db, tx), partitions := db.partitions + tx.held)
    case CommitRun(_) => Db(db.archive + tx.phase.rows, Pick(db.table, tx.phase.drop, false), db.nextSeq,
                            db.partitions - tx.phase.drop)
    case _ => db
  }

  ghost predicate Enabled(s: Sys, a: Action) {
    if a.Begin? || a.StartRun? then a.t !in s.txs
    else a.t in s.txs && Ready(s.txs[a.t], a) && Granted(s.txs, a)
  }

  predicate Ends(a: Action) { a.Abort? || a.CommitWrite? || a.CommitRun? }

  function Without(txs: map<nat, Tx>, t: nat): map<nat, Tx> { map u | u in txs && u != t :: txs[u] }

  /** One statement of one transaction; one that cannot happen now changes nothing. */
  ghost function Next(h: Linker, s: Sys, a: Action): Sys {
    if !Enabled(s, a) then s
    else if a.Begin? then s.(txs := s.txs[a.t := Write({}, false, Idle, [], [], 0)])
    else if a.StartRun? then s.(txs := s.txs[a.t := Run({}, a.cutoff, Listed(Aged(s.db, a.cutoff)))])
    else
      var tx := s.txs[a.t];
      Sys(DbAfter(h, s.db, tx, a),
          if Ends(a) then Without(s.txs, a.t)
          else s.txs[a.t := if tx.Write? then WriterAfter(h, s.db, tx, a) else RunAfter(s.db, tx, a)])
  }

  ghost function After(h: Linker, s: Sys, acts: seq<Action>): Sys {
    if acts == [] then s else Next(h, After(h, s, acts[..|acts| - 1]), acts[|acts| - 1])
  }

  /** A batch's fresh rows follow the tail. */
  ghost predicate CleanSeed(s: Sys, a: Action) {
    a.SeedHead? && Enabled(s, a) ==>
      CleanBatch(Keys(Private(s.db, s.txs[a.t])), None, s.txs[a.t].call.batch)
  }

  /** The second listing finds only partitions that were locked after the first. */
  ghost predicate LockedRelist(s: Sys, a: Action) {
    a.Relist? && Enabled(s, a) ==> Aged(s.db, s.txs[a.t].cutoff) <= s.txs[a.t].held
  }

  ghost predicate Throughout(h: Linker, s: Sys, acts: seq<Action>, p: (Sys, Action) -> bool) {
    acts != [] ==>
      && Throughout(h, s, acts[..|acts| - 1], p)
      && p(After(h, s, acts[..|acts| - 1]), acts[|acts| - 1])
  }

  // ---- what a writer's transaction amounts to ----

  function WriteCall(h: Linker, base: Option<Hash>, a: Appending, batch: seq<Content>): Appending {
    InsertAll(h, a.(head := HeadHash(base, a.rows)), batch)
  }

  /** Whole batch calls, one after the other, with nothing in between. */
  function WriteCalls(h: Linker, base: Option<Hash>, a: Appending, calls: seq<seq<Content>>): Appending {
    if calls == [] then a
    else WriteCall(h, base, WriteCalls(h, base, a, calls[..|calls| - 1]), calls[|calls| - 1])
  }

  /** Where the transaction is heading. */
  function Doing(h: Linker, db: Db, w: Tx): Appending
    requires w.Write? && (w.call.Inserting? ==> w.call.done <= |w.call.batch|)
  {
    if w.call.Inserting? then
      InsertAll(h, Appending(Private(db, w), w.call.head, db.nextSeq), w.call.batch[w.call.done..])
    else Appending(Private(db, w), None, db.nextSeq)
  }

  /** Where it would be had it run alone on what is committed now. */
  function Asked(h: Linker, db: Db, w: Tx): Appending
    requires w.Write?
  {
    var before := WriteCalls(h, Base(db), Appending(db.table, None, w.from), w.written);
    if w.call.Inserting? then WriteCall(h, Base(db), before, w.call.batch) else before
  }

  // ---- invariant ----

  ghost predicate DbOk(h: Linker, db: Db) {
    && Linked(h, None, Log(db)) && Ascending(None, Log(db))
    && (LastSeq(None, Log(db)).Some? ==> LastSeq(None, Log(db)).value < db.nextSeq)
    && forall i :: 0 <= i < |db.table| ==> RowDay(db.table[i]) in db.partitions
  }

  /** No row of these is on one of these days. */
  ghost predicate Clear(rows: seq<Row>, days: set<int>) {
    forall i :: 0 <= i < |rows| ==> RowDay(rows[i]) !in days
  }

  ghost predicate On(rows: seq<Row>, days: set<int>) {
    forall i :: 0 <= i < |rows| ==> RowDay(rows[i]) in days
  }

  ghost predicate CallsOn(calls: seq<seq<Content>>, days: set<int>) {
    forall i :: 0 <= i < |calls| ==> DaysOf(calls[i]) <= days
  }

  ghost predicate CallOk(w: Tx)
    requires w.Write?
  {
    match w.call
    case Idle => true
    case Locking(_) => true
    case Chained(batch) => w.chained && DaysOf(batch) <= w.held
    case Inserting(batch, _, done) => w.chained && DaysOf(batch) <= w.held && done <= |batch|
  }

  ghost predicate Appends(h: Linker, db: Db, w: Tx)
    requires w.Write? && CallOk(w)
  {
    && Doing(h, db, w).rows == Asked(h, db, w).rows && Doing(h, db, w).nextSeq == Asked(h, db, w).nextSeq
    && Linked(h, Base(db), Doing(h, db, w).rows)
    && Ascending(LastSeq(None, db.archive), Private(db, w))
    && (LastSeq(LastSeq(None, db.archive), Private(db, w)).Some? ==>
          LastSeq(LastSeq(None, db.archive), Private(db, w)).value < db.nextSeq)
  }

  ghost predicate WriterOk(h: Linker, db: Db, w: Tx)
    requires w.Write?
  {
    && CallOk(w) && On(w.mine, w.held) && CallsOn(w.written, w.held)
    && (if w.chained then Appends(h, db, w) else w.mine == [] && w.written == [])
  }

  /** Rows of the listed days lie before the mark; before the mark, aged rows still in the
      table are of listed days. */
  ghost predicate Marked(db: Db, cutoff: int, listed: set<int>, mark: nat) {
    && (forall d :: d in listed ==> d < cutoff)
    && forall j :: 0 <= j < |db.table| ==>
         && (RowDay(db.table[j]) in listed ==> |db.archive| + j < mark)
         && (|db.archive| + j < mark && RowDay(db.table[j]) < cutoff ==> RowDay(db.table[j]) in listed)
  }

  ghost predicate KeptBelow(db: Db, cutoff: int, mark: nat, kept: Option<int>) {
    forall j :: 0 <= j < |db.table| && |db.archive| + j < mark && RowDay(db.table[j]) >= cutoff ==>
      kept.Some? && kept.value <= db.table[j].seqNo
  }

  ghost predicate StatsHold(table: seq<Row>, stats: map<int, PartStat>) {
    forall d :: d in stats ==> stats[d] == StatOf(table, d)
  }

  ghost predicate Cuts(table: seq<Row>, days: set<int>) { exists n :: IsCut(table, days, n) }

  ghost predicate RunOk(db: Db, r: Tx)
    requires r.Run?
  {
    match r.phase
    case Listed(_) => true
    case Reading(listed, mark, stats, kept) =>
      && listed <= r.held && mark <= |Log(db)| && Marked(db, r.cutoff, listed, mark)
      && stats.Keys <= listed && StatsHold(db.table, stats)
      && (kept.Some? ==> stats.Keys == listed && KeptBelow(db, r.cutoff, mark, kept.value))
    case Planned(drop) => drop <= r.held && Cuts(db.table, drop)
    case Streamed(drop, rows) => drop <= r.held && Cuts(db.table, drop) && rows == Pick(db.table, drop, true)
  }

  ghost predicate TxOk(h: Linker, db: Db, tx: Tx) {
    if tx.Write? then WriterOk(h, db, tx) else RunOk(db, tx)
  }

  ghost predicate Exclusive(txs: map<nat, Tx>) {
    forall t, u :: t in txs && u in txs && t != u ==>
      txs[t].held !! txs[u].held && !(HasChain(txs[t]) && HasChain(txs[u]))
  }

  ghost predicate Good(h: Linker, s: Sys) {
    && DbOk(h, s.db)
    && Exclusive(s.txs)
    && forall t :: t in s.txs ==> TxOk(h, s.db, s.txs[t])
  }
}
