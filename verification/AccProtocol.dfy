/** One core chain, its copy in the audit log and its retention, interleaved: the core
    appends, any number of drains read and commit or not, halts and resets happen, and
    retention deletes. Nothing is deleted that was not copied. */
module AccProtocol {
  import opened Common
  import opened Hashing
  import opened Chain
  import opened Writer
  import opened Accountability
  import opened Cursors
  import opened Puller
  import opened Drains
  import opened AccRetention

  // ---- state ----

  /** What does not change: how the core and the log hash, how a record becomes a row, and
      whose chain it is. */
  datatype Env = Env(g: CoreLinker, h: Linker, minting: Minting, tenant: Option<string>)

  /** An open transaction. A drain remembers, beyond what the code keeps, the cursor it
      started from; `page` was fetched and checked and is not written yet. */
  datatype Tx =
    | Opening(row: CursorRow)
    | Draining(from: Cursor, place: Cursor, pages: seq<seq<CoreRecord>>, page: seq<CoreRecord>)
    | Staged(from: Cursor, place: Cursor, pages: seq<seq<CoreRecord>>)
    | AgedRead(agedMax: int)
    | Limited(limit: int)
    | Streamed(limit: int, rows: seq<CoreRecord>)

  /** The audit log's chain, and its rows that were archived before. */
  datatype AuditLog = AuditLog(archived: seq<Row>, chain: ChainState)

  /** `core` is everything the core ever wrote; of it, `archive` was moved away and `table`
      is still there. `copied` holds the records, roles joined, of the pages whose writing is
      committed. */
  datatype Sys = Sys(core: seq<CoreRecord>, archive: seq<CoreRecord>, table: seq<CoreRecord>, cursor: Option<CursorRow>,
                     copied: set<CoreRecord>, log: AuditLog, txs: map<nat, Tx>)

  datatype Action =
    | CoreAppend(rec: CoreRecord)
    | Open(t: nat) | Resume(t: nat) | FetchPage(t: nat, recs: seq<CoreRecord>, hint: Option<int>) | WritePage(t: nat)
    | StageCursor(t: nat) | CommitDrain(t: nat) | CommitRowsOnly(t: nat)
    | Operate(op: CursorOp)
    | OthersWrite(batch: seq<Content>) | ArchiveLog(n: nat)
    | StartRetire(t: nat, cutoff: int) | ReadCursor(t: nat) | StreamRows(t: nat) | CommitRetire(t: nat)
    | Abort(t: nat)

  // ---- steps ----

  /** The archive's end, as the cursor a fresh puller resumes from. */
  function Anchor(archive: seq<CoreRecord>): Option<Cursor> {
    if archive == [] then None else Some(Advance(archive[|archive| - 1]))
  }

  function SetOf(recs: seq<CoreRecord>): set<CoreRecord> { set r | r in recs :: Joined(r) }

  predicate Retires(tx: Tx) { tx.AgedRead? || tx.Limited? || tx.Streamed? }

  /** The transaction has written to the log, so it holds the lock of the log's chain. The
      lock is taken by the first write and not by the fetch before it. */
  predicate HoldsChain(tx: Tx) { (tx.Draining? || tx.Staged?) && tx.pages != [] }

  predicate ChainFree(txs: map<nat, Tx>, t: nat) { forall u :: u in txs && u != t ==> !HoldsChain(txs[u]) }

  /** The rows pass every check once more, from the archive's end up to the limit. */
  predicate Verified(g: CoreLinker, archive: seq<CoreRecord>, rows: seq<CoreRecord>, limit: int) {
    && rows != [] && limit > |archive| && Continues(g, StartOf(Anchor(archive)), rows)
    && rows[|rows| - 1].seqNo == limit
  }

  predicate Enabled(e: Env, s: Sys, a: Action) {
    match a
    case CoreAppend(_) => true
    case Open(t) => t !in s.txs && (s.cursor.Some? ==> s.cursor.value.halt.None?)
    case Resume(t) => t in s.txs && s.txs[t].Opening?
    case FetchPage(t, recs, hint) => t in s.txs && s.txs[t].Draining? && s.txs[t].page == [] && recs != []
                                     && VerdictOf(e.g, PosOf(s.txs[t].place), recs, hint) == Accepted
    case WritePage(t) => t in s.txs && s.txs[t].Draining? && s.txs[t].page != [] && ChainFree(s.txs, t)
    case StageCursor(t) => t in s.txs && s.txs[t].Draining? && s.txs[t].page == [] && s.txs[t].pages != []
    case CommitDrain(t) => t in s.txs && (s.txs[t].Staged? || (s.txs[t].Draining? && s.txs[t].page == [] && s.txs[t].pages == []))
    case CommitRowsOnly(t) => t in s.txs && s.txs[t].Draining? && s.txs[t].page == []
    case Operate(op) => !op.Stage?
    case OthersWrite(_) => forall u :: u in s.txs ==> !HoldsChain(s.txs[u])
    case ArchiveLog(n) => n <= |s.log.chain.table|
    case StartRetire(t, cutoff) => t !in s.txs && (forall u :: u in s.txs ==> !Retires(s.txs[u])) && MaxAged(s.table, cutoff).Some?
    case ReadCursor(t) => t in s.txs && s.txs[t].AgedRead?
    case StreamRows(t) => t in s.txs && s.txs[t].Limited? && Verified(e.g, s.archive, Upto(s.table, s.txs[t].limit), s.txs[t].limit)
    case CommitRetire(t) => t in s.txs && s.txs[t].Streamed? && |Upto(s.table, s.txs[t].limit)| == |s.txs[t].rows|
    case Abort(t) => t in s.txs
  }

  function Without(txs: map<nat, Tx>, t: nat): map<nat, Tx> { map u | u in txs && u != t :: txs[u] }

  /** The log with these pages written: each record's copy where its key is new. */
  function Logged(e: Env, log: AuditLog, pages: seq<seq<CoreRecord>>): AuditLog {
    log.(chain := PagesWritten(e.h, e.minting, e.tenant, log.chain, pages))
  }

  /** The log with the first rows of its table archived; its anchor moves with them. */
  function Shortened(log: AuditLog, n: nat): AuditLog
    requires n <= |log.chain.table|
  {
    var c := log.chain;
    AuditLog(log.archived + c.table[..n],
             c.(table := c.table[n..],
                anchor := if n == 0 then c.anchor else Some(Chain.Anchor.Anchor(c.table[n - 1].seqNo, Some(c.table[n - 1].rowHash)))))
  }

  /** One step; one that cannot happen now changes nothing. */
  function Next(e: Env, s: Sys, a: Action): Sys {
    if !Enabled(e, s, a) then s
    else
      match a
      case CoreAppend(rec) => s.(core := s.core + [rec], table := s.table + [rec])
      case Open(t) => s.(txs := s.txs[t := Opening(if s.cursor.Some? then s.cursor.value else CursorRow(FRESH, None))])
      case Resume(t) =>
        var c := StartFrom(s.txs[t].row.cursor, Anchor(s.archive));
        s.(txs := s.txs[t := Draining(c, c, [], [])])
      case FetchPage(t, recs, _) => s.(txs := s.txs[t := s.txs[t].(page := recs)])
      case WritePage(t) =>
        var d := s.txs[t];
        s.(txs := s.txs[t := Draining(d.from, Advance(d.page[|d.page| - 1]), d.pages + [d.page], [])])
      case StageCursor(t) => s.(txs := s.txs[t := Staged(s.txs[t].from, s.txs[t].place, s.txs[t].pages)])
      case CommitDrain(t) =>
        var d := s.txs[t];
        var row := if d.Staged? then OpRow(s.cursor, Stage(d.place)) else s.cursor;
        s.(copied := s.copied + SetOf(Flat(d.pages)), log := Logged(e, s.log, d.pages), cursor := OpRow(row, Touch),
           txs := Without(s.txs, t))
      case CommitRowsOnly(t) =>
        var d := s.txs[t];
        s.(copied := s.copied + SetOf(Flat(d.pages)), log := Logged(e, s.log, d.pages), txs := Without(s.txs, t))
      case Operate(op) => s.(cursor := OpRow(s.cursor, op))
      case OthersWrite(batch) => s.(log := s.log.(chain := Written(e.h, s.log.chain, batch)))
      case ArchiveLog(n) => s.(log := Shortened(s.log, n))
      case StartRetire(t, cutoff) => s.(txs := s.txs[t := AgedRead(MaxAged(s.table, cutoff).value)])
      case ReadCursor(t) => s.(txs := s.txs[t := Limited(Limit(s.txs[t].agedMax, s.cursor))])
      case StreamRows(t) => s.(txs := s.txs[t := Streamed(s.txs[t].limit, Upto(s.table, s.txs[t].limit))])
      case CommitRetire(t) =>
        s.(archive := s.archive + s.txs[t].rows, table := Above(s.table, s.txs[t].limit), txs := Without(s.txs, t))
      case Abort(t) => s.(txs := Without(s.txs, t))
  }

  function After(e: Env, s: Sys, acts: seq<Action>): Sys {
    if acts == [] then s else Next(e, After(e, s, acts[..|acts| - 1]), acts[|acts| - 1])
  }

  /** The core writes one chain, and the last hash of a page that passes the checks is the
      core's. A page may miss, repeat, reorder or alter records otherwise: then the checks
      refuse it. Hashes are asked not to collide on the page and the core. */
  ghost predicate Honest(e: Env, s: Sys, a: Action) {
    && (a.CoreAppend? ==> CoreChain(e.g, s.core + [a.rec]))
    && (a.FetchPage? && Enabled(e, s, a) ==> EndsInCore(s.core, a.recs) && CoreBinds(e.g, CoreInputs(s.core) + CoreInputs(a.recs)))
  }

  ghost predicate HonestRun(e: Env, s: Sys, acts: seq<Action>) {
    acts != [] ==>
      && HonestRun(e, s, acts[..|acts| - 1])
      && Honest(e, After(e, s, acts[..|acts| - 1]), acts[|acts| - 1])
  }

  // ---- invariant ----

  /** The first `n` records were all copied. */
  ghost predicate CopiedTo(core: seq<CoreRecord>, copied: set<CoreRecord>, n: int) {
    n <= |core| && forall k :: 0 <= k < n ==> Joined(core[k]) in copied
  }

  /** The cursor stands after some record, and every record up to it was copied. */
  ghost predicate CursorOk(core: seq<CoreRecord>, copied: set<CoreRecord>, c: Cursor) {
    0 <= c.lastSeq <= |core| && c == CursorAt(core, c.lastSeq) && CopiedTo(core, copied, c.lastSeq)
  }

  ghost predicate DrainOk(core: seq<CoreRecord>, copied: set<CoreRecord>, from: Cursor, place: Cursor, pages: seq<seq<CoreRecord>>) {
    var mine := Flat(pages);
    && CursorOk(core, copied, from)
    && from.lastSeq + |mine| <= |core| && SameRecords(mine, core[from.lastSeq..from.lastSeq + |mine|])
    && place == CursorAt(core, from.lastSeq + |mine|) && (mine == [] ==> pages == [])
  }

  ghost predicate PageOk(core: seq<CoreRecord>, i: int, page: seq<CoreRecord>) {
    0 <= i && i + |page| <= |core| && SameRecords(page, core[i..i + |page|])
  }

  ghost predicate TxOk(s: Sys, tx: Tx) {
    match tx
    case Opening(row) => CursorOk(s.core, s.copied, row.cursor)
    case Draining(from, place, pages, page) => DrainOk(s.core, s.copied, from, place, pages)
                                               && PageOk(s.core, from.lastSeq + |Flat(pages)|, page)
    case Staged(from, place, pages) => DrainOk(s.core, s.copied, from, place, pages) && pages != []
    case AgedRead(_) => true
    case Limited(limit) => CopiedTo(s.core, s.copied, limit)
    case Streamed(limit, rows) => CopiedTo(s.core, s.copied, limit) && rows == Upto(s.table, limit)
                                  && limit == |s.archive| + |rows|
  }

  ghost predicate OneRetires(txs: map<nat, Tx>) {
    forall t, u :: t in txs && u in txs && t != u ==> !(Retires(txs[t]) && Retires(txs[u]))
  }

  function KeyFor(e: Env, r: CoreRecord): Key { KeyOf(Copy(e.minting, e.tenant, r)) }

  /** Every key in the log, in its table or its archive. */
  function LogKeys(log: AuditLog): seq<Key> { Keys(log.archived + log.chain.table) }

  /** What was copied is the core's, and its keys are in the log. */
  ghost predicate CopyOk(e: Env, s: Sys) {
    forall r :: r in s.copied ==>
      1 <= r.seqNo <= |s.core| && r == Joined(s.core[r.seqNo - 1]) && KeyFor(e, r) in LogKeys(s.log)
  }

  ghost predicate Good(e: Env, s: Sys) {
    && CoreChain(e.g, s.core) && s.archive + s.table == s.core
    && CopiedTo(s.core, s.copied, |s.archive|) && CopyOk(e, s)
    && (s.cursor.Some? ==> CursorOk(s.core, s.copied, s.cursor.value.cursor))
    && OneRetires(s.txs)
    && forall t :: t in s.txs ==> TxOk(s, s.txs[t])
  }
}
