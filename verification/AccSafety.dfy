/** Over every run: nothing is deleted from the core before it was copied, and neither the
    cursor nor the archive is ever ahead of the copy. */
module AccSafety {
  import opened Common
  import opened Hashing
  import opened Writer
  import opened Accountability
  import opened Cursors
  import Puller
  import opened Drains
  import opened DrainedLog
  import opened AccRetention
  import opened AccProtocol

  // ---- chains and prefixes ----

  lemma CoreBySeq(g: CoreLinker, core: seq<CoreRecord>, archive: seq<CoreRecord>, table: seq<CoreRecord>)
    requires CoreChain(g, core) && archive + table == core
    ensures forall i :: 0 <= i < |table| ==> table[i].seqNo == |archive| + 1 + i
    ensures BySeq(table)
  {
    CoreNumbers(g, core);
    assert forall i :: 0 <= i < |table| ==> table[i] == core[|archive| + i];
  }

  /** Rows up to a limit are as many as the limit is above the archive. */
  lemma UptoLength(g: CoreLinker, core: seq<CoreRecord>, archive: seq<CoreRecord>, table: seq<CoreRecord>, limit: int)
    requires CoreChain(g, core) && archive + table == core
    ensures var n := |Upto(table, limit)|;
      && n <= |table| && Upto(table, limit) == table[..n] && Above(table, limit) == table[n..]
      && (|archive| <= limit <= |core| ==> n == limit - |archive|)
  {
    CoreBySeq(g, core, archive, table);
    UptoIsPrefix(table, limit);
    var n := |Upto(table, limit)|;
    if n > 0 {
      assert table[n - 1].seqNo <= limit;
    }
    if n < |table| {
      assert table[n].seqNo > limit;
    }
  }

  lemma CursorAtGrows(core: seq<CoreRecord>, more: seq<CoreRecord>, i: nat)
    requires i <= |core|
    ensures CursorAt(core + more, i) == CursorAt(core, i)
  {}

  /** What holds of a transaction still holds when the chain and the copy have grown. */
  lemma CursorOkGrows(core: seq<CoreRecord>, more: seq<CoreRecord>, copied: set<CoreRecord>, also: set<CoreRecord>, c: Cursor)
    requires CursorOk(core, copied, c)
    ensures CursorOk(core + more, copied + also, c)
  {
    CursorAtGrows(core, more, c.lastSeq);
  }

  lemma DrainOkGrows(core: seq<CoreRecord>, more: seq<CoreRecord>, copied: set<CoreRecord>, also: set<CoreRecord>, from: Cursor,
                     place: Cursor, pages: seq<seq<CoreRecord>>)
    requires DrainOk(core, copied, from, place, pages)
    ensures DrainOk(core + more, copied + also, from, place, pages)
  {
    hide CursorOk, SameRecords, CopiedTo;
    var i, j := from.lastSeq, from.lastSeq + |Puller.Flat(pages)|;
    CursorOkGrows(core, more, copied, also, from);
    CursorInCore(core, copied, from);
    CursorAtGrows(core, more, j);
    assert (core + more)[i..j] == core[i..j];
  }

  lemma CursorInCore(core: seq<CoreRecord>, copied: set<CoreRecord>, c: Cursor)
    requires CursorOk(core, copied, c)
    ensures 0 <= c.lastSeq <= |core| && c == CursorAt(core, c.lastSeq)
  {}

  lemma PageOkGrows(core: seq<CoreRecord>, more: seq<CoreRecord>, i: int, page: seq<CoreRecord>)
    requires PageOk(core, i, page)
    ensures PageOk(core + more, i, page)
  {
    hide SameRecords;
    assert (core + more)[i..i + |page|] == core[i..i + |page|];
  }

  lemma UptoMore(table: seq<CoreRecord>, rec: CoreRecord, limit: int)
    requires rec.seqNo > limit
    ensures Upto(table + [rec], limit) == Upto(table, limit)
  {
    UptoExtend(table, rec, limit);
  }

  lemma CoreLast(g: CoreLinker, core: seq<CoreRecord>, rec: CoreRecord)
    requires CoreChain(g, core + [rec])
    ensures CoreChain(g, core) && rec.seqNo == |core| + 1
  {
    CoreNumbers(g, core + [rec]);
    assert (core + [rec])[|core|] == rec;
    ContinuesConcat(g, GENESIS, core, [rec]);
    assert forall i :: 0 <= i < |core| ==> (core + [rec])[i] == core[i];
  }

  // ---- the core appends, the copy grows ----

  lemma TxOkAppend(e: Env, s: Sys, rec: CoreRecord, tx: Tx)
    requires CoreChain(e.g, s.core + [rec]) && s.archive + s.table == s.core && TxOk(s, tx)
    ensures TxOk(s.(core := s.core + [rec], table := s.table + [rec]), tx)
  {
    hide Continues, CoreChain, SameRecords, CursorOk, DrainOk, PageOk;
    assert s.copied + {} == s.copied;
    match tx
    case Opening(row) => CursorOkGrows(s.core, [rec], s.copied, {}, row.cursor);
    case Draining(from, place, pages, page) =>
      DrainOkGrows(s.core, [rec], s.copied, {}, from, place, pages);
      PageOkGrows(s.core, [rec], from.lastSeq + |Puller.Flat(pages)|, page);
    case Staged(from, place, pages) => DrainOkGrows(s.core, [rec], s.copied, {}, from, place, pages);
    case AgedRead(_) =>
    case Limited(_) =>
    case Streamed(limit, rows) =>
      CoreLast(e.g, s.core, rec);
      CoreBySeq(e.g, s.core, s.archive, s.table);
      UptoMore(s.table, rec, limit);
  }

  lemma AppendOk(e: Env, s: Sys, rec: CoreRecord)
    requires Good(e, s) && CoreChain(e.g, s.core + [rec])
    ensures Good(e, Next(e, s, CoreAppend(rec)))
  {
    hide Continues, CoreChain, TxOk, CursorOk, OneRetires;
    var now := Next(e, s, CoreAppend(rec));
    assert s.archive + (s.table + [rec]) == s.core + [rec];
    assert s.copied + {} == s.copied;
    if s.cursor.Some? {
      CursorOkGrows(s.core, [rec], s.copied, {}, s.cursor.value.cursor);
    }
    assert forall k :: 0 <= k < |s.core| ==> now.core[k] == s.core[k];
    forall t | t in s.txs ensures TxOk(now, s.txs[t]) {
      TxOkAppend(e, s, rec, s.txs[t]);
    }
  }

  lemma TxOkCopied(s: Sys, also: set<CoreRecord>, tx: Tx)
    requires TxOk(s, tx)
    ensures TxOk(s.(copied := s.copied + also), tx)
  {
    hide SameRecords, CursorOk, DrainOk, PageOk;
    assert s.core + [] == s.core;
    match tx
    case Opening(row) => CursorOkGrows(s.core, [], s.copied, also, row.cursor);
    case Draining(from, place, pages, _) => DrainOkGrows(s.core, [], s.copied, also, from, place, pages);
    case Staged(from, place, pages) => DrainOkGrows(s.core, [], s.copied, also, from, place, pages);
    case AgedRead(_) =>
    case Limited(_) =>
    case Streamed(_, _) =>
  }

  lemma SameOne(a: seq<CoreRecord>, b: seq<CoreRecord>, i: nat)
    requires SameRecords(a, b) && i < |a|
    ensures Joined(a[i]) == Joined(b[i])
  {
    SameRecordIffJoined(a[i], b[i]);
  }

  /** Committing a drain's rows closes the gap between where it started and where it is. */
  lemma DrainCloses(g: CoreLinker, core: seq<CoreRecord>, copied: set<CoreRecord>, from: Cursor, place: Cursor, pages: seq<seq<CoreRecord>>)
    requires CoreChain(g, core) && DrainOk(core, copied, from, place, pages)
    ensures CursorOk(core, copied + SetOf(Puller.Flat(pages)), place)
  {
    hide CoreChain, SameRecords, CursorAt, Joined;
    var i, mine := from.lastSeq, Puller.Flat(pages);
    var n, stretch := i + |mine|, core[i..i + |mine|];
    forall k | 0 <= k < n ensures Joined(core[k]) in copied + SetOf(mine) {
      if k >= i {
        SameOne(mine, stretch, k - i);
        assert stretch[k - i] == core[k] && mine[k - i] in mine;
      }
    }
    PlaceNumber(g, core, n);
  }

  lemma PlaceNumber(g: CoreLinker, core: seq<CoreRecord>, n: nat)
    requires CoreChain(g, core) && n <= |core|
    ensures CursorAt(core, n).lastSeq == n
  {
    CoreNumbers(g, core);
  }

  // ---- the log ----

  lemma LogGrows(was: AuditLog, now: AuditLog)
    requires was.archived + was.chain.table <= now.archived + now.chain.table
    ensures forall k :: k in LogKeys(was) ==> k in LogKeys(now)
  {
    var a, b := was.archived + was.chain.table, now.archived + now.chain.table;
    assert b == a + b[|a|..];
    KeysConcat(a, b[|a|..]);
  }

  lemma KeyOfJoined(e: Env, r: CoreRecord)
    ensures KeyFor(e, Joined(r)) == KeyFor(e, r)
  {}

  lemma PagesLogged(e: Env, log: AuditLog, pages: seq<seq<CoreRecord>>)
    ensures forall k :: k in LogKeys(log) ==> k in LogKeys(Logged(e, log, pages))
    ensures forall r :: r in Puller.Flat(pages) ==> KeyFor(e, r) in LogKeys(Logged(e, log, pages))
  {
    hide Puller.PagesWritten, Keys, KeyOf, Puller.Copy;
    var now := Logged(e, log, pages);
    PagesStored(e.h, e.minting, e.tenant, log.chain, pages);
    LogGrows(log, now);
    KeysConcat(now.archived, now.chain.table);
  }

  /** The pages a drain commits are the core's, and are in the log. */
  lemma CopyOkDrain(e: Env, s: Sys, from: Cursor, place: Cursor, pages: seq<seq<CoreRecord>>)
    requires CoreChain(e.g, s.core) && CopyOk(e, s) && DrainOk(s.core, s.copied, from, place, pages)
    ensures CopyOk(e, s.(copied := s.copied + SetOf(Puller.Flat(pages)), log := Logged(e, s.log, pages)))
  {
    hide CoreChain, SameRecords, CursorOk, Joined, KeyFor, LogKeys, Logged;
    var mine, i := Puller.Flat(pages), from.lastSeq;
    CursorInCore(s.core, s.copied, from);
    var stretch := s.core[i..i + |mine|];
    PagesLogged(e, s.log, pages);
    forall r | r in SetOf(mine)
      ensures 1 <= r.seqNo <= |s.core| && r == Joined(s.core[r.seqNo - 1]) && KeyFor(e, r) in LogKeys(Logged(e, s.log, pages))
    {
      var x :| x in mine && Joined(x) == r;
      var k :| 0 <= k < |mine| && mine[k] == x;
      SameOne(mine, stretch, k);
      CoreNumber(e.g, s.core, i + k);
      JoinedNumber(s.core[i + k]);
      KeyOfJoined(e, x);
    }
  }

  lemma JoinedNumber(r: CoreRecord)
    ensures Joined(r).seqNo == r.seqNo
  {}

  lemma CopyOkLog(e: Env, s: Sys, log: AuditLog)
    requires CopyOk(e, s) && forall k :: k in LogKeys(s.log) ==> k in LogKeys(log)
    ensures CopyOk(e, s.(log := log))
  {
    hide LogKeys, KeyFor;
  }

  lemma OthersLogged(e: Env, log: AuditLog, batch: seq<Content>)
    ensures forall k :: k in LogKeys(log) ==> k in LogKeys(log.(chain := Written(e.h, log.chain, batch)))
  {
    OldRowsStay(e.h, Seed(log.chain), batch);
    var now := log.(chain := Written(e.h, log.chain, batch));
    assert log.archived + log.chain.table <= now.archived + now.chain.table;
    LogGrows(log, now);
  }

  /** Writing other rows or archiving some takes no key away. */
  lemma LogStepOk(e: Env, s: Sys, a: Action)
    requires Good(e, s) && Enabled(e, s, a) && (a.OthersWrite? || a.ArchiveLog?)
    ensures Good(e, Next(e, s, a))
  {
    hide CoreChain, CursorOk, CopiedTo, CopyOk, OneRetires, LogKeys, Written, DrainOk, PageOk;
    var now := Next(e, s, a);
    match a {
      case OthersWrite(batch) => OthersLogged(e, s.log, batch);
      case ArchiveLog(n) => ArchivedLogged(s.log, n);
    }
    CopyOkLog(e, s, now.log);
    assert now == s.(log := now.log);
    forall t | t in now.txs ensures TxOk(now, now.txs[t]) {
      assert TxOk(s, now.txs[t]);
    }
  }

  lemma ArchivedLogged(log: AuditLog, n: nat)
    requires n <= |log.chain.table|
    ensures Shortened(log, n).archived + Shortened(log, n).chain.table == log.archived + log.chain.table
    ensures LogKeys(Shortened(log, n)) == LogKeys(log)
  {
    var t := log.chain.table;
    assert log.archived + t[..n] + t[n..] == log.archived + t;
  }

  // ---- drains ----

  lemma ResumeOk(e: Env, s: Sys, row: CursorRow)
    requires Good(e, s) && CursorOk(s.core, s.copied, row.cursor)
    ensures var c := StartFrom(row.cursor, Anchor(s.archive)); DrainOk(s.core, s.copied, c, c, [])
    ensures var c := StartFrom(row.cursor, Anchor(s.archive)); PageOk(s.core, c.lastSeq, [])
  {
    hide CoreChain, Continues, TxOk, OneRetires, CopyOk, SameRecords;
    CoreNumbers(e.g, s.core);
    var c := StartFrom(row.cursor, Anchor(s.archive));
    if s.archive != [] {
      var last := s.archive[|s.archive| - 1];
      assert last == s.core[|s.archive| - 1] && last.seqNo == |s.archive|;
      assert Advance(last) == CursorAt(s.core, |s.archive|);
    }
    assert CursorOk(s.core, s.copied, c);
    NoneAreSame(s.core, c.lastSeq);
  }

  lemma FetchOk(e: Env, s: Sys, d: Tx, recs: seq<CoreRecord>, hint: Option<int>)
    requires CoreChain(e.g, s.core) && d.Draining? && TxOk(s, d) && recs != []
    requires EndsInCore(s.core, recs) && CoreBinds(e.g, CoreInputs(s.core) + CoreInputs(recs))
    requires VerdictOf(e.g, PosOf(d.place), recs, hint) == Accepted
    ensures PageOk(s.core, d.from.lastSeq + |Puller.Flat(d.pages)|, recs)
  {
    hide Continues, CoreChain, CopiedTo, SameRecords, CoreInputs, CoreBinds, CursorAt, PosOf;
    VerdictMeaning(e.g, PosOf(d.place), recs, hint);
    AcceptedPageIsNext(e.g, s.core, d.from.lastSeq + |Puller.Flat(d.pages)|, recs);
  }

  lemma WriteOk(g: CoreLinker, core: seq<CoreRecord>, copied: set<CoreRecord>, from: Cursor, place: Cursor, pages: seq<seq<CoreRecord>>,
                page: seq<CoreRecord>)
    requires CoreChain(g, core) && DrainOk(core, copied, from, place, pages) && page != [] && PageOk(core, from.lastSeq + |Puller.Flat(pages)|, page)
    ensures DrainOk(core, copied, from, Advance(page[|page| - 1]), pages + [page])
    ensures PageOk(core, from.lastSeq + |Puller.Flat(pages + [page])|, [])
  {
    hide CoreChain, SameRecords, CursorOk, SameRecord;
    var i, j := from.lastSeq, from.lastSeq + |Puller.Flat(pages)|;
    var stretch := core[j..j + |page|];
    CursorInCore(core, copied, from);
    Puller.FlatMore(pages, page);
    SameJoined(Puller.Flat(pages), core[i..j], page, stretch);
    assert core[i..j] + stretch == core[i..j + |page|];
    SameAt(page, stretch, |page| - 1);
    LinkOfSame(page[|page| - 1], stretch[|page| - 1]);
    NoneAreSame(core, j + |page|);
  }

  lemma SameAt(a: seq<CoreRecord>, b: seq<CoreRecord>, i: nat)
    requires SameRecords(a, b) && i < |a|
    ensures SameRecord(a[i], b[i])
  {}

  // ---- retention ----

  lemma LimitOk(e: Env, s: Sys, agedMax: int)
    requires Good(e, s)
    ensures CopiedTo(s.core, s.copied, Limit(agedMax, s.cursor))
  {}

  lemma StreamOk(e: Env, s: Sys, limit: int)
    requires Good(e, s) && CopiedTo(s.core, s.copied, limit) && Verified(e.g, s.archive, Upto(s.table, limit), limit)
    ensures TxOk(s, Streamed(limit, Upto(s.table, limit)))
  {
    CoreBySeq(e.g, s.core, s.archive, s.table);
    UptoLength(e.g, s.core, s.archive, s.table, limit);
    var rows := Upto(s.table, limit);
    assert rows[|rows| - 1] == s.table[|rows| - 1];
  }

  /** A committed run moves copied rows, and only those, from the table to the archive. */
  lemma RetireOk(e: Env, s: Sys, t: nat)
    requires Good(e, s) && Enabled(e, s, CommitRetire(t))
    ensures Good(e, Next(e, s, CommitRetire(t)))
  {
    hide Continues, CoreChain, MaxAged, CopyOk, CursorOk, DrainOk, PageOk;
    var now, rows, limit := Next(e, s, CommitRetire(t)), s.txs[t].rows, s.txs[t].limit;
    assert TxOk(s, s.txs[t]);
    UptoLength(e.g, s.core, s.archive, s.table, limit);
    assert s.archive + (s.table[..|rows|] + s.table[|rows|..]) == s.archive + s.table[..|rows|] + s.table[|rows|..];
    assert s.table[..|rows|] + s.table[|rows|..] == s.table;
    SameCopyOk(e, s, now);
    forall u | u in now.txs ensures TxOk(now, now.txs[u]) {
      assert TxOk(s, s.txs[u]) && !Retires(s.txs[u]);
    }
  }

  lemma SameCopyOk(e: Env, s: Sys, now: Sys)
    requires CopyOk(e, s) && now.core == s.core && now.copied == s.copied && now.log == s.log
    ensures CopyOk(e, now)
  {}

  // ---- every step ----

  lemma LocksOk(e: Env, s: Sys, a: Action)
    requires OneRetires(s.txs)
    ensures OneRetires(Next(e, s, a).txs)
  {
    hide VerdictOf, Verified, ChainFree, HoldsChain;
  }

  lemma OwnDrainOk(e: Env, s: Sys, a: Action)
    requires Good(e, s) && Honest(e, s, a) && Enabled(e, s, a)
    requires a.Open? || a.Resume? || a.FetchPage? || a.WritePage? || a.StageCursor?
    ensures TxOk(s, Next(e, s, a).txs[a.t])
  {
    hide Continues, CoreChain, OneRetires, DrainOk, CopyOk, CoreBinds, PageOk, CopiedTo, ChainFree, StartFrom, EndsInCore, CoreInputs;
    match a
    case Open(t) => FreshOk(s.core, s.copied);
    case Resume(t) => ResumeOk(e, s, s.txs[t].row);
    case FetchPage(t, recs, hint) => FetchOk(e, s, s.txs[t], recs, hint);
    case WritePage(t) => WriteOk(e.g, s.core, s.copied, s.txs[t].from, s.txs[t].place, s.txs[t].pages, s.txs[t].page);
    case StageCursor(t) =>
  }

  lemma FreshOk(core: seq<CoreRecord>, copied: set<CoreRecord>)
    ensures CursorOk(core, copied, FRESH)
  {}

  lemma DrainStepOk(e: Env, s: Sys, a: Action)
    requires Good(e, s) && Honest(e, s, a) && Enabled(e, s, a)
    requires a.Open? || a.Resume? || a.FetchPage? || a.WritePage? || a.StageCursor?
    ensures Good(e, Next(e, s, a))
  {
    hide Continues, CoreChain, DrainOk, PageOk, CursorOk, CopiedTo, CopyOk, OneRetires, Honest, CursorAt, Upto, VerdictOf, StartFrom, ChainFree;
    var now := Next(e, s, a);
    LocksOk(e, s, a);
    OwnDrainOk(e, s, a);
    SameCopyOk(e, s, now);
    forall u | u in now.txs ensures TxOk(now, now.txs[u]) {
      assert TxOk(s, now.txs[u]);
    }
  }

  lemma CursorOkCopied(core: seq<CoreRecord>, copied: set<CoreRecord>, also: set<CoreRecord>, c: Cursor)
    requires CursorOk(core, copied, c)
    ensures CursorOk(core, copied + also, c)
  {}

  lemma CommitDrainOk(e: Env, s: Sys, a: Action)
    requires Good(e, s) && Enabled(e, s, a) && (a.CommitDrain? || a.CommitRowsOnly?)
    ensures Good(e, Next(e, s, a))
  {
    hide Continues, CoreChain, DrainOk, PageOk, CursorOk, CopyOk, OneRetires, Logged, Puller.Flat;
    var now, d := Next(e, s, a), s.txs[a.t];
    var also := SetOf(Puller.Flat(d.pages));
    assert TxOk(s, d);
    LocksOk(e, s, a);
    DrainCloses(e.g, s.core, s.copied, d.from, d.place, d.pages);
    CopyOkDrain(e, s, d.from, d.place, d.pages);
    SameCopyOk(e, s.(copied := s.copied + also, log := Logged(e, s.log, d.pages)), now);
    FreshOk(now.core, now.copied);
    if s.cursor.Some? {
      CursorOkCopied(s.core, s.copied, also, s.cursor.value.cursor);
    }
    forall u | u in now.txs ensures TxOk(now, now.txs[u]) {
      TxOkCopied(s, also, s.txs[u]);
      SameTxOk(s.(copied := s.copied + also), now, s.txs[u]);
    }
  }

  lemma SameTxOk(s: Sys, now: Sys, tx: Tx)
    requires TxOk(s, tx) && now.core == s.core && now.copied == s.copied && now.archive == s.archive && now.table == s.table
    ensures TxOk(now, tx)
  {}

  lemma OwnRetireOk(e: Env, s: Sys, a: Action)
    requires Good(e, s) && Enabled(e, s, a) && (a.ReadCursor? || a.StreamRows?)
    ensures a.t in Next(e, s, a).txs && TxOk(s, Next(e, s, a).txs[a.t])
  {
    hide CoreChain, Continues, Upto, OneRetires, CopyOk, CopiedTo, CursorOk, Verified;
    match a
    case ReadCursor(t) => LimitOk(e, s, s.txs[t].agedMax);
    case StreamRows(t) => LimitedMeans(s, s.txs[t]); StreamOk(e, s, s.txs[t].limit);
  }

  lemma LimitedMeans(s: Sys, tx: Tx)
    requires TxOk(s, tx) && tx.Limited?
    ensures CopiedTo(s.core, s.copied, tx.limit)
  {}

  lemma OtherStepOk(e: Env, s: Sys, a: Action)
    requires Good(e, s) && Enabled(e, s, a)
    requires a.Operate? || a.StartRetire? || a.ReadCursor? || a.StreamRows? || a.Abort?
    ensures Good(e, Next(e, s, a))
  {
    hide CoreChain, Continues, Upto, Above, MaxAged, Verified, DrainOk, PageOk, CopyOk, CopiedTo, CursorOk, OneRetires, CursorAt, Limit;
    var now := Next(e, s, a);
    LocksOk(e, s, a);
    FreshOk(s.core, s.copied);
    if a.ReadCursor? || a.StreamRows? {
      OwnRetireOk(e, s, a);
    }
    SameCopyOk(e, s, now);
    forall u | u in now.txs ensures TxOk(now, now.txs[u]) {
      assert u in s.txs ==> TxOk(s, s.txs[u]);
    }
  }

  lemma StepKeepsGood(e: Env, s: Sys, a: Action)
    requires Good(e, s) && Honest(e, s, a)
    ensures Good(e, Next(e, s, a))
    ensures s.copied <= Next(e, s, a).copied && s.archive <= Next(e, s, a).archive && s.core <= Next(e, s, a).core
  {
    hide Good, Honest, CoreChain;
    if Enabled(e, s, a) {
      match a
      case CoreAppend(rec) => AppendStepOk(e, s, rec);
      case CommitDrain(_) => CommitDrainOk(e, s, a);
      case CommitRowsOnly(_) => CommitDrainOk(e, s, a);
      case CommitRetire(t) => RetireOk(e, s, t);
      case OthersWrite(_) => LogStepOk(e, s, a);
      case ArchiveLog(_) => LogStepOk(e, s, a);
      case Operate(_) => OtherStepOk(e, s, a);
      case StartRetire(_, _) => OtherStepOk(e, s, a);
      case ReadCursor(_) => OtherStepOk(e, s, a);
      case StreamRows(_) => OtherStepOk(e, s, a);
      case Abort(_) => OtherStepOk(e, s, a);
      case Open(_) => DrainStepOk(e, s, a);
      case Resume(_) => DrainStepOk(e, s, a);
      case FetchPage(_, _, _) => DrainStepOk(e, s, a);
      case WritePage(_) => DrainStepOk(e, s, a);
      case StageCursor(_) => DrainStepOk(e, s, a);
    }
  }

  lemma AppendStepOk(e: Env, s: Sys, rec: CoreRecord)
    requires Good(e, s) && Honest(e, s, CoreAppend(rec))
    ensures Good(e, Next(e, s, CoreAppend(rec)))
  {
    hide Good;
    AppendOk(e, s, rec);
  }

  // ---- whole runs ----

  const NO_LOG := AuditLog([], ChainState([], None, {}, 1))
  const NOTHING_YET := Sys([], [], [], None, {}, NO_LOG, map[])

  lemma StartIsGood(e: Env)
    ensures Good(e, NOTHING_YET)
  {}

  lemma {:induction false} RunsStayGood(e: Env, s: Sys, acts: seq<Action>)
    requires Good(e, s) && HonestRun(e, s, acts)
    ensures Good(e, After(e, s, acts))
  {
    hide Good, Honest;
    if acts != [] {
      RunsStayGood(e, s, acts[..|acts| - 1]);
      StepKeepsGood(e, After(e, s, acts[..|acts| - 1]), acts[|acts| - 1]);
    }
  }

  /** Any interleaving of core appends, drains (clean, stale, refused at any page, committed
      with or without their cursor, aborted), halts, acknowledgements, resets and retention
      runs, and of what others do to the log. The archive followed by what is left of the
      source is the whole source chain; every record that was deleted had been copied, but
      for how its roles are separated, and its key is in the audit log; nothing but the core's
      records was ever copied; and the cursor, wherever it stands, stands at the end of
      records that were all copied. */
  lemma NothingDeletedUncopied(e: Env, acts: seq<Action>)
    requires HonestRun(e, NOTHING_YET, acts)
    ensures var s := After(e, NOTHING_YET, acts);
      && s.archive + s.table == s.core && CoreChain(e.g, s.core)
      && (forall r :: r in s.core && r !in s.table ==> Joined(r) in s.copied && KeyFor(e, r) in LogKeys(s.log))
      && (forall r :: r in s.archive ==> Joined(r) in s.copied && KeyFor(e, r) in LogKeys(s.log))
      && (forall c :: c in s.copied ==> exists r :: r in s.core && Joined(r) == c)
      && (s.cursor.Some? ==>
            && 0 <= s.cursor.value.cursor.lastSeq <= |s.core|
            && s.cursor.value.cursor == CursorAt(s.core, s.cursor.value.cursor.lastSeq)
            && forall k :: 0 <= k < s.cursor.value.cursor.lastSeq ==>
                 Joined(s.core[k]) in s.copied && KeyFor(e, s.core[k]) in LogKeys(s.log))
  {
    hide Continues, CoreChain, After, HonestRun, TxOk, OneRetires, CursorAt, LogKeys, KeyFor, Joined;
    StartIsGood(e);
    RunsStayGood(e, NOTHING_YET, acts);
    var s := After(e, NOTHING_YET, acts);
    forall k | 0 <= k < |s.core| && Joined(s.core[k]) in s.copied ensures KeyFor(e, s.core[k]) in LogKeys(s.log) {
      KeyOfJoined(e, s.core[k]);
    }
    forall r | r in s.archive ensures Joined(r) in s.copied && KeyFor(e, r) in LogKeys(s.log) {
      var i :| 0 <= i < |s.archive| && s.archive[i] == r;
      assert s.core[i] == r;
    }
    forall r | r in s.core && r !in s.table ensures r in s.archive {
      assert r in s.archive + s.table;
    }
    forall c | c in s.copied ensures exists r :: r in s.core && Joined(r) == c {
      assert s.core[c.seqNo - 1] in s.core;
    }
  }
}
