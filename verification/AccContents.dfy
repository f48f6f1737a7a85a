/** What the log holds under the keys of the core's records: their copies, unless someone else
    took a key first. */
module AccContents {
  import opened Common
  import opened Hashing
  import opened Writer
  import opened Accountability
  import opened Cursors
  import opened Drains
  import opened DrainedLog
  import opened AccProtocol
  import opened AccSafety
  import Chain
  import Puller

  function CopyOf(e: Env, r: CoreRecord): Content { Puller.Copy(e.minting, e.tenant, r) }

  /** Where the content has the key of one of these records, it is that record's copy. */
  predicate Right(e: Env, core: seq<CoreRecord>, c: Content) {
    forall k :: 0 <= k < |core| && KeyFor(e, core[k]) == KeyOf(c) ==> c == CopyOf(e, core[k])
  }

  predicate AllRight(e: Env, core: seq<CoreRecord>, cs: seq<Content>) { forall c :: c in cs ==> Right(e, core, c) }

  /** No other writer puts another content under the key of one of these records. */
  predicate OthersRight(e: Env, core: seq<CoreRecord>, acts: seq<Action>) {
    forall i :: 0 <= i < |acts| && acts[i].OthersWrite? ==> AllRight(e, core, acts[i].batch)
  }

  function LogContents(log: AuditLog): seq<Content> { Chain.Contents(log.archived + log.chain.table) }

  lemma CopyIsRight(e: Env, core: seq<CoreRecord>, j: nat)
    requires CoreChain(e.g, core) && j < |core|
    ensures Right(e, core, CopyOf(e, core[j]))
  {
    hide Continues;
    CoreNumbers(e.g, core);
    forall k | 0 <= k < |core| && KeyFor(e, core[k]) == KeyOf(CopyOf(e, core[j])) ensures k == j {
      assert InstantOf(core[k].ts) == InstantOf(core[j].ts);
      assert core[k].ts == core[j].ts;
    }
  }

  /** A drain copies what belongs under its keys. */
  lemma DrainIsRight(e: Env, core: seq<CoreRecord>, all: seq<CoreRecord>, copied: set<CoreRecord>, from: Cursor, place: Cursor,
                     pages: seq<seq<CoreRecord>>)
    requires CoreChain(e.g, all) && core <= all && DrainOk(core, copied, from, place, pages)
    ensures AllRight(e, all, Puller.Copies(e.minting, e.tenant, Puller.Flat(pages)))
  {
    hide CoreChain, CursorOk, SameRecords, Right, Puller.Copy;
    var mine, i := Puller.Flat(pages), from.lastSeq;
    CursorInCore(core, copied, from);
    var stretch := core[i..i + |mine|];
    var cs := Puller.Copies(e.minting, e.tenant, mine);
    forall c | c in cs ensures Right(e, all, c) {
      var k :| 0 <= k < |cs| && cs[k] == c;
      SameAt(mine, stretch, k);
      Puller.SameCopy(e.minting, e.tenant, mine[k], stretch[k]);
      assert stretch[k] == all[i + k];
      CopyIsRight(e, all, i + k);
    }
  }

  lemma ContentsConcat(a: seq<Chain.Row>, b: seq<Chain.Row>)
    ensures Chain.Contents(a + b) == Chain.Contents(a) + Chain.Contents(b)
  {}

  /** What a batch adds to the log is right if the batch is. */
  lemma AddedRight(e: Env, core: seq<CoreRecord>, log: AuditLog, now: AuditLog, batch: seq<Content>)
    requires AllRight(e, core, LogContents(log)) && AllRight(e, core, batch)
    requires now.archived == log.archived
    requires Chain.Contents(now.chain.table) == Chain.Contents(log.chain.table) + FreshContents(Keys(log.chain.table), batch)
    ensures AllRight(e, core, LogContents(now))
  {
    hide Right, FreshContents, Keys;
    ContentsConcat(log.archived, log.chain.table);
    ContentsConcat(now.archived, now.chain.table);
    FreshOnes(Keys(log.chain.table), batch);
  }

  lemma StepStaysRight(e: Env, s: Sys, a: Action, all: seq<CoreRecord>)
    requires Good(e, s) && s.core <= all && CoreChain(e.g, all)
    requires AllRight(e, all, LogContents(s.log)) && (a.OthersWrite? ==> AllRight(e, all, a.batch))
    ensures AllRight(e, all, LogContents(Next(e, s, a).log))
  {
    hide AllRight, LogContents, CoreChain, CopyOk, CopiedTo, CursorOk, DrainOk, Puller.PagesWritten, VerdictOf, Written;
    if Enabled(e, s, a) {
      if a.CommitDrain? || a.CommitRowsOnly? {
        var d := s.txs[a.t];
        assert TxOk(s, d);
        DrainIsRight(e, s.core, all, s.copied, d.from, d.place, d.pages);
        PagesStored(e.h, e.minting, e.tenant, s.log.chain, d.pages);
        AddedRight(e, all, s.log, Logged(e, s.log, d.pages), Puller.Copies(e.minting, e.tenant, Puller.Flat(d.pages)));
      } else if a.OthersWrite? {
        OthersAdd(e, all, s.log, a.batch);
      } else if a.ArchiveLog? {
        ArchivedContents(s.log, a.n);
      }
    }
  }

  lemma OthersAdd(e: Env, all: seq<CoreRecord>, log: AuditLog, batch: seq<Content>)
    requires AllRight(e, all, LogContents(log)) && AllRight(e, all, batch)
    ensures AllRight(e, all, LogContents(log.(chain := Written(e.h, log.chain, batch))))
  {
    FreshFollow(e.h, Seed(log.chain), batch);
    AddedRight(e, all, log, log.(chain := Written(e.h, log.chain, batch)), batch);
  }

  lemma ArchivedContents(log: AuditLog, n: nat)
    requires n <= |log.chain.table|
    ensures LogContents(Shortened(log, n)) == LogContents(log)
  {
    ArchivedLogged(log, n);
  }

  lemma {:induction false} RunsStayRight(e: Env, acts: seq<Action>, all: seq<CoreRecord>)
    requires HonestRun(e, NOTHING_YET, acts) && OthersRight(e, all, acts)
    requires After(e, NOTHING_YET, acts).core <= all && CoreChain(e.g, all)
    ensures AllRight(e, all, LogContents(After(e, NOTHING_YET, acts).log))
  {
    hide Good, Honest, Right, CoreChain, Next;
    if acts == [] {
      assert LogContents(NO_LOG) == [];
    } else {
      var front, a := acts[..|acts| - 1], acts[|acts| - 1];
      var s := After(e, NOTHING_YET, front);
      StartIsGood(e);
      RunsStayGood(e, NOTHING_YET, front);
      StepKeepsGood(e, s, a);
      assert forall i :: 0 <= i < |front| ==> front[i] == acts[i];
      RunsStayRight(e, front, all);
      StepStaysRight(e, s, a, all);
    }
  }

  lemma {:induction false} KeyHasContent(rows: seq<Chain.Row>, key: Key) returns (c: Content)
    requires key in Keys(rows)
    ensures c in Chain.Contents(rows) && KeyOf(c) == key
  {
    KeysLength(rows);
    var i :| 0 <= i < |Keys(rows)| && Keys(rows)[i] == key;
    c := rows[i].content;
    assert Chain.Contents(rows)[i] == c;
  }

  /** Over every run in which no other writer takes a record's key for another content: every
      record that was deleted from the core, and every record up to the cursor, has its copy in
      the log, in its table or archive, and nothing else is there under its key. */
  lemma DeletedCopiesStand(e: Env, acts: seq<Action>)
    requires HonestRun(e, NOTHING_YET, acts)
    requires OthersRight(e, After(e, NOTHING_YET, acts).core, acts)
    ensures var s := After(e, NOTHING_YET, acts);
      && (forall r :: r in s.core && r !in s.table ==> CopyOf(e, r) in LogContents(s.log))
      && (s.cursor.Some? ==> forall k :: 0 <= k < s.cursor.value.cursor.lastSeq && k < |s.core| ==> CopyOf(e, s.core[k]) in LogContents(s.log))
      && (forall r, c :: r in s.core && c in LogContents(s.log) && KeyOf(c) == KeyFor(e, r) ==> c == CopyOf(e, r))
  {
    hide After, HonestRun, CoreChain, KeyFor, CopyOf, LogContents, LogKeys, CursorAt, Joined, OthersRight;
    var s := After(e, NOTHING_YET, acts);
    NothingDeletedUncopied(e, acts);
    RunsStayRight(e, acts, s.core);
    forall r, c | r in s.core && c in LogContents(s.log) && KeyOf(c) == KeyFor(e, r) ensures c == CopyOf(e, r) {
      var k :| 0 <= k < |s.core| && s.core[k] == r;
      assert Right(e, s.core, c);
    }
    forall r | r in s.core && KeyFor(e, r) in LogKeys(s.log) ensures CopyOf(e, r) in LogContents(s.log) {
      var c := ContentUnder(s.log, KeyFor(e, r));
    }
  }

  lemma ContentUnder(log: AuditLog, key: Key) returns (c: Content)
    requires key in LogKeys(log)
    ensures c in LogContents(log) && KeyOf(c) == key
  {
    c := KeyHasContent(log.archived + log.chain.table, key);
  }
}
