/** Draining the core's records into the audit log: page by page, each checked, the log and
    the cursor written in the caller's transaction. */
module Puller {
  import opened Common
  import opened Hashing
  import opened Chain
  import opened Writer
  import opened Accountability
  import opened Cursors

  const GLOBAL_CHAIN_KEY := "*global*"

  function CursorKey(tenant: Option<string>): string {
    if tenant.Some? then tenant.value else GLOBAL_CHAIN_KEY
  }

  function AuditKey(tenant: Option<string>): string {
    if tenant.Some? then tenant.value else GLOBAL_KEY
  }

  // ---- a record as an audit row ----

  /** What the mapping takes from libraries: the deterministic event id of a record, and
      its sequence number, principal and detail as canonical JSON. */
  datatype Minting = Minting(eventId: (string, int) -> EventId, detail: (int, string, string) -> string)

  function CategoryCode(category: string): int {
    if category == "authorization" then 2 else if category == "identity" then 3 else 5
  }

  function TargetCode(target: string): Option<int> {
    if target == "file" then Some(0) else if target == "dir" then Some(1) else if target == "role" then Some(2)
    else if target == "acl" then Some(3) else if target == "version" then Some(4)
    else if target == "principal" then Some(5) else if target == "tenant" then Some(6) else None
  }

  function Cut(s: string, n: nat): string { if |s| > n then s[..n] else s }

  function Present(s: string): Option<string> { if s == "" then None else Some(s) }

  function FieldsOf(m: Minting, r: CoreRecord): Fields {
    Fields(CategoryCode(r.body.category), Cut(r.body.action, 32), 0, Cut(r.body.actor, 255),
           (var roles := RolesText(r.body.actorRoles); if roles == Some("") then None else roles),
           Present(r.body.targetUid), None, TargetCode(r.body.targetType), Some(m.detail(r.seqNo, r.body.principal, r.body.detail)),
           Present(r.body.sourceIface), Present(r.body.sourceAddr), None, None)
  }

  function ToAuditRow(m: Minting, tenant: Option<string>, r: CoreRecord): AuditRow {
    AuditRow(tenant.None?, if tenant.Some? then tenant else Present(r.body.globalTenant),
             Content(m.eventId(r.body.globalTenant, r.seqNo), InstantOf(r.ts), FieldsOf(m, r)))
  }

  function ToAuditRows(m: Minting, tenant: Option<string>, recs: seq<CoreRecord>): seq<AuditRow> {
    seq(|recs|, i requires 0 <= i < |recs| => ToAuditRow(m, tenant, recs[i]))
  }

  /** The content a record has in the audit log. */
  function Copy(m: Minting, tenant: Option<string>, r: CoreRecord): Content { ContentOf(ToAuditRow(m, tenant, r)) }

  function Copies(m: Minting, tenant: Option<string>, recs: seq<CoreRecord>): seq<Content> {
    seq(|recs|, i requires 0 <= i < |recs| => Copy(m, tenant, recs[i]))
  }

  /** The text up to `n` characters. */
  predicate CutTo(s: string, full: string, n: nat) { s <= full && |s| == if |full| < n then |full| else n }

  /** Absent exactly when the text is empty. */
  predicate Filled(o: Option<string>, s: string) { (o.None? <==> s == "") && (o.Some? ==> o.value == s) }

  /** What a row of the log says of a record, column by column. */
  predicate Says(m: Minting, tenant: Option<string>, r: CoreRecord, c: Content) {
    var f, b := c.fields, r.body;
    && c.eventId == m.eventId(b.globalTenant, r.seqNo) && Epoch(c.ts) == r.ts
    && CutTo(f.actor, b.actor, 255) && CutTo(f.action, b.action, 32) && f.outcome == 0
    && f.category == (if b.category == "authorization" then 2 else if b.category == "identity" then 3 else 5)
    && (f.actorRoles.None? <==> b.actorRoles == [] || JoinRoles(b.actorRoles) == "")
    && (f.actorRoles.Some? ==> f.actorRoles.value == JoinRoles(b.actorRoles))
    && Filled(f.targetUid, b.targetUid) && f.targetName.None? && f.requestId.None?
    && (forall n :: 0 <= n < |TARGETS| ==> (f.targetType == Some(n) <==> b.targetType == TARGETS[n]))
    && (f.targetType.None? <==> b.targetType !in TARGETS)
    && f.detail == Some(m.detail(r.seqNo, b.principal, b.detail))
    && Filled(f.sourceIface, b.sourceIface) && Filled(f.sourceAddr, b.sourceAddr)
    && (if tenant.Some? then f.tenant.None? else Filled(f.tenant, b.globalTenant))
  }

  /** The kinds of target, by their code. */
  const TARGETS: seq<string> := ["file", "dir", "role", "acl", "version", "principal", "tenant"]

  lemma CopySays(m: Minting, tenant: Option<string>, r: CoreRecord)
    ensures Says(m, tenant, r, Copy(m, tenant, r))
  {
    TargetsCoded(r.body.targetType);
  }

  lemma TargetsCoded(target: string)
    ensures forall n :: 0 <= n < |TARGETS| ==> (TargetCode(target) == Some(n) <==> target == TARGETS[n])
    ensures TargetCode(target).None? <==> target !in TARGETS
  {
    assert TARGETS[0] == "file" && TARGETS[1] == "dir" && TARGETS[2] == "role" && TARGETS[3] == "acl";
    assert TARGETS[4] == "version" && TARGETS[5] == "principal" && TARGETS[6] == "tenant";
  }

  ghost predicate Said(m: Minting, tenant: Option<string>, recs: seq<CoreRecord>, c: Content) {
    exists r :: r in recs && Says(m, tenant, r, c)
  }

  /** The old rows stay, and every new one says what one of these records says. */
  ghost predicate NewRowsSay(m: Minting, tenant: Option<string>, recs: seq<CoreRecord>, was: seq<Row>, now: seq<Row>) {
    was <= now && forall i :: |was| <= i < |now| ==> Said(m, tenant, recs, now[i].content)
  }

  lemma BatchSays(h: Linker, m: Minting, tenant: Option<string>, s: ChainState, recs: seq<CoreRecord>)
    ensures NewRowsSay(m, tenant, recs, s.table, Written(h, s, Copies(m, tenant, recs)).table)
  {
    hide Says, Copy, Keys, FreshContents, InsertAll;
    var batch, now := Copies(m, tenant, recs), Written(h, s, Copies(m, tenant, recs)).table;
    BatchStoresFresh(h, Seed(s), batch);
    FreshOnes(Keys(s.table), batch);
    var more := Contents(now[|s.table|..]);
    forall i | |s.table| <= i < |now| ensures Said(m, tenant, recs, now[i].content) {
      var c := now[i].content;
      assert more[i - |s.table|] == c && c in more;
      var k :| 0 <= k < |batch| && batch[k] == c;
      CopySays(m, tenant, recs[k]);
      assert recs[k] in recs;
    }
  }

  lemma SaidMore(m: Minting, tenant: Option<string>, recs: seq<CoreRecord>, all: seq<CoreRecord>, c: Content)
    requires Said(m, tenant, recs, c) && forall r :: r in recs ==> r in all
    ensures Said(m, tenant, all, c)
  {
    hide Says;
  }

  lemma SayTogether(m: Minting, tenant: Option<string>, a: seq<CoreRecord>, b: seq<CoreRecord>, was: seq<Row>, mid: seq<Row>, now: seq<Row>)
    requires NewRowsSay(m, tenant, a, was, mid) && NewRowsSay(m, tenant, b, mid, now)
    ensures NewRowsSay(m, tenant, a + b, was, now)
  {
    hide Said;
    forall i | |was| <= i < |now| ensures Said(m, tenant, a + b, now[i].content) {
      if i < |mid| {
        assert now[i] == mid[i];
        SaidMore(m, tenant, a, a + b, now[i].content);
      } else {
        SaidMore(m, tenant, b, a + b, now[i].content);
      }
    }
  }

  /** How roles were separated does not show in the copy. */
  lemma SameCopy(m: Minting, tenant: Option<string>, a: CoreRecord, b: CoreRecord)
    requires SameRecord(a, b)
    ensures Copy(m, tenant, a) == Copy(m, tenant, b)
  {
    assert a.body.(actorRoles := []) == b.body.(actorRoles := []);
  }

  lemma AllOnOneChain(m: Minting, tenant: Option<string>, recs: seq<CoreRecord>)
    ensures forall i :: 0 <= i < |recs| ==> ChainKey(ToAuditRows(m, tenant, recs)[i]) == AuditKey(tenant)
  {}

  lemma {:induction false} ProjectOwn(rows: seq<AuditRow>, key: string, k: string)
    requires forall i :: 0 <= i < |rows| ==> ChainKey(rows[i]) == key
    ensures k != key ==> Project(rows, k) == []
    ensures k == key ==> Project(rows, k) == seq(|rows|, i requires 0 <= i < |rows| => ContentOf(rows[i]))
  {
    hide ContentOf;
    if rows != [] {
      var rest := rows[1..];
      assert rows == [rows[0]] + rest;
      ProjectOwn(rest, key, k);
    }
  }

  // ---- the source and what a drain takes from it ----

  datatype Page = Page(records: seq<CoreRecord>, hasMore: bool)

  /** What the core answers to the `n`th request for records newer than a time; nothing
      when it refuses or cannot be reached. It may answer anything. */
  type Source = (nat, int, nat) -> Option<Page>

  datatype Ending = Finished | Refused(verdict: Verdict) | Unreachable | Unwritable

  datatype Pulled = Pulled(pages: seq<seq<CoreRecord>>, cursor: Cursor, ending: Ending)

  function After(pages: seq<seq<CoreRecord>>, p: Pulled): Pulled { p.(pages := pages + p.pages) }

  predicate Asks(asserted: Option<int>) { asserted.Some? && asserted.value != 0 }

  function Onward(c: Cursor, recs: seq<CoreRecord>): Cursor {
    if recs == [] then c else Advance(recs[|recs| - 1])
  }

  function OnePage(recs: seq<CoreRecord>): seq<seq<CoreRecord>> { if recs == [] then [] else [recs] }

  /** What one request leads to: the drain stops, or takes a page, perhaps the last. */
  datatype Look = Stop(ending: Ending) | Take(records: seq<CoreRecord>, last: bool)

  function LookAt(g: CoreLinker, answer: Option<Page>, c: Cursor, asserted: Option<int>, writable: bool): Look {
    match answer
    case None => Stop(Unreachable)
    case Some(page) =>
      var v := VerdictOf(g, PosOf(c), page.records, if page.hasMore then None else asserted);
      if page.records == [] && !Asks(asserted) then Stop(Finished)
      else if !v.Accepted? then Stop(Refused(v))
      else if page.records != [] && !writable then Stop(Unwritable)
      else Take(page.records, !page.hasMore)
  }

  /** Which pages a drain takes from request `n` on, and where it stops. Each page must
      continue the chain from the cursor; the hint is checked on a first page that is the
      last. */
  function Pull(g: CoreLinker, src: Source, c: Cursor, asserted: Option<int>, n: nat, size: nat, most: nat, writable: bool): Pulled
    decreases if n < most then most - n else 0
  {
    match LookAt(g, src(n, c.until, size), c, asserted, writable)
    case Stop(ending) => Pulled([], c, ending)
    case Take(recs, last) =>
      After(OnePage(recs), if last || n + 1 >= most then Pulled([], Onward(c, recs), Finished)
                           else Pull(g, src, Onward(c, recs), None, n + 1, size, most, writable))
  }

  function Flat(pages: seq<seq<CoreRecord>>): seq<CoreRecord> {
    if pages == [] then [] else pages[0] + Flat(pages[1..])
  }

  /** One chain of the log after these pages, each written by one batch call. */
  function PagesWritten(h: Linker, m: Minting, tenant: Option<string>, s: ChainState, pages: seq<seq<CoreRecord>>): ChainState {
    if pages == [] then s
    else Written(h, PagesWritten(h, m, tenant, s, pages[..|pages| - 1]), Copies(m, tenant, pages[|pages| - 1]))
  }

  lemma {:induction false} FlatFront(pages: seq<seq<CoreRecord>>)
    requires pages != []
    ensures Flat(pages) == Flat(pages[..|pages| - 1]) + pages[|pages| - 1]
  {
    assert pages == pages[..|pages| - 1] + [pages[|pages| - 1]];
    FlatMore(pages[..|pages| - 1], pages[|pages| - 1]);
  }

  lemma {:induction false} PagesSay(h: Linker, m: Minting, tenant: Option<string>, s: ChainState, pages: seq<seq<CoreRecord>>)
    ensures NewRowsSay(m, tenant, Flat(pages), s.table, PagesWritten(h, m, tenant, s, pages).table)
  {
    hide Says, Written;
    if pages != [] {
      var front, last := pages[..|pages| - 1], pages[|pages| - 1];
      var before := PagesWritten(h, m, tenant, s, front);
      PagesSay(h, m, tenant, s, front);
      BatchSays(h, m, tenant, before, last);
      SayTogether(m, tenant, Flat(front), last, s.table, before.table, Written(h, before, Copies(m, tenant, last)).table);
      FlatFront(pages);
    }
  }

  lemma WrittenNothing(h: Linker, s: ChainState)
    ensures Written(h, s, []) == s
  {}

  // ---- drain ----

  datatype DrainResult = IsHalted | Appended(count: nat) | Raised(why: Ending)

  /** The page is written: the chain it belongs to has it, the others are as before. */
  method WritePage(db: AuditDb, m: Minting, tenant: Option<string>, recs: seq<CoreRecord>, heads: map<string, Option<Hash>>)
    returns (ok: bool, newHeads: map<string, Option<Hash>>)
    requires recs != []
    modifies db
    ensures ok <==> AuditKey(tenant) in old(db.chains)
    ensures !ok ==> db.chains == old(db.chains)
    ensures ok ==> db.chains == old(db.chains)[AuditKey(tenant) :=
      Written(db.h, old(db.chains)[AuditKey(tenant)], Copies(m, tenant, recs))]
  {
    hide RowsOfBatch, InsertAll, Seed, Written;
    var rows, key := ToAuditRows(m, tenant, recs), AuditKey(tenant);
    AllOnOneChain(m, tenant, recs);
    var count;
    ok, count, newHeads := WriteBatch(db, rows, heads);
    assert ChainKey(rows[0]) == key;
    if ok {
      forall k | k in old(db.chains)
        ensures db.chains[k] == if k == key then Written(db.h, old(db.chains)[key], Copies(m, tenant, recs)) else old(db.chains)[k]
      {
        ProjectOwn(rows, key, k);
        if k == key {
          assert Project(rows, k) == Copies(m, tenant, recs);
        } else {
          WrittenNothing(db.h, old(db.chains)[k]);
        }
      }
    }
  }

  /** The log once `done` is written. */
  ghost predicate LogHas(h: Linker, m: Minting, tenant: Option<string>, was: map<string, ChainState>, now: map<string, ChainState>,
                         done: seq<seq<CoreRecord>>)
  {
    var key := AuditKey(tenant);
    if key in was then now == was[key := PagesWritten(h, m, tenant, was[key], done)]
    else done == [] && now == was
  }

  lemma LogHasPage(h: Linker, m: Minting, tenant: Option<string>, was: map<string, ChainState>, before: map<string, ChainState>,
                   now: map<string, ChainState>, done: seq<seq<CoreRecord>>, recs: seq<CoreRecord>)
    requires LogHas(h, m, tenant, was, before, done)
    requires if recs == [] then now == before
             else AuditKey(tenant) in before
                  && now == before[AuditKey(tenant) := Written(h, before[AuditKey(tenant)], Copies(m, tenant, recs))]
    ensures LogHas(h, m, tenant, was, now, done + OnePage(recs))
  {
    if recs == [] {
      assert done + OnePage(recs) == done;
    } else {
      assert (done + [recs])[..|done|] == done;
    }
  }

  lemma {:induction false} FlatMore(done: seq<seq<CoreRecord>>, recs: seq<CoreRecord>)
    ensures Flat(done + [recs]) == Flat(done) + recs
  {
    if done == [] {
      assert [recs][1..] == [] && done + [recs] == [recs];
    } else {
      assert (done + [recs])[1..] == done[1..] + [recs];
      FlatMore(done[1..], recs);
    }
  }

  /** The drain so far: what is written and what is left to do make up the whole. */
  ghost predicate Midway(whole: Pulled, done: seq<seq<CoreRecord>>, rest: Pulled, appended: nat) {
    whole == After(done, rest) && appended == |Flat(done)|
  }

  lemma MidwayStep(whole: Pulled, done: seq<seq<CoreRecord>>, recs: seq<CoreRecord>, rest: Pulled, appended: nat)
    requires Midway(whole, done, After(OnePage(recs), rest), appended)
    ensures Midway(whole, done + OnePage(recs), rest, appended + |recs|)
  {
    FlatMore(done, recs);
    assert done + OnePage(recs) + rest.pages == done + (OnePage(recs) + rest.pages);
    assert recs == [] ==> done + OnePage(recs) == done;
  }

  lemma MidwayEnds(whole: Pulled, done: seq<seq<CoreRecord>>, c: Cursor, ending: Ending, appended: nat)
    requires Midway(whole, done, Pulled([], c, ending), appended)
    ensures whole == Pulled(done, c, ending) && appended == |Flat(done)|
  {
    assert done + [] == done;
  }

  class AccountabilityPuller {
    const g: CoreLinker
    const minting: Minting
    const pageSize: nat
    const maxPages: nat

    constructor (g: CoreLinker, minting: Minting, pageSize: nat, maxPages: nat)
      ensures this.g == g && this.minting == minting && this.pageSize == pageSize && this.maxPages == maxPages
    {
      this.g, this.minting, this.pageSize, this.maxPages := g, minting, pageSize, maxPages;
    }

    /** Reads one page, checks it and writes it. */
    method TakePage(db: AuditDb, tenant: Option<string>, answer: Option<Page>, c: Cursor, asserted: Option<int>, heads: map<string, Option<Hash>>)
      returns (look: Look, newHeads: map<string, Option<Hash>>)
      modifies db
      ensures look == LookAt(g, answer, c, asserted, AuditKey(tenant) in old(db.chains))
      ensures look.Take? && look.records != [] ==>
        AuditKey(tenant) in old(db.chains)
        && db.chains == old(db.chains)[AuditKey(tenant) :=
             Written(db.h, old(db.chains)[AuditKey(tenant)], Copies(minting, tenant, look.records))]
      ensures !(look.Take? && look.records != []) ==> db.chains == old(db.chains)
    {
      newHeads := heads;
      if answer.None? {
        return Stop(Unreachable), heads;
      }
      var recs := answer.value.records;
      if recs == [] && !Asks(asserted) {
        return Stop(Finished), heads;
      }
      var v := VerifyBatch(g, PosOf(c), recs, if answer.value.hasMore then None else asserted);
      if !v.Accepted? {
        return Stop(Refused(v)), heads;
      }
      if recs != [] {
        var ok;
        ok, newHeads := WritePage(db, minting, tenant, recs, heads);
        if !ok {
          return Stop(Unwritable), heads;
        }
      }
      look := Take(recs, !answer.value.hasMore);
    }

    /** The loop of a drain: takes pages until one is the last, or too many were read, or
        something goes wrong. */
    method TakePages(db: AuditDb, tenant: Option<string>, src: Source, start: Cursor, hint: Option<int>, heads: map<string, Option<Hash>>)
      returns (c: Cursor, appended: nat, ending: Ending, newHeads: map<string, Option<Hash>>)
      modifies db
      ensures var p := Pull(g, src, start, hint, 0, pageSize, maxPages, AuditKey(tenant) in old(db.chains));
        && c == p.cursor && ending == p.ending && appended == |Flat(p.pages)|
        && LogHas(db.h, minting, tenant, old(db.chains), db.chains, p.pages)
    {
      ghost var writable, was := AuditKey(tenant) in db.chains, db.chains;
      ghost var whole := Pull(g, src, start, hint, 0, pageSize, maxPages, writable);
      ghost var done := [];
      var asserted, n := hint, 0;
      c, appended, newHeads := start, 0, heads;
      while true
        invariant Midway(whole, done, Pull(g, src, c, asserted, n, pageSize, maxPages, writable), appended)
        invariant LogHas(db.h, minting, tenant, was, db.chains, done)
        decreases if n < maxPages then maxPages - n else 0
      {
        ghost var before := db.chains;
        var look;
        look, newHeads := TakePage(db, tenant, src(n, c.until, pageSize), c, asserted, newHeads);
        if look.Stop? {
          MidwayEnds(whole, done, c, look.ending, appended);
          return c, appended, look.ending, newHeads;
        }
        LogHasPage(db.h, minting, tenant, was, before, db.chains, done, look.records);
        ghost var rest := if look.last || n + 1 >= maxPages then Pulled([], Onward(c, look.records), Finished)
                          else Pull(g, src, Onward(c, look.records), None, n + 1, pageSize, maxPages, writable);
        MidwayStep(whole, done, look.records, rest, appended);
        done := done + OnePage(look.records);
        c, appended, asserted, n := Onward(c, look.records), appended + |look.records|, None, n + 1;
        if look.last || n >= maxPages {
          MidwayEnds(whole, done, c, Finished, appended);
          return c, appended, Finished, newHeads;
        }
      }
    }

    /** Drains one chain in the caller's transaction; the caller commits or rolls back. A
        halted chain is left alone. A break raises a halt on another connection, where it
        survives the rollback, unless that connection fails too. */
    method Drain(db: AuditDb, cursors: CursorStore, alarms: CursorStore, tenant: Option<string>, src: Source,
                 anchor: Option<Cursor>, hint: Option<int>, alarmLost: bool, heads: map<string, Option<Hash>>)
      returns (res: DrainResult, newHeads: map<string, Option<Hash>>)
      requires cursors != alarms
      modifies db, cursors, alarms
      ensures RowOf(old(cursors.rows), CursorKey(tenant)).halt.Some? ==>
        res == IsHalted && db.chains == old(db.chains) && cursors.rows == old(cursors.rows) && alarms.rows == old(alarms.rows)
      ensures RowOf(old(cursors.rows), CursorKey(tenant)).halt.None? ==>
        var p := Pull(g, src, StartFrom(RowOf(old(cursors.rows), CursorKey(tenant)).cursor, anchor), hint, 0, pageSize, maxPages,
                      AuditKey(tenant) in old(db.chains));
        && LogHas(db.h, minting, tenant, old(db.chains), db.chains, p.pages)
        && (AuditKey(tenant) in old(db.chains) ==>
              AuditKey(tenant) in db.chains
              && NewRowsSay(minting, tenant, Flat(p.pages), old(db.chains)[AuditKey(tenant)].table, db.chains[AuditKey(tenant)].table))
        && res == (if p.ending == Finished then Appended(|Flat(p.pages)|) else Raised(p.ending))
        && Moved(old(cursors.rows), cursors.rows, CursorKey(tenant), p)
        && Alarmed(old(alarms.rows), alarms.rows, CursorKey(tenant), p, alarmLost)
    {
      hide NewRowsSay, PagesWritten, Pull;
      var key := CursorKey(tenant);
      var row := cursors.Get(key);
      if row.halt.Some? {
        return IsHalted, heads;
      }
      var c, appended, ending;
      ghost var p := Pull(g, src, StartFrom(row.cursor, anchor), hint, 0, pageSize, maxPages, AuditKey(tenant) in db.chains);
      if AuditKey(tenant) in db.chains {
        PagesSay(db.h, minting, tenant, db.chains[AuditKey(tenant)], p.pages);
      }
      c, appended, ending, newHeads := TakePages(db, tenant, src, StartFrom(row.cursor, anchor), hint, heads);
      if ending.Refused? && ending.verdict.Broken? && !alarmLost {
        alarms.RaiseHalt(key, Some(ending.verdict.seqNo), ending.verdict.fault);
      }
      if !ending.Finished? {
        return Raised(ending), newHeads;
      }
      if appended > 0 {
        cursors.Stage(key, c);
      }
      cursors.TouchPolled(key);
      return Appended(appended), newHeads;
    }
  }

  /** The cursor moves only when the whole drain went well and copied something. */
  ghost predicate Moved(was: CursorTable, now: CursorTable, key: string, p: Pulled) {
    if p.ending != Finished then now == was
    else
      && Find(now, key) == OpRow(if Flat(p.pages) == [] then Find(was, key) else OpRow(Find(was, key), Stage(p.cursor)), Touch)
      && forall k :: k != key ==> Find(now, k) == Find(was, k)
  }

  ghost predicate Alarmed(was: CursorTable, now: CursorTable, key: string, p: Pulled, alarmLost: bool) {
    if p.ending.Refused? && p.ending.verdict.Broken? && !alarmLost then
      Updated(was, now, key, RaiseHalt(Some(p.ending.verdict.seqNo), p.ending.verdict.fault))
    else now == was
  }
}
