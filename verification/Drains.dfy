/** What drains do to the copy of a core chain: on an honest core, exactly the next
    records; on any source, nothing but the next records. */
module Drains {
  import opened Common
  import opened Hashing
  import opened Chain
  import opened Writer
  import opened Accountability
  import opened Cursors
  import opened Puller

  const GENESIS := Position(None, None, None)

  /** The chain as the core writes it, from its first record. A digest is never empty. */
  ghost predicate CoreChain(g: CoreLinker, core: seq<CoreRecord>) {
    && Continues(g, GENESIS, core)
    && (core != [] ==> core[0].seqNo == 1)
    && forall i :: 0 <= i < |core| ==> core[i].hash.bytes != [] && core[i].ts > 0
  }

  /** The cursor after the first `i` records were copied. */
  function CursorAt(core: seq<CoreRecord>, i: nat): Cursor
    requires i <= |core|
  {
    if i == 0 then FRESH else Advance(core[i - 1])
  }

  lemma CoreNumbers(g: CoreLinker, core: seq<CoreRecord>)
    requires CoreChain(g, core)
    ensures forall i :: 0 <= i < |core| ==> core[i].seqNo == i + 1
    ensures forall i, j :: 0 <= i < j < |core| ==> core[i].ts < core[j].ts
  {
    ContinuesNumbers(g, GENESIS, core);
  }

  lemma CursorPosition(g: CoreLinker, core: seq<CoreRecord>, i: nat)
    requires CoreChain(g, core) && i <= |core|
    ensures PosOf(CursorAt(core, i)) == EndOf(GENESIS, core[..i])
  {
    CoreNumbers(g, core);
  }

  lemma NextRecordsContinue(g: CoreLinker, core: seq<CoreRecord>, i: nat, j: nat)
    requires CoreChain(g, core) && i <= j <= |core|
    ensures Continues(g, PosOf(CursorAt(core, i)), core[i..j])
  {
    CursorPosition(g, core, i);
    assert core == core[..i] + core[i..j] + core[j..];
    ContinuesConcat(g, GENESIS, core[..i] + core[i..j], core[j..]);
    ContinuesConcat(g, GENESIS, core[..i], core[i..j]);
  }

  lemma OnwardFrom(core: seq<CoreRecord>, i: nat, j: nat)
    requires i <= j <= |core|
    ensures Onward(CursorAt(core, i), core[i..j]) == CursorAt(core, j)
  {}

  // ---- any source ----

  lemma CoreLink(g: CoreLinker, core: seq<CoreRecord>, q: nat)
    requires CoreChain(g, core) && q < |core|
    ensures OrNone(core[q].prevHash) == if q == 0 then None else Some(core[q - 1].hash)
  {
    ContinuesAt(g, GENESIS, core, q);
  }

  lemma CoreNumber(g: CoreLinker, core: seq<CoreRecord>, i: nat)
    requires CoreChain(g, core) && i < |core|
    ensures core[i].seqNo == i + 1
  {
    CoreNumbers(g, core);
  }

  /** A record without a fault is what its hash says. */
  lemma HashedHere(g: CoreLinker, p: Position, recs: seq<CoreRecord>, i: nat)
    requires Continues(g, p, recs) && i < |recs|
    ensures recs[i].hash == Hashed(g, InputOf(recs[i]))
    ensures OrNone(recs[i].prevHash) == OrNone(EndOf(p, recs[..i]).hash)
  {
    ContinuesAt(g, p, recs, i);
  }

  lemma HashedInCore(g: CoreLinker, core: seq<CoreRecord>, q: nat)
    requires CoreChain(g, core) && q < |core|
    ensures core[q].hash == Hashed(g, InputOf(core[q])) && InputOf(core[q]) in CoreInputs(core)
  {
    HashedHere(g, GENESIS, core, q);
    assert core[q] in core;
  }

  /** A record with a hash of the core is the core's record. */
  lemma SameHashSameRecord(g: CoreLinker, core: seq<CoreRecord>, q: nat, r: CoreRecord, inputs: set<CoreInput>)
    requires CoreChain(g, core) && q < |core| && r.hash == core[q].hash && r.hash == Hashed(g, InputOf(r))
    requires CoreBinds(g, inputs) && CoreInputs(core) <= inputs && InputOf(r) in inputs
    ensures SameRecord(r, core[q]) && r.seqNo == q + 1
  {
    HashedInCore(g, core, q);
    CoreNumber(g, core, q);
  }

  /** Checked records whose last hash is the core's are the core's records back to where they
      start, and what they start from is the link of the core's record there. */
  lemma {:induction false} LinksIntoCore(g: CoreLinker, core: seq<CoreRecord>, q: nat, p: Position, page: seq<CoreRecord>,
                                         inputs: set<CoreInput>)
    requires CoreChain(g, core) && q < |core| && page != [] && Continues(g, p, page)
    requires page[|page| - 1].hash == core[q].hash
    requires CoreBinds(g, inputs) && CoreInputs(core) <= inputs && CoreInputs(page) <= inputs
    ensures |page| <= q + 1 && SameRecords(page, core[q + 1 - |page|..q + 1])
    ensures OrNone(p.hash) == OrNone(core[q + 1 - |page|].prevHash)
    decreases |page|
  {
    hide CoreChain, Continues, SameRecord, CoreBinds;
    var front, last := page[..|page| - 1], page[|page| - 1];
    assert last in page && InputOf(last) in CoreInputs(page);
    HashedHere(g, p, page, |page| - 1);
    SameHashSameRecord(g, core, q, last, inputs);
    LinkOfSame(last, core[q]);
    if front != [] {
      var before := front[|front| - 1];
      assert before == page[|front| - 1] && before in page && InputOf(before) in CoreInputs(page);
      HashedHere(g, p, page, |front| - 1);
      NotEmpty(g, inputs, before);
      CoreLink(g, core, q);
      ContinuesFront(g, p, page);
      assert CoreInputs(front) <= CoreInputs(page);
      LinksIntoCore(g, core, q - 1, p, front, inputs);
      var stretch := core[q + 1 - |page|..q + 1];
      forall i | 0 <= i < |page| ensures SameRecord(page[i], stretch[i]) {
        if i < |front| {
          assert SameRecord(front[i], core[q + 1 - |page|..q][i]);
        }
      }
    }
  }

  lemma LinkOfSame(a: CoreRecord, b: CoreRecord)
    requires SameRecord(a, b)
    ensures OrNone(a.prevHash) == OrNone(b.prevHash) && a.seqNo == b.seqNo && a.ts == b.ts && a.hash == b.hash
  {}

  lemma NotEmpty(g: CoreLinker, inputs: set<CoreInput>, r: CoreRecord)
    requires CoreBinds(g, inputs) && InputOf(r) in inputs && r.hash == Hashed(g, InputOf(r))
    ensures r.hash.bytes != []
  {}

  lemma ContinuesFront(g: CoreLinker, p: Position, recs: seq<CoreRecord>)
    requires recs != [] && Continues(g, p, recs)
    ensures Continues(g, p, recs[..|recs| - 1])
  {}

  /** The last record bears the hash of the core's record of its number: one hash to compare,
      whatever was read. */
  predicate EndsInCore(core: seq<CoreRecord>, recs: seq<CoreRecord>) {
    recs != [] ==>
      var last := recs[|recs| - 1];
      1 <= last.seqNo <= |core| && core[last.seqNo - 1].hash == last.hash
  }

  lemma LinkAtCursor(g: CoreLinker, core: seq<CoreRecord>, i: nat, j: nat, inputs: set<CoreInput>)
    requires CoreChain(g, core) && i <= |core| && j < |core| && CoreBinds(g, inputs) && CoreInputs(core) <= inputs
    requires OrNone(CursorAt(core, i).lastHash) == OrNone(core[j].prevHash)
    ensures i == j
  {
    hide Continues;
    CoreLink(g, core, j);
    if i > 0 && j > 0 {
      HashedInCore(g, core, i - 1);
      SameHashSameRecord(g, core, j - 1, core[i - 1], inputs);
      CoreNumber(g, core, i - 1);
    }
  }

  lemma EndingInCoreIsNext(g: CoreLinker, core: seq<CoreRecord>, i: nat, page: seq<CoreRecord>, inputs: set<CoreInput>)
    requires CoreChain(g, core) && i <= |core| && page != [] && Continues(g, PosOf(CursorAt(core, i)), page)
    requires CoreBinds(g, inputs) && CoreInputs(core) <= inputs && CoreInputs(page) <= inputs
    requires EndsInCore(core, page)
    ensures i + |page| <= |core| && SameRecords(page, core[i..i + |page|])
  {
    hide CoreChain, Continues, CoreBinds, SameRecords, CoreInputs, CursorAt;
    var q := page[|page| - 1].seqNo - 1;
    LinksIntoCore(g, core, q, PosOf(CursorAt(core, i)), page, inputs);
    LinkAtCursor(g, core, i, q + 1 - |page|, inputs);
  }

  lemma NoneAreSame(core: seq<CoreRecord>, i: nat)
    requires i <= |core|
    ensures SameRecords([], core[i..i])
  {}

  lemma SameEndsInCore(g: CoreLinker, core: seq<CoreRecord>, i: nat, recs: seq<CoreRecord>)
    requires CoreChain(g, core) && i + |recs| <= |core| && SameRecords(recs, core[i..i + |recs|])
    ensures EndsInCore(core, recs)
  {
    hide CoreChain, SameRecord;
    if recs != [] {
      var stretch := core[i..i + |recs|];
      assert SameRecord(recs[|recs| - 1], stretch[|recs| - 1]);
      LinkOfSame(recs[|recs| - 1], core[i + |recs| - 1]);
      CoreNumber(g, core, i + |recs| - 1);
    }
  }

  /** A page that passes the checks is the next stretch of the chain (nothing skipped,
      repeated, moved or altered, up to how roles are separated) if and only if its last hash
      is the core's hash of that number. */
  lemma AcceptedPageIsNext(g: CoreLinker, core: seq<CoreRecord>, i: nat, page: seq<CoreRecord>)
    requires CoreChain(g, core) && i <= |core| && Continues(g, PosOf(CursorAt(core, i)), page)
    requires CoreBinds(g, CoreInputs(core) + CoreInputs(page))
    ensures EndsInCore(core, page) <==> i + |page| <= |core| && SameRecords(page, core[i..i + |page|])
  {
    hide CoreChain, Continues, CoreBinds, SameRecords, PosOf, CursorAt;
    if page != [] && EndsInCore(core, page) {
      EndingInCoreIsNext(g, core, i, page, CoreInputs(core) + CoreInputs(page));
    }
    if i + |page| <= |core| && SameRecords(page, core[i..i + |page|]) {
      SameEndsInCore(g, core, i, page);
    }
    NoneAreSame(core, i);
  }

  /** Why the last hash must be compared with the core's: hashes have no key. Anyone can put
      a body of their own into the core's next record and hash it, and every check passes. */
  lemma ForgedRecordAccepted(g: CoreLinker, core: seq<CoreRecord>, i: nat, body: CoreBody)
    requires CoreChain(g, core) && i < |core| && !SameBody(body, core[i].body)
    ensures var link := CursorAt(core, i).lastHash;
            var forged := CoreRecord(i + 1, core[i].ts, body, link, g(OrNone(link), i + 1, core[i].ts, body));
            && VerdictOf(g, PosOf(CursorAt(core, i)), [forged], None) == Accepted
            && !SameRecords([forged], core[i..i + 1])
  {
    var link := CursorAt(core, i).lastHash;
    var forged := CoreRecord(i + 1, core[i].ts, body, link, g(OrNone(link), i + 1, core[i].ts, body));
    CoreNumbers(g, core);
    ContinuesOne(g, PosOf(CursorAt(core, i)), forged);
    BreakInMeaning(g, PosOf(CursorAt(core, i)), [forged]);
    var stretch := core[i..i + 1];
    assert stretch[0] == core[i] && [forged][0] == forged;
  }

  /** What a drain has copied is the next stretch, and its cursor stands at the end of it. */
  ghost predicate CopiedNext(core: seq<CoreRecord>, i: nat, p: Pulled) {
    var j := i + |Flat(p.pages)|;
    j <= |core| && SameRecords(Flat(p.pages), core[i..j]) && p.cursor == CursorAt(core, j)
  }

  /** The pull copied exactly what lies between `i` and `j`. */
  ghost predicate CopiedBetween(core: seq<CoreRecord>, i: nat, j: nat, p: Pulled) {
    p.ending == Finished && i <= j <= |core| && Flat(p.pages) == core[i..j] && p.cursor == CursorAt(core, j)
  }

  lemma CopiedNothing(core: seq<CoreRecord>, i: nat)
    requires i <= |core|
    ensures CopiedBetween(core, i, i, Pulled([], CursorAt(core, i), Finished))
  {
    assert core[i..i] == [];
  }

  /** What follows a page that leaves the cursor at `c`. */
  function Beyond(g: CoreLinker, c: Cursor, last: bool, src: Source, n: nat, size: nat, most: nat, writable: bool): Pulled {
    if last || n + 1 >= most then Pulled([], c, Finished)
    else Pull(g, src, c, None, n + 1, size, most, writable)
  }

  lemma PullUnfolds(g: CoreLinker, src: Source, c: Cursor, asserted: Option<int>, n: nat, size: nat, most: nat, writable: bool)
    ensures var look := LookAt(g, src(n, c.until, size), c, asserted, writable);
      Pull(g, src, c, asserted, n, size, most, writable)
      == if look.Stop? then Pulled([], c, look.ending)
         else After(OnePage(look.records), Beyond(g, Onward(c, look.records), look.last, src, n, size, most, writable))
  {
    hide LookAt;
  }

  /** A page that is taken passed the checks. */
  lemma TakenContinues(g: CoreLinker, answer: Option<Page>, c: Cursor, asserted: Option<int>, writable: bool)
    requires LookAt(g, answer, c, asserted, writable).Take?
    ensures Continues(g, PosOf(c), LookAt(g, answer, c, asserted, writable).records)
  {
    var page := answer.value;
    VerdictMeaning(g, PosOf(c), page.records, if page.hasMore then None else asserted);
  }

  lemma FlatAfter(recs: seq<CoreRecord>, rest: Pulled)
    ensures Flat(After(OnePage(recs), rest).pages) == recs + Flat(rest.pages)
  {
    if recs == [] {
      assert OnePage(recs) + rest.pages == rest.pages;
    } else {
      assert (OnePage(recs) + rest.pages)[1..] == rest.pages;
    }
  }

  /** From any cursor: if the last hash a drain took is the core's hash at `q`, all it took
      are the core's records up to `q`, from the one the cursor's hash links to. */
  ghost predicate LandsAt(core: seq<CoreRecord>, q: nat, c: Cursor, p: Pulled)
    requires q < |core|
  {
    var recs := Flat(p.pages);
    && 0 < |recs| <= q + 1 && SameRecords(recs, core[q + 1 - |recs|..q + 1])
    && OrNone(c.lastHash) == OrNone(core[q + 1 - |recs|].prevHash)
    && p.cursor == CursorAt(core, q + 1)
  }

  lemma LastPageLands(g: CoreLinker, core: seq<CoreRecord>, q: nat, c: Cursor, recs: seq<CoreRecord>, rest: Pulled, inputs: set<CoreInput>)
    requires CoreChain(g, core) && q < |core| && Continues(g, PosOf(c), recs)
    requires CoreBinds(g, inputs) && CoreInputs(core) <= inputs && CoreInputs(recs) <= inputs
    requires Flat(rest.pages) == [] && rest.cursor == Onward(c, recs)
    requires recs != [] && recs[|recs| - 1].hash == core[q].hash
    ensures LandsAt(core, q, c, After(OnePage(recs), rest))
  {
    hide CoreChain, Continues, CoreBinds, SameRecord, CoreInputs, Flat;
    FlatAfter(recs, rest);
    assert recs + [] == recs;
    LinksIntoCore(g, core, q, PosOf(c), recs, inputs);
    var stretch := core[q + 1 - |recs|..q + 1];
    assert SameRecord(recs[|recs| - 1], stretch[|recs| - 1]);
    LinkOfSame(recs[|recs| - 1], core[q]);
  }

  /** One page, then a drain that is known to land. */
  lemma PageThenLands(g: CoreLinker, core: seq<CoreRecord>, q: nat, c: Cursor, recs: seq<CoreRecord>, rest: Pulled, inputs: set<CoreInput>)
    requires CoreChain(g, core) && q < |core| && recs != [] && Continues(g, PosOf(c), recs)
    requires CoreBinds(g, inputs) && CoreInputs(core) <= inputs && CoreInputs(recs) <= inputs
    requires LandsAt(core, q, Onward(c, recs), rest)
    ensures LandsAt(core, q, c, After(OnePage(recs), rest))
  {
    hide CoreChain, Continues, CoreBinds, SameRecords, CursorAt, Flat;
    var more := Flat(rest.pages);
    var j, last := q + 1 - |more|, recs[|recs| - 1];
    FlatAfter(recs, rest);
    assert last in recs && InputOf(last) in CoreInputs(recs);
    HashedHere(g, PosOf(c), recs, |recs| - 1);
    NotEmpty(g, inputs, last);
    CoreLink(g, core, j);
    LinksIntoCore(g, core, j - 1, PosOf(c), recs, inputs);
    SameJoined(recs, core[j - |recs|..j], more, core[j..q + 1]);
    assert core[j - |recs|..j] + core[j..q + 1] == core[j - |recs|..q + 1];
  }

  lemma SameJoined(a: seq<CoreRecord>, x: seq<CoreRecord>, b: seq<CoreRecord>, y: seq<CoreRecord>)
    requires SameRecords(a, x) && SameRecords(b, y)
    ensures SameRecords(a + b, x + y)
  {
    hide SameRecord;
  }

  lemma FlatNone()
    ensures Flat([]) == []
  {}

  lemma NothingBefore(core: seq<CoreRecord>, q: nat, c: Cursor, rest: Pulled)
    requires q < |core| && LandsAt(core, q, Onward(c, []), rest)
    ensures LandsAt(core, q, c, After(OnePage([]), rest))
  {
    FlatAfter([], rest);
    assert [] + Flat(rest.pages) == Flat(rest.pages);
  }

  lemma {:induction false} PullLands(g: CoreLinker, core: seq<CoreRecord>, q: nat, src: Source, c: Cursor, asserted: Option<int>, n: nat,
                                     size: nat, most: nat, writable: bool, inputs: set<CoreInput>)
    requires CoreChain(g, core) && q < |core| && CoreBinds(g, inputs) && CoreInputs(core) <= inputs
    requires var recs := Flat(Pull(g, src, c, asserted, n, size, most, writable).pages);
      recs != [] && recs[|recs| - 1].hash == core[q].hash && CoreInputs(recs) <= inputs
    ensures LandsAt(core, q, c, Pull(g, src, c, asserted, n, size, most, writable))
    decreases if n < most then most - n else 0
  {
    hide Pull, LookAt, LandsAt, CoreChain, Continues, CoreBinds, Onward, PosOf, Flat;
    var look := LookAt(g, src(n, c.until, size), c, asserted, writable);
    FlatNone();
    PullUnfolds(g, src, c, asserted, n, size, most, writable);
    var recs, rest := look.records, Beyond(g, Onward(c, look.records), look.last, src, n, size, most, writable);
    FlatAfter(recs, rest);
    var all := recs + Flat(rest.pages);
    assert forall r :: r in recs || r in Flat(rest.pages) ==> r in all;
    TakenContinues(g, src(n, c.until, size), c, asserted, writable);
    if Flat(rest.pages) != [] {
      PullLands(g, core, q, src, Onward(c, recs), None, n + 1, size, most, writable, inputs);
      if recs == [] {
        NothingBefore(core, q, c, rest);
      } else {
        PageThenLands(g, core, q, c, recs, rest, inputs);
      }
    } else {
      NothingTaken(g, Onward(c, recs), look.last, src, n, size, most, writable);
      LastPageLands(g, core, q, c, recs, rest, inputs);
    }
  }

  /** A drain that takes no record leaves the cursor where it was. */
  lemma {:induction false} NothingTaken(g: CoreLinker, c: Cursor, last: bool, src: Source, n: nat, size: nat, most: nat, writable: bool)
    requires Flat(Beyond(g, c, last, src, n, size, most, writable).pages) == []
    ensures Beyond(g, c, last, src, n, size, most, writable).cursor == c
    decreases if n < most then most - n else 0
  {
    hide LookAt, Pull;
    if !last && n + 1 < most {
      PullUnfolds(g, src, c, None, n + 1, size, most, writable);
      var look := LookAt(g, src(n + 1, c.until, size), c, None, writable);
      if look.Take? {
        FlatAfter(look.records, Beyond(g, Onward(c, look.records), look.last, src, n + 1, size, most, writable));
        assert look.records == [];
        NothingTaken(g, c, look.last, src, n + 1, size, most, writable);
      }
    }
  }

  /** Whatever the source answers, and however the drain ends: what it copied is the next
      stretch of the chain, and its cursor stands at the end of that stretch, if and only if
      the last hash it took is the core's. */
  lemma PullCopiesNext(g: CoreLinker, core: seq<CoreRecord>, i: nat, src: Source, asserted: Option<int>, n: nat,
                       size: nat, most: nat, writable: bool)
    requires CoreChain(g, core) && i <= |core|
    requires CoreBinds(g, CoreInputs(core) + CoreInputs(Flat(Pull(g, src, CursorAt(core, i), asserted, n, size, most, writable).pages)))
    ensures var p := Pull(g, src, CursorAt(core, i), asserted, n, size, most, writable);
      EndsInCore(core, Flat(p.pages)) <==> CopiedNext(core, i, p)
  {
    hide Pull, CoreChain, CoreBinds, SameRecord;
    var p := Pull(g, src, CursorAt(core, i), asserted, n, size, most, writable);
    var recs := Flat(p.pages);
    var inputs := CoreInputs(core) + CoreInputs(recs);
    if recs == [] {
      TakesNothing(g, CursorAt(core, i), src, asserted, n, size, most, writable);
      assert core[i..i] == [];
    } else {
      var last := recs[|recs| - 1];
      if EndsInCore(core, recs) {
        PullLands(g, core, last.seqNo - 1, src, CursorAt(core, i), asserted, n, size, most, writable, inputs);
        LinkAtCursor(g, core, i, last.seqNo - |recs|, inputs);
      }
      if CopiedNext(core, i, p) {
        SameEndsInCore(g, core, i, recs);
      }
    }
  }

  lemma TakesNothing(g: CoreLinker, c: Cursor, src: Source, asserted: Option<int>, n: nat, size: nat, most: nat, writable: bool)
    requires Flat(Pull(g, src, c, asserted, n, size, most, writable).pages) == []
    ensures Pull(g, src, c, asserted, n, size, most, writable).cursor == c
  {
    hide LookAt, Pull;
    PullUnfolds(g, src, c, asserted, n, size, most, writable);
    var look := LookAt(g, src(n, c.until, size), c, asserted, writable);
    if look.Take? {
      FlatAfter(look.records, Beyond(g, Onward(c, look.records), look.last, src, n, size, most, writable));
      assert look.records == [];
      NothingTaken(g, c, look.last, src, n, size, most, writable);
    }
  }

  // ---- an honest core ----

  function Newer(live: seq<CoreRecord>, after: int): seq<CoreRecord> {
    if live == [] || live[0].ts > after then live else Newer(live[1..], after)
  }

  function Least(a: int, b: int): int { if a < b then a else b }

  /** The first records newer than a time, and whether there are more. */
  function HonestPage(live: seq<CoreRecord>, after: int, limit: nat): Page {
    var rest := Newer(live, after);
    Page(rest[..Least(|rest|, limit)], |rest| > limit)
  }

  /** A core that still holds the records from `kept` on. */
  function HonestSource(core: seq<CoreRecord>, kept: nat): Source
    requires kept <= |core|
  {
    (n: nat, after: int, limit: nat) => Some(HonestPage(core[kept..], after, limit))
  }

  lemma {:induction false} NewerThanCursor(g: CoreLinker, core: seq<CoreRecord>, k: nat, i: nat)
    requires CoreChain(g, core) && k <= i <= |core|
    ensures Newer(core[k..], CursorAt(core, i).until) == core[i..]
    decreases i - k
  {
    CoreNumbers(g, core);
    if k < i {
      assert core[k..][1..] == core[k + 1..];
      NewerThanCursor(g, core, k + 1, i);
    }
  }

  /** Where a drain that may read `turns` more pages ends. */
  function Reach(total: nat, i: nat, size: nat, turns: nat): nat
    decreases turns
  {
    if turns == 0 then i else Reach(total, Least(total, i + size), size, turns - 1)
  }

  lemma {:induction false} ReachIs(total: nat, i: nat, size: nat, turns: nat)
    requires i <= total
    ensures size * turns >= 0 && Reach(total, i, size, turns) == i + Least(total - i, size * turns)
    decreases turns
  {
    if turns > 0 {
      ReachIs(total, Least(total, i + size), size, turns - 1);
      assert size * turns == size + size * (turns - 1) && size * (turns - 1) >= 0;
    }
  }

  lemma {:induction false} ReachEnd(total: nat, size: nat, turns: nat)
    ensures Reach(total, total, size, turns) == total
  {
    if turns > 0 {
      ReachEnd(total, size, turns - 1);
    }
  }

  /** No hint, or one for a record that is there. */
  predicate HintHolds(hint: Option<int>, total: nat) { hint.Some? ==> 0 <= hint.value <= total }

  lemma HonestAnswer(g: CoreLinker, core: seq<CoreRecord>, kept: nat, i: nat, size: nat, n: nat)
    requires CoreChain(g, core) && kept <= i <= |core|
    ensures var j := Least(|core|, i + size);
      HonestSource(core, kept)(n, CursorAt(core, i).until, size) == Some(Page(core[i..j], j < |core|))
  {
    NewerThanCursor(g, core, kept, i);
    assert core[i..][..Least(|core[i..]|, size)] == core[i..Least(|core|, i + size)];
  }

  lemma HonestVerdict(g: CoreLinker, core: seq<CoreRecord>, i: nat, j: nat, hint: Option<int>)
    requires CoreChain(g, core) && i <= j <= |core|
    requires hint.Some? ==> 0 <= hint.value <= j
    ensures VerdictOf(g, PosOf(CursorAt(core, i)), core[i..j], hint) == Accepted
  {
    NextRecordsContinue(g, core, i, j);
    BreakInMeaning(g, PosOf(CursorAt(core, i)), core[i..j]);
    if j > 0 {
      CoreNumber(g, core, j - 1);
    }
  }

  lemma HonestLook(g: CoreLinker, core: seq<CoreRecord>, kept: nat, i: nat, hint: Option<int>, size: nat, n: nat)
    requires CoreChain(g, core) && kept <= i <= |core| && size > 0 && HintHolds(hint, |core|)
    ensures var j := Least(|core|, i + size);
      LookAt(g, HonestSource(core, kept)(n, CursorAt(core, i).until, size), CursorAt(core, i), hint, true)
      == if i == |core| && !Asks(hint) then Stop(Finished) else Take(core[i..j], j == |core|)
  {
    var j := Least(|core|, i + size);
    HonestAnswer(g, core, kept, i, size, n);
    HonestVerdict(g, core, i, j, if j < |core| then None else hint);
  }

  lemma HonestStep(g: CoreLinker, core: seq<CoreRecord>, kept: nat, i: nat, hint: Option<int>, n: nat, size: nat, most: nat)
    requires CoreChain(g, core) && kept <= i <= |core| && size > 0 && HintHolds(hint, |core|)
    ensures var src, j := HonestSource(core, kept), Least(|core|, i + size);
      Pull(g, src, CursorAt(core, i), hint, n, size, most, true)
      == if i == |core| && !Asks(hint) then Pulled([], CursorAt(core, i), Finished)
         else After(OnePage(core[i..j]), Beyond(g, CursorAt(core, j), j == |core|, src, n, size, most, true))
  {
    HonestLook(g, core, kept, i, hint, size, n);
    OnwardFrom(core, i, Least(|core|, i + size));
  }

  lemma TwoStretches(core: seq<CoreRecord>, i: nat, j: nat, rest: Pulled, to: nat)
    requires i <= j <= |core| && CopiedBetween(core, j, to, rest)
    ensures CopiedBetween(core, i, to, After(OnePage(core[i..j]), rest))
  {
    FlatAfter(core[i..j], rest);
    assert core[i..j] + core[j..to] == core[i..to];
  }

  lemma {:induction false} HonestPulls(g: CoreLinker, core: seq<CoreRecord>, kept: nat, i: nat, hint: Option<int>, n: nat, size: nat, most: nat)
    requires CoreChain(g, core) && kept <= i <= |core| && size > 0 && n < most && HintHolds(hint, |core|)
    ensures CopiedBetween(core, i, Reach(|core|, i, size, most - n), Pull(g, HonestSource(core, kept), CursorAt(core, i), hint, n, size, most, true))
    decreases most - n
  {
    hide CoreChain, CopiedBetween, Pull, CursorAt;
    var j := Least(|core|, i + size);
    HonestStep(g, core, kept, i, hint, n, size, most);
    if i == |core| {
      ReachEnd(|core|, size, most - n);
      CopiedNothing(core, i);
    }
    assert Reach(|core|, i, size, most - n) == Reach(|core|, j, size, most - n - 1);
    if !(i == |core| && !Asks(hint)) {
      if j == |core| || n + 1 >= most {
        ReachEnd(|core|, size, most - n - 1);
        CopiedNothing(core, j);
      } else {
        HonestPulls(g, core, kept, j, None, n + 1, size, most);
      }
      TwoStretches(core, i, j, Beyond(g, CursorAt(core, j), j == |core|, HonestSource(core, kept), n, size, most, true),
                   Reach(|core|, j, size, most - n - 1));
    }
  }

  /** From any cursor position a drain on an honest core copies exactly the next
      min(remaining, page size x pages) records, in order, and its cursor then stands at
      the last of them. With nothing left it copies nothing and does not move. */
  lemma HonestDrain(g: CoreLinker, core: seq<CoreRecord>, kept: nat, i: nat, hint: Option<int>, size: nat, most: nat)
    requires CoreChain(g, core) && kept <= i <= |core| && size > 0 && most > 0 && HintHolds(hint, |core|)
    ensures size * most >= 0
    ensures var p, j := Pull(g, HonestSource(core, kept), CursorAt(core, i), hint, 0, size, most, true),
                        i + Least(|core| - i, size * most);
      p.ending == Finished && Flat(p.pages) == core[i..j] && p.cursor == CursorAt(core, j)
  {
    hide Pull, CoreChain, HintHolds, Flat;
    HonestPulls(g, core, kept, i, hint, 0, size, most);
    ReachIs(|core|, i, size, most);
  }

  // ---- a cursor and an archive ----

  /** Where a fresh cursor resumes when the first `kept` records were archived. */
  function ArchiveEnd(core: seq<CoreRecord>, kept: nat): Option<Cursor>
    requires kept <= |core|
  {
    if kept == 0 then None else Some(CursorAt(core, kept))
  }

  lemma {:induction false} AllNewer(g: CoreLinker, core: seq<CoreRecord>, kept: nat, i: nat)
    requires CoreChain(g, core) && i < kept <= |core|
    ensures Newer(core[kept..], CursorAt(core, i).until) == core[kept..]
  {
    CoreNumbers(g, core);
  }

  /** What a cursor below the archive finds: the records that would follow it are gone. */
  lemma GapAtArchive(g: CoreLinker, core: seq<CoreRecord>, kept: nat, i: nat, j: nat, asserted: Option<int>)
    requires CoreChain(g, core) && 0 < i < kept < j <= |core|
    ensures VerdictOf(g, PosOf(CursorAt(core, i)), core[kept..j], asserted) == Broken(kept + 1, Gap)
  {
    var p, recs := PosOf(CursorAt(core, i)), core[kept..j];
    CoreNumbers(g, core);
    assert recs[..1] == [recs[0]] && recs[..1][..0] == [];
    assert BreakIn(g, p, recs[..1]) == Some(FirstBreak(kept + 1, Gap));
    BreakStands(g, p, recs, 1);
  }

  lemma GapLook(g: CoreLinker, core: seq<CoreRecord>, kept: nat, i: nat, hint: Option<int>, size: nat)
    requires CoreChain(g, core) && 0 < i < kept <= |core| && size > 0
    ensures LookAt(g, HonestSource(core, kept)(0, CursorAt(core, i).until, size), CursorAt(core, i), hint, true)
         == if kept < |core| then Stop(Refused(Broken(kept + 1, Gap)))
            else if !Asks(hint) then Stop(Finished)
            else if hint.value > i then Stop(Refused(Stale))
            else Take([], true)
  {
    hide Continues, CoreChain, VerdictOf;
    AllNewer(g, core, kept, i);
    var rest := core[kept..];
    var j := Least(|core|, kept + size);
    assert rest[..Least(|rest|, size)] == core[kept..j];
    if kept < |core| {
      GapAtArchive(g, core, kept, i, j, if |rest| > size then None else hint);
    } else {
      NothingRead(g, core, i, hint);
    }
  }

  lemma NothingRead(g: CoreLinker, core: seq<CoreRecord>, i: nat, hint: Option<int>)
    requires CoreChain(g, core) && 0 < i <= |core|
    ensures VerdictOf(g, PosOf(CursorAt(core, i)), [], hint) == if Asks(hint) && hint.value > i then Stale else Accepted
  {
    CoreNumber(g, core, i - 1);
  }

  /** How a drain ends, for every cursor position and every archive: it goes through exactly
      when the cursor is fresh (it then resumes from the archive's end) or stands at the
      archive's end or beyond. Below the archive it is refused at the first surviving record,
      or, when none survives, only if a hint names a record it has not seen. */
  lemma DrainEndsBy(g: CoreLinker, core: seq<CoreRecord>, kept: nat, i: nat, hint: Option<int>, size: nat, most: nat)
    requires CoreChain(g, core) && kept <= |core| && i <= |core| && size > 0 && most > 0 && HintHolds(hint, |core|)
    ensures var c := StartFrom(CursorAt(core, i), ArchiveEnd(core, kept));
            var p := Pull(g, HonestSource(core, kept), c, hint, 0, size, most, true);
      p.ending == if i == 0 || i >= kept then Finished
                  else if kept < |core| then Refused(Broken(kept + 1, Gap))
                  else if Asks(hint) && hint.value > i then Refused(Stale) else Finished
  {
    hide Pull, LookAt, CoreChain, Continues, HonestSource;
    var c := StartFrom(CursorAt(core, i), ArchiveEnd(core, kept));
    if i == 0 || i >= kept {
      StartsAt(g, core, kept, i);
      HonestDrain(g, core, kept, if i == 0 then kept else i, hint, size, most);
    } else {
      StartsAt(g, core, kept, i);
      GapLook(g, core, kept, i, hint, size);
      PullUnfolds(g, HonestSource(core, kept), c, hint, 0, size, most, true);
    }
  }

  lemma StartsAt(g: CoreLinker, core: seq<CoreRecord>, kept: nat, i: nat)
    requires CoreChain(g, core) && kept <= |core| && i <= |core|
    ensures StartFrom(CursorAt(core, i), ArchiveEnd(core, kept)) == CursorAt(core, if i == 0 then kept else i)
  {
    CoreNumbers(g, core);
  }
}
