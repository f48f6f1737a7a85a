/** What drained pages leave in the audit log, and when a replay breaks its chain. */
module DrainedLog {
  import opened Common
  import opened Hashing
  import opened Chain
  import opened Writer
  import opened Accountability
  import opened Cursors
  import opened Puller
  import opened Drains

  function KeysOf(cs: seq<Content>): seq<Key> {
    seq(|cs|, i requires 0 <= i < |cs| => KeyOf(cs[i]))
  }

  lemma KeysOfContents(rows: seq<Row>)
    ensures Keys(rows) == KeysOf(Contents(rows))
  {
    KeysLength(rows);
  }

  lemma KeysOfConcat(a: seq<Content>, b: seq<Content>)
    ensures KeysOf(a + b) == KeysOf(a) + KeysOf(b)
  {}

  /** None of these events is stored, and no two are the same. */
  ghost predicate AllNew(keys: seq<Key>, cs: seq<Content>) {
    Distinct(KeysOf(cs)) && forall i :: 0 <= i < |cs| ==> KeyOf(cs[i]) !in keys
  }

  lemma {:induction false} NewOnesFollow(keys: seq<Key>, cs: seq<Content>)
    requires AllNew(keys, cs)
    ensures FreshContents(keys, cs) == cs
    ensures CleanBatch(keys, None, cs)
    decreases cs
  {
    if cs != [] {
      var k, rest := KeyOf(cs[0]), cs[1..];
      forall i | 0 <= i < |rest| ensures KeyOf(rest[i]) !in keys + [k] {
        assert rest[i] == cs[i + 1] && KeysOf(cs)[0] != KeysOf(cs)[i + 1];
      }
      assert KeysOf(rest) == KeysOf(cs)[1..];
      NewOnesFollow(keys + [k], rest);
      assert cs == [cs[0]] + rest;
    }
  }

  lemma AllNewSplit(keys: seq<Key>, a: seq<Content>, b: seq<Content>)
    requires AllNew(keys, a + b)
    ensures AllNew(keys, a) && AllNew(keys + KeysOf(a), b)
  {
    KeysOfConcat(a, b);
    var all := KeysOf(a + b);
    forall i | 0 <= i < |a| ensures KeyOf(a[i]) !in keys {
      assert (a + b)[i] == a[i];
    }
    forall i, j | 0 <= i < j < |a| ensures KeysOf(a)[i] != KeysOf(a)[j] {
      assert all[i] != all[j];
    }
    forall i, j | 0 <= i < j < |b| ensures KeysOf(b)[i] != KeysOf(b)[j] {
      assert all[|a| + i] != all[|a| + j];
    }
    forall i | 0 <= i < |b| ensures KeyOf(b[i]) !in keys + KeysOf(a) {
      assert (a + b)[|a| + i] == b[i];
      forall j | 0 <= j < |a| ensures KeysOf(a)[j] != KeyOf(b[i]) {
        assert all[j] != all[|a| + i];
      }
    }
  }

  lemma CopiesConcat(m: Minting, tenant: Option<string>, a: seq<CoreRecord>, b: seq<CoreRecord>)
    ensures Copies(m, tenant, a + b) == Copies(m, tenant, a) + Copies(m, tenant, b)
  {}

  lemma NewBatchFollows(h: Linker, s: ChainState, had: seq<Content>, before: ChainState, page: seq<Content>)
    requires Contents(before.table) == Contents(s.table) + had && AllNew(Keys(s.table), had + page)
    requires Linked(h, AnchorHash(before.anchor), before.table)
    ensures var now := Written(h, before, page);
      && before.table <= now.table && Contents(now.table) == Contents(s.table) + (had + page)
      && Linked(h, AnchorHash(before.anchor), now.table)
  {
    hide Linked, Keys, InsertAll, FreshContents, CleanBatch;
    AllNewSplit(Keys(s.table), had, page);
    KeysOfContents(s.table);
    KeysOfContents(before.table);
    KeysOfConcat(Contents(s.table), had);
    NewOnesFollow(Keys(before.table), page);
    FreshFollow(h, Seed(before), page);
    OldRowsStay(h, Seed(before), page);
    CleanBatchKeepsLinks(h, AnchorHash(before.anchor), Seed(before), None, page);
    assert Contents(s.table) + had + page == Contents(s.table) + (had + page);
  }

  /** Pages of records the log does not have are all appended, in order, and the log stays
      one chain. */
  lemma {:induction false} NewPagesFollow(h: Linker, m: Minting, tenant: Option<string>, s: ChainState, pages: seq<seq<CoreRecord>>)
    requires Linked(h, AnchorHash(s.anchor), s.table)
    requires AllNew(Keys(s.table), Copies(m, tenant, Flat(pages)))
    ensures var now := PagesWritten(h, m, tenant, s, pages);
      && now.anchor == s.anchor && s.table <= now.table
      && Contents(now.table) == Contents(s.table) + Copies(m, tenant, Flat(pages))
      && Linked(h, AnchorHash(s.anchor), now.table)
  {
    if pages == [] {
      assert Copies(m, tenant, Flat(pages)) == [];
    } else {
      var front, last := pages[..|pages| - 1], pages[|pages| - 1];
      FlatFront(pages);
      CopiesConcat(m, tenant, Flat(front), last);
      AllNewSplit(Keys(s.table), Copies(m, tenant, Flat(front)), Copies(m, tenant, last));
      NewPagesFollow(h, m, tenant, s, front);
      NewBatchFollows(h, s, Copies(m, tenant, Flat(front)), PagesWritten(h, m, tenant, s, front), Copies(m, tenant, last));
    }
  }

  // ---- pages of any records ----

  lemma {:induction false} FreshConcat(keys: seq<Key>, a: seq<Content>, b: seq<Content>)
    ensures FreshContents(keys, a + b)
         == FreshContents(keys, a) + FreshContents(keys + KeysOf(FreshContents(keys, a)), b)
    decreases a
  {
    if a == [] {
      assert a + b == b && keys + KeysOf([]) == keys;
    } else {
      assert (a + b)[1..] == a[1..] + b;
      var k := KeyOf(a[0]);
      if k in keys {
        FreshConcat(keys, a[1..], b);
      } else {
        var rest := FreshContents(keys + [k], a[1..]);
        FreshConcat(keys + [k], a[1..], b);
        assert [a[0]] + rest == FreshContents(keys, a);
        assert keys + [k] + KeysOf(rest) == keys + KeysOf([a[0]] + rest);
      }
    }
  }

  /** Whatever the log has already: of the pages' copies those that are new follow, in order,
      and afterwards every record of every page has its key stored. */
  lemma {:induction false} PagesStored(h: Linker, m: Minting, tenant: Option<string>, s: ChainState, pages: seq<seq<CoreRecord>>)
    ensures var now := PagesWritten(h, m, tenant, s, pages);
      && now.anchor == s.anchor && s.table <= now.table
      && Contents(now.table) == Contents(s.table) + FreshContents(Keys(s.table), Copies(m, tenant, Flat(pages)))
      && (forall r :: r in Flat(pages) ==> KeyOf(Copy(m, tenant, r)) in Keys(now.table))
      && NewRowsSay(m, tenant, Flat(pages), s.table, now.table)
  {
    PagesSay(h, m, tenant, s, pages);
    if pages == [] {
      assert Copies(m, tenant, Flat(pages)) == [];
    } else {
      var front, last := pages[..|pages| - 1], pages[|pages| - 1];
      FlatFront(pages);
      PagesStored(h, m, tenant, s, front);
      PageFollows(h, m, tenant, s, PagesWritten(h, m, tenant, s, front), Flat(front), last);
      PageStored(h, m, tenant, PagesWritten(h, m, tenant, s, front), Flat(front), last);
    }
  }

  lemma PageFollows(h: Linker, m: Minting, tenant: Option<string>, s: ChainState, before: ChainState, had: seq<CoreRecord>, page: seq<CoreRecord>)
    requires Contents(before.table) == Contents(s.table) + FreshContents(Keys(s.table), Copies(m, tenant, had))
    ensures before.table <= Written(h, before, Copies(m, tenant, page)).table
    ensures Contents(Written(h, before, Copies(m, tenant, page)).table)
         == Contents(s.table) + FreshContents(Keys(s.table), Copies(m, tenant, had + page))
  {
    hide FreshContents, Contents, Keys, KeysOf, Copies, InsertAll;
    var batch := Copies(m, tenant, page);
    var first := FreshContents(Keys(s.table), Copies(m, tenant, had));
    FreshFollow(h, Seed(before), batch);
    OldRowsStay(h, Seed(before), batch);
    CopiesConcat(m, tenant, had, page);
    FreshConcat(Keys(s.table), Copies(m, tenant, had), batch);
    KeysOfContents(s.table);
    KeysOfContents(before.table);
    KeysOfConcat(Contents(s.table), first);
    assert Contents(s.table) + first + FreshContents(Keys(before.table), batch)
        == Contents(s.table) + (first + FreshContents(Keys(before.table), batch));
  }

  lemma PageStored(h: Linker, m: Minting, tenant: Option<string>, before: ChainState, had: seq<CoreRecord>, page: seq<CoreRecord>)
    requires forall r :: r in had ==> KeyOf(Copy(m, tenant, r)) in Keys(before.table)
    ensures forall r :: r in had + page ==> KeyOf(Copy(m, tenant, r)) in Keys(Written(h, before, Copies(m, tenant, page)).table)
  {
    hide Keys, InsertAll, KeyOf, Copy;
    var batch, now := Copies(m, tenant, page), Written(h, before, Copies(m, tenant, page));
    BatchStoresFresh(h, Seed(before), batch);
    KeysStored(h, Seed(before), batch);
    forall r | r in had + page ensures KeyOf(Copy(m, tenant, r)) in Keys(now.table) {
      if r in page {
        var i :| 0 <= i < |page| && page[i] == r;
        assert batch[i] == Copy(m, tenant, r);
      } else {
        InPrefix(Keys(before.table), Keys(now.table), KeyOf(Copy(m, tenant, r)));
      }
    }
  }

  /** No two records of a core chain have the same key in the log: their times differ. */
  lemma CopiesDistinct(g: CoreLinker, core: seq<CoreRecord>, m: Minting, tenant: Option<string>, i: nat, j: nat)
    requires CoreChain(g, core) && i <= j <= |core|
    ensures Distinct(KeysOf(Copies(m, tenant, core[i..j])))
  {
    var cs := Copies(m, tenant, core[i..j]);
    CoreNumbers(g, core);
    forall p, q | 0 <= p < q < |cs| ensures KeysOf(cs)[p] != KeysOf(cs)[q] {
      assert core[i + p].ts < core[i + q].ts;
      assert KeyOf(cs[p]).ts == InstantOf(core[i + p].ts) && KeyOf(cs[q]).ts == InstantOf(core[i + q].ts);
    }
  }

  lemma StretchIsNew(g: CoreLinker, core: seq<CoreRecord>, i: nat, j: nat, m: Minting, tenant: Option<string>, keys: seq<Key>)
    requires CoreChain(g, core) && i <= j <= |core|
    requires forall k :: i <= k < |core| ==> KeyOf(Copy(m, tenant, core[k])) !in keys
    ensures AllNew(keys, Copies(m, tenant, core[i..j]))
  {
    CopiesDistinct(g, core, m, tenant, i, j);
    var cs := Copies(m, tenant, core[i..j]);
    forall k | 0 <= k < |cs| ensures KeyOf(cs[k]) !in keys {
      assert cs[k] == Copy(m, tenant, core[i + k]);
    }
  }

  /** A drain on an honest core, of records the log does not have yet: the log gets
      exactly the next stretch of the core's chain, in order, after everything it had, and
      stays one chain. */
  lemma DrainExtendsLog(g: CoreLinker, core: seq<CoreRecord>, kept: nat, i: nat, size: nat, most: nat,
                        h: Linker, m: Minting, tenant: Option<string>, s: ChainState)
    requires CoreChain(g, core) && kept <= i <= |core| && size > 0 && most > 0
    requires Linked(h, AnchorHash(s.anchor), s.table)
    requires forall k :: i <= k < |core| ==> KeyOf(Copy(m, tenant, core[k])) !in Keys(s.table)
    ensures size * most >= 0
    ensures var p := Pull(g, HonestSource(core, kept), CursorAt(core, i), None, 0, size, most, true);
            var now, j := PagesWritten(h, m, tenant, s, p.pages), i + Least(|core| - i, size * most);
      && p.ending == Finished && p.cursor == CursorAt(core, j)
      && s.table <= now.table && Contents(now.table) == Contents(s.table) + Copies(m, tenant, core[i..j])
      && Linked(h, AnchorHash(s.anchor), now.table)
  {
    hide Pull, Linked, Copies, Keys, PagesWritten, CoreChain;
    HonestDrain(g, core, kept, i, None, size, most);
    var p, j := Pull(g, HonestSource(core, kept), CursorAt(core, i), None, 0, size, most, true), i + Least(|core| - i, size * most);
    StretchIsNew(g, core, i, j, m, tenant, Keys(s.table));
    NewPagesFollow(h, m, tenant, s, p.pages);
  }

  // ---- replays ----

  lemma {:induction false} DuplicatesThenNew(keys: seq<Key>, dup: Option<Key>, seen: seq<Content>, more: seq<Content>)
    requires forall i :: 0 <= i < |seen| ==> KeyOf(seen[i]) in keys
    requires AllNew(keys, more)
    ensures var last := if seen == [] then dup else Some(KeyOf(seen[|seen| - 1]));
      CleanBatch(keys, dup, seen + more) <==>
        more == [] || last.None? || (keys != [] && last.value == keys[|keys| - 1])
    decreases seen
  {
    var all := seen + more;
    if seen == [] {
      assert all == more;
      if more != [] {
        assert more == [more[0]] + more[1..];
        AllNewSplit(keys, [more[0]], more[1..]);
        assert KeysOf([more[0]]) == [KeyOf(more[0])];
        NewOnesFollow(keys + [KeyOf(more[0])], more[1..]);
      }
    } else {
      assert all[1..] == seen[1..] + more && all[0] == seen[0];
      DuplicatesThenNew(keys, Some(KeyOf(seen[0])), seen[1..], more);
    }
  }

  /** A page that repeats some stored records and goes on with new ones (after a cursor was
      reset, or rows were committed without their cursor) leaves the log's chain whole if
      and only if there is nothing new, or nothing repeated, or the last one repeated is
      the last row of the log. */
  lemma ReplayedPageLinksIff(h: Linker, s: ChainState, seen: seq<Content>, more: seq<Content>)
    requires Linked(h, AnchorHash(s.anchor), s.table) && Distinct(Keys(s.table))
    requires BindsOn(h, Inputs(InsertAll(h, Seed(s), seen + more).rows))
    requires forall i :: 0 <= i < |seen| ==> KeyOf(seen[i]) in Keys(s.table)
    requires AllNew(Keys(s.table), more)
    ensures Linked(h, AnchorHash(s.anchor), Written(h, s, seen + more).table)
            <==> more == [] || seen == [] || KeyOf(seen[|seen| - 1]) == Keys(s.table)[|Keys(s.table)| - 1]
  {
    LinkedIffCleanBatch(h, s, seen + more);
    DuplicatesThenNew(Keys(s.table), None, seen, more);
  }

  /** The case is real: one core record is in the log, a queue event follows it, the
      cursor is reset, and the next page brings the record again with a new one. */
  lemma ResetThenReplayMislinks(h: Linker, m: Minting, tenant: Option<string>, one: CoreRecord, two: CoreRecord, event: Content)
    requires Distinct([KeyOf(Copy(m, tenant, one)), KeyOf(event), KeyOf(Copy(m, tenant, two))])
    requires var c := Copy(m, tenant, one); h(None, c) != h(Some(h(None, c)), event)
    ensures var c := Copy(m, tenant, one);
            var r1 := Row(1, c, None, h(None, c));
            var r2 := Row(2, event, Some(r1.rowHash), h(Some(r1.rowHash), event));
            var s := ChainState([r1, r2], None, {}, 3);
            && Linked(h, None, s.table)
            && !Linked(h, None, PagesWritten(h, m, tenant, s, [[one, two]]).table)
  {
    var c, d := Copy(m, tenant, one), Copy(m, tenant, two);
    var r1 := Row(1, c, None, h(None, c));
    var r2 := Row(2, event, Some(r1.rowHash), h(Some(r1.rowHash), event));
    var s := ChainState([r1, r2], None, {}, 3);
    OldDuplicateMislinks(h, c, event, d);
    assert Copies(m, tenant, [one, two]) == [c, d];
    assert [[one, two]][..0] == [];
    assert PagesWritten(h, m, tenant, s, [[one, two]]) == Written(h, s, [c, d]);
  }
}
