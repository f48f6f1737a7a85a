/** Appending to the audit log: partitions on demand, then a deduplicating, chained
    insert of every row in order. */
module Writer {
  import opened Common
  import opened Hashing
  import opened Chain

  const GLOBAL_KEY := "__global__"

  /** A row as it reaches the writer. `body.fields.tenant` is ignored: the tenant is hashed on
      the global chain only. */
  datatype AuditRow = AuditRow(isGlobal: bool, tenant: Option<string>, body: Content)

  function ChainKey(r: AuditRow): string {
    if r.isGlobal then GLOBAL_KEY else if r.tenant.Some? then r.tenant.value else ""
  }

  function ContentOf(r: AuditRow): Content {
    r.body.(fields := r.body.fields.(tenant := if r.isGlobal then r.tenant else None))
  }

  /** What the table is unique on. */
  datatype Key = Key(eventId: EventId, ts: Instant)

  function KeyOf(c: Content): Key { Key(c.eventId, c.ts) }

  function Keys(rows: seq<Row>): seq<Key> {
    if rows == [] then [] else Keys(rows[..|rows| - 1]) + [KeyOf(rows[|rows| - 1].content)]
  }

  predicate Distinct<T(==)>(xs: seq<T>) {
    forall i, j :: 0 <= i < j < |xs| ==> xs[i] != xs[j]
  }

  /** One chain's rows in the database, in `seq` order, its archive anchor, the days it
      has a partition for and the next value of its sequence. */
  datatype ChainState = ChainState(table: seq<Row>, anchor: Option<Anchor>, partitions: set<int>, nextSeq: int)

  /** Where a transaction stands in appending to one chain. */
  datatype Appending = Appending(rows: seq<Row>, head: Option<Hash>, nextSeq: int)

  function StoredHash(rows: seq<Row>, k: Key): Option<Hash> {
    if rows == [] then None
    else if KeyOf(rows[|rows| - 1].content) == k then Some(rows[|rows| - 1].rowHash)
    else StoredHash(rows[..|rows| - 1], k)
  }

  function AnchorHash(anchor: Option<Anchor>): Option<Hash> {
    if anchor.Some? then anchor.value.lastRowHash else None
  }

  /** The head is read from the tail of the table, or from the archive's last link when
      every row has been archived. */
  function Seed(s: ChainState): Appending {
    Appending(s.table, HeadHash(AnchorHash(s.anchor), s.table), s.nextSeq)
  }

  /** One `INSERT ... ON CONFLICT DO NOTHING`. A duplicate stores nothing and takes the
      stored row's hash as the head; either way a sequence value is used up. */
  function InsertOne(h: Linker, s: Appending, c: Content): Appending {
    var stored := StoredHash(s.rows, KeyOf(c));
    if stored.Some? then s.(head := stored, nextSeq := s.nextSeq + 1)
    else
      var row := Row(s.nextSeq, c, s.head, h(s.head, c));
      Appending(s.rows + [row], Some(row.rowHash), s.nextSeq + 1)
  }

  function InsertAll(h: Linker, s: Appending, batch: seq<Content>): Appending
    decreases batch
  {
    if batch == [] then s else InsertAll(h, InsertOne(h, s, batch[0]), batch[1..])
  }

  // ---- what is stored ----

  lemma {:induction false} StoredIffKey(rows: seq<Row>, k: Key)
    ensures StoredHash(rows, k).Some? <==> k in Keys(rows)
  {
    if rows != [] {
      StoredIffKey(rows[..|rows| - 1], k);
    }
  }

  lemma {:induction false} KeysConcat(a: seq<Row>, b: seq<Row>)
    ensures Keys(a + b) == Keys(a) + Keys(b)
    ensures |Keys(a)| == |a| && forall i :: 0 <= i < |a| ==> Keys(a)[i] == KeyOf(a[i].content)
  {
    KeysLength(a);
    if b == [] {
      assert a + b == a;
    } else {
      var front := b[..|b| - 1];
      assert (a + b)[..|a + b| - 1] == a + front;
      KeysConcat(a, front);
    }
  }

  lemma {:induction false} KeysLength(a: seq<Row>)
    ensures |Keys(a)| == |a| && forall i :: 0 <= i < |a| ==> Keys(a)[i] == KeyOf(a[i].content)
  {
    if a != [] {
      KeysLength(a[..|a| - 1]);
    }
  }

  /** The contents a batch adds to a table that holds `keys`: those whose key is in
      neither, the first time each appears, in batch order. */
  function FreshContents(keys: seq<Key>, batch: seq<Content>): seq<Content>
    decreases batch
  {
    if batch == [] then []
    else if KeyOf(batch[0]) in keys then FreshContents(keys, batch[1..])
    else [batch[0]] + FreshContents(keys + [KeyOf(batch[0])], batch[1..])
  }

  lemma {:induction false} FreshOnes(keys: seq<Key>, batch: seq<Content>)
    ensures forall q :: q in FreshContents(keys, batch) ==> q in batch
    decreases batch
  {
    if batch != [] {
      assert batch == [batch[0]] + batch[1..];
      FreshOnes(keys, batch[1..]);
      FreshOnes(keys + [KeyOf(batch[0])], batch[1..]);
    }
  }

  lemma InsertOneStores(h: Linker, s: Appending, c: Content)
    ensures var next := InsertOne(h, s, c);
            if KeyOf(c) in Keys(s.rows) then next.rows == s.rows
            else
              && |next.rows| == |s.rows| + 1
              && next.rows[..|s.rows|] == s.rows
              && Contents(next.rows) == Contents(s.rows) + [c]
              && Keys(next.rows) == Keys(s.rows) + [KeyOf(c)]
  {
    StoredIffKey(s.rows, KeyOf(c));
  }

  lemma {:induction false} OldRowsStay(h: Linker, s: Appending, batch: seq<Content>)
    ensures s.rows <= InsertAll(h, s, batch).rows
    ensures InsertAll(h, s, batch).nextSeq == s.nextSeq + |batch|
    decreases batch
  {
    if batch != [] {
      OldRowsStay(h, InsertOne(h, s, batch[0]), batch[1..]);
    }
  }

  lemma {:induction false} FreshFollow(h: Linker, s: Appending, batch: seq<Content>)
    ensures Contents(InsertAll(h, s, batch).rows) == Contents(s.rows) + FreshContents(Keys(s.rows), batch)
    decreases batch
  {
    if batch != [] {
      InsertOneStores(h, s, batch[0]);
      FreshFollow(h, InsertOne(h, s, batch[0]), batch[1..]);
    }
  }

  lemma {:induction false} KeysStored(h: Linker, s: Appending, batch: seq<Content>)
    ensures Keys(s.rows) <= Keys(InsertAll(h, s, batch).rows)
    ensures Distinct(Keys(s.rows)) ==> Distinct(Keys(InsertAll(h, s, batch).rows))
    decreases batch
  {
    if batch != [] {
      InsertOneStores(h, s, batch[0]);
      KeysStored(h, InsertOne(h, s, batch[0]), batch[1..]);
    }
  }

  lemma {:induction false} BatchKeysStored(h: Linker, s: Appending, batch: seq<Content>, i: nat)
    requires i < |batch|
    ensures KeyOf(batch[i]) in Keys(InsertAll(h, s, batch).rows)
    decreases batch
  {
    var next := InsertOne(h, s, batch[0]);
    if i == 0 {
      InsertOneStores(h, s, batch[0]);
      KeysStored(h, next, batch[1..]);
      InPrefix(Keys(next.rows), Keys(InsertAll(h, next, batch[1..]).rows), KeyOf(batch[0]));
    } else {
      BatchKeysStored(h, next, batch[1..], i - 1);
    }
  }

  lemma InPrefix(a: seq<Key>, b: seq<Key>, k: Key)
    requires a <= b && k in a
    ensures k in b
  {
    var i :| 0 <= i < |a| && a[i] == k;
    assert b[i] == k;
  }

  /** Old rows stay as they were, the fresh contents follow in batch order, every key of
      the batch is then stored, and no key is stored twice. */
  lemma BatchStoresFresh(h: Linker, s: Appending, batch: seq<Content>)
    ensures var after := InsertAll(h, s, batch);
            && s.rows <= after.rows
            && Contents(after.rows[|s.rows|..]) == FreshContents(Keys(s.rows), batch)
            && (forall i :: 0 <= i < |batch| ==> KeyOf(batch[i]) in Keys(after.rows))
            && (Distinct(Keys(s.rows)) ==> Distinct(Keys(after.rows)))
            && (forall i :: 0 <= i < |batch| ==> EventIn(after.rows, batch[i]))
            && (OncePerEvent(s.rows) ==> OncePerEvent(after.rows))
  {
    var after := InsertAll(h, s, batch);
    hide EventIn, OncePerEvent, Distinct;
    OnceIffDistinct(s.rows);
    OnceIffDistinct(after.rows);
    forall i | 0 <= i < |batch| ensures EventIn(after.rows, batch[i]) {
      BatchKeysStored(h, s, batch, i);
      EventInIff(after.rows, batch[i]);
    }
    OldRowsStay(h, s, batch);
    FreshFollow(h, s, batch);
    KeysStored(h, s, batch);
    forall i | 0 <= i < |batch| ensures KeyOf(batch[i]) in Keys(after.rows) {
      BatchKeysStored(h, s, batch, i);
    }
    ContentsTail(s.rows, after.rows, FreshContents(Keys(s.rows), batch));
  }

  lemma ContentsTail(some: seq<Row>, all: seq<Row>, added: seq<Content>)
    requires some <= all && Contents(all) == Contents(some) + added
    ensures Contents(all[|some|..]) == added
  {
    assert |added| == |all| - |some|;
    forall i | 0 <= i < |added| ensures added[i] == all[|some| + i].content {
      assert Contents(all)[|some| + i] == added[i];
    }
  }

  /** No event, by its id and its time, is in the table twice. */
  predicate OncePerEvent(rows: seq<Row>) {
    forall i, j :: 0 <= i < j < |rows| ==>
      rows[i].content.eventId != rows[j].content.eventId || rows[i].content.ts != rows[j].content.ts
  }

  lemma OnceIffDistinct(rows: seq<Row>)
    ensures OncePerEvent(rows) <==> Distinct(Keys(rows))
  {
    KeysLength(rows);
    var keys := Keys(rows);
    if Distinct(keys) {
      forall i, j | 0 <= i < j < |rows|
        ensures rows[i].content.eventId != rows[j].content.eventId || rows[i].content.ts != rows[j].content.ts
      {
        assert keys[i] != keys[j];
      }
    }
    if OncePerEvent(rows) {
      forall i, j | 0 <= i < j < |keys| ensures keys[i] != keys[j] {
        assert keys[i] == KeyOf(rows[i].content) && keys[j] == KeyOf(rows[j].content);
      }
    }
  }

  /** The event, by its id and its time, is in the table. */
  predicate EventIn(rows: seq<Row>, c: Content) {
    exists i :: 0 <= i < |rows| && rows[i].content.eventId == c.eventId && rows[i].content.ts == c.ts
  }

  lemma EventInIff(rows: seq<Row>, c: Content)
    ensures EventIn(rows, c) <==> KeyOf(c) in Keys(rows)
  {
    KeysLength(rows);
    if EventIn(rows, c) {
      var i :| 0 <= i < |rows| && rows[i].content.eventId == c.eventId && rows[i].content.ts == c.ts;
      assert Keys(rows)[i] == KeyOf(c);
    }
    if KeyOf(c) in Keys(rows) {
      var i :| 0 <= i < |Keys(rows)| && Keys(rows)[i] == KeyOf(c);
      assert rows[i].content.eventId == c.eventId && rows[i].content.ts == c.ts;
    }
  }

  /** Delivering again what is already stored changes no row. */
  lemma {:induction false} RedeliveryChangesNothing(h: Linker, s: Appending, batch: seq<Content>)
    requires forall i :: 0 <= i < |batch| ==> KeyOf(batch[i]) in Keys(s.rows)
    ensures InsertAll(h, s, batch).rows == s.rows
    decreases batch
  {
    if batch != [] {
      StoredIffKey(s.rows, KeyOf(batch[0]));
      RedeliveryChangesNothing(h, InsertOne(h, s, batch[0]), batch[1..]);
    }
  }

  /** New rows come after all old ones in `seq` order. */
  lemma {:induction false} BatchKeepsAscending(h: Linker, s: Appending, after: Option<int>, batch: seq<Content>)
    requires Ascending(after, s.rows)
    requires LastSeq(after, s.rows).Some? ==> LastSeq(after, s.rows).value < s.nextSeq
    ensures var done := InsertAll(h, s, batch);
            && Ascending(after, done.rows)
            && (LastSeq(after, done.rows).Some? ==> LastSeq(after, done.rows).value < done.nextSeq)
    decreases batch
  {
    if batch != [] {
      var next := InsertOne(h, s, batch[0]);
      assert next.rows != s.rows ==> next.rows[..|next.rows| - 1] == s.rows;
      BatchKeepsAscending(h, next, after, batch[1..]);
    }
  }

  // ---- when the chain stays linked ----

  /** The condition a caller can check before the call, from keys alone: every fresh row
      that directly follows a duplicate finds that duplicate to be the last row stored.
      `dup` is the duplicate the previous row was, if it was one. */
  predicate CleanBatch(keys: seq<Key>, dup: Option<Key>, batch: seq<Content>)
    decreases batch
  {
    batch != [] ==>
      var k := KeyOf(batch[0]);
      if k in keys then CleanBatch(keys, Some(k), batch[1..])
      else
        && (dup.Some? ==> keys != [] && dup.value == keys[|keys| - 1])
        && CleanBatch(keys + [k], None, batch[1..])
  }

  /** What the head is, given the last row handled. */
  ghost predicate HeadFits(base: Option<Hash>, s: Appending, dup: Option<Key>) {
    if dup.Some? then StoredHash(s.rows, dup.value).Some? && s.head == StoredHash(s.rows, dup.value)
    else s.head == HeadHash(base, s.rows)
  }

  /** A batch that meets the condition keeps a linked chain linked. */
  lemma {:induction false} CleanBatchKeepsLinks(h: Linker, base: Option<Hash>, s: Appending, dup: Option<Key>, batch: seq<Content>)
    requires Linked(h, base, s.rows) && HeadFits(base, s, dup)
    requires CleanBatch(Keys(s.rows), dup, batch)
    ensures Linked(h, base, InsertAll(h, s, batch).rows)
    decreases batch
  {
    if batch != [] {
      var k, next := KeyOf(batch[0]), InsertOne(h, s, batch[0]);
      StoredIffKey(s.rows, k);
      if k in Keys(s.rows) {
        CleanBatchKeepsLinks(h, base, next, Some(k), batch[1..]);
      } else {
        HeadAtTail(base, s, dup);
        assert next.rows[..|next.rows| - 1] == s.rows;
        CleanBatchKeepsLinks(h, base, next, None, batch[1..]);
      }
    }
  }

  lemma HeadAtTail(base: Option<Hash>, s: Appending, dup: Option<Key>)
    requires HeadFits(base, s, dup)
    requires dup.Some? ==> Keys(s.rows) != [] && dup.value == Keys(s.rows)[|Keys(s.rows)| - 1]
    ensures s.head == HeadHash(base, s.rows)
  {
    KeysLength(s.rows);
  }

  lemma {:induction false} StoredHashNamesRow(rows: seq<Row>, i: nat)
    requires i < |rows| && Distinct(Keys(rows))
    ensures StoredHash(rows, KeyOf(rows[i].content)) == Some(rows[i].rowHash)
    decreases |rows|
  {
    KeysLength(rows);
    if i < |rows| - 1 {
      var front := rows[..|rows| - 1];
      assert Keys(rows)[i] != Keys(rows)[|rows| - 1];
      assert Keys(front) == Keys(rows)[..|rows| - 1];
      StoredHashNamesRow(front, i);
    }
  }

  /** A batch that does not meet the condition leaves the chain broken. */
  lemma {:induction false} UncleanBatchBreaksLinks(h: Linker, base: Option<Hash>, s: Appending, dup: Option<Key>, batch: seq<Content>)
    requires Linked(h, base, s.rows) && HeadFits(base, s, dup)
    requires Distinct(Keys(s.rows))
    requires BindsOn(h, Inputs(InsertAll(h, s, batch).rows))
    requires !CleanBatch(Keys(s.rows), dup, batch)
    ensures !Linked(h, base, InsertAll(h, s, batch).rows)
    decreases batch
  {
    var k, next := KeyOf(batch[0]), InsertOne(h, s, batch[0]);
    InsertOneStores(h, s, batch[0]);
    StoredIffKey(s.rows, k);
    OldRowsStay(h, next, batch[1..]);
    if k in Keys(s.rows) {
      UncleanBatchBreaksLinks(h, base, next, Some(k), batch[1..]);
    } else if s.head == HeadHash(base, s.rows) {
      KeysStored(h, s, [batch[0]]);
      OnlyTailHasTailHash(h, base, s, dup, InsertAll(h, s, batch).rows);
      UncleanBatchBreaksLinks(h, base, next, None, batch[1..]);
    } else if Linked(h, base, InsertAll(h, s, batch).rows) {
      LinkedPrefix(h, base, next.rows, InsertAll(h, next, batch[1..]).rows);
    }
  }

  lemma LinkedPrefix(h: Linker, base: Option<Hash>, some: seq<Row>, all: seq<Row>)
    requires some <= all && Linked(h, base, all)
    ensures Linked(h, base, some)
  {
    assert all == some + all[|some|..];
    LinkedConcat(h, base, some, all[|some|..]);
  }

  /** A duplicate whose hash is the tail's is the tail. */
  lemma OnlyTailHasTailHash(h: Linker, base: Option<Hash>, s: Appending, dup: Option<Key>, after: seq<Row>)
    requires Linked(h, base, s.rows) && HeadFits(base, s, dup) && s.head == HeadHash(base, s.rows)
    requires Distinct(Keys(s.rows)) && s.rows <= after && BindsOn(h, Inputs(after))
    ensures dup.Some? ==> Keys(s.rows) != [] && dup.value == Keys(s.rows)[|Keys(s.rows)| - 1]
  {
    if dup.Some? {
      KeysLength(s.rows);
      StoredIffKey(s.rows, dup.value);
      var i :| 0 <= i < |s.rows| && Keys(s.rows)[i] == dup.value;
      StoredHashNamesRow(s.rows, i);
      RowIsHashed(h, base, s.rows, i);
      RowIsHashed(h, base, s.rows, |s.rows| - 1);
      assert after[i] == s.rows[i] && after[|s.rows| - 1] == s.rows[|s.rows| - 1];
      assert (after[i].prevHash, after[i].content) in Inputs(after);
      assert (after[|s.rows| - 1].prevHash, after[|s.rows| - 1].content) in Inputs(after);
    }
  }

  lemma {:induction false} RowIsHashed(h: Linker, base: Option<Hash>, rows: seq<Row>, i: nat)
    requires i < |rows| && Linked(h, base, rows)
    ensures rows[i].rowHash == h(rows[i].prevHash, rows[i].content)
    decreases |rows|
  {
    if i < |rows| - 1 {
      RowIsHashed(h, base, rows[..|rows| - 1], i);
    }
  }

  /** The exact condition: a batch appended to a linked table leaves it linked if and
      only if every fresh row that follows a duplicate finds it at the tail. */
  lemma LinkedIffCleanBatch(h: Linker, s: ChainState, batch: seq<Content>)
    requires Linked(h, AnchorHash(s.anchor), s.table) && Distinct(Keys(s.table))
    requires BindsOn(h, Inputs(InsertAll(h, Seed(s), batch).rows))
    ensures Linked(h, AnchorHash(s.anchor), InsertAll(h, Seed(s), batch).rows) <==> CleanBatch(Keys(s.table), None, batch)
  {
    if CleanBatch(Keys(s.table), None, batch) {
      CleanBatchKeepsLinks(h, AnchorHash(s.anchor), Seed(s), None, batch);
    } else {
      UncleanBatchBreaksLinks(h, AnchorHash(s.anchor), Seed(s), None, batch);
    }
  }

  /** The condition is needed: two rows stored, then the older one again and a new one. */
  lemma OldDuplicateMislinks(h: Linker, c1: Content, c2: Content, c3: Content)
    requires Distinct([KeyOf(c1), KeyOf(c2), KeyOf(c3)])
    requires h(None, c1) != h(Some(h(None, c1)), c2)
    ensures var r1 := Row(1, c1, None, h(None, c1));
            var r2 := Row(2, c2, Some(r1.rowHash), h(Some(r1.rowHash), c2));
            var s := ChainState([r1, r2], None, {}, 3);
            && Linked(h, None, s.table)
            && !Linked(h, None, InsertAll(h, Seed(s), [c1, c3]).rows)
  {
    var r1 := Row(1, c1, None, h(None, c1));
    var r2 := Row(2, c2, Some(r1.rowHash), h(Some(r1.rowHash), c2));
    var s := ChainState([r1, r2], None, {}, 3);
    LinkedSingle(h, None, r1);
    assert [r1, r2][..1] == [r1];
    assert [c1, c3][1..] == [c3] && [c3][1..] == [];
    assert KeyOf(c1) != KeyOf(c2) && KeyOf(c1) != KeyOf(c3) && KeyOf(c2) != KeyOf(c3) by {
      var ks := [KeyOf(c1), KeyOf(c2), KeyOf(c3)];
      assert ks[0] != ks[1] && ks[0] != ks[2] && ks[1] != ks[2];
    }
    assert StoredHash([r1], KeyOf(c1)) == Some(r1.rowHash);
    assert StoredHash([r1], KeyOf(c3)) == StoredHash([], KeyOf(c3)) == None;
    var s1 := InsertOne(h, Seed(s), c1);
    var s2 := InsertOne(h, s1, c3);
    assert InsertAll(h, Seed(s), [c1, c3]) == InsertAll(h, s1, [c3]) == InsertAll(h, s2, []) == s2;
    assert s2.rows[..|s2.rows| - 1] == s.table;
  }

  // ---- the batch insert, over every chain it touches ----

  /** The rows of a batch that belong to one chain, in order. */
  function Project(rows: seq<AuditRow>, key: string): seq<Content> {
    if rows == [] then []
    else if ChainKey(rows[0]) == key then [ContentOf(rows[0])] + Project(rows[1..], key)
    else Project(rows[1..], key)
  }

  /** The row belongs to the chain: the global one, or its tenant's. */
  predicate OnChain(r: AuditRow, key: string) {
    if r.isGlobal then key == "__global__" else if r.tenant.Some? then r.tenant == Some(key) else key == ""
  }

  /** The content is the row's, but for the tenant, which is kept on the global chain only. */
  predicate RowSays(r: AuditRow, c: Content) {
    && c.eventId == r.body.eventId && c.ts == r.body.ts
    && c.fields.(tenant := None) == r.body.fields.(tenant := None)
    && (if r.isGlobal then c.fields.tenant == r.tenant else c.fields.tenant.None?)
  }

  predicate RowSaid(rows: seq<AuditRow>, key: string, c: Content) {
    exists i :: 0 <= i < |rows| && OnChain(rows[i], key) && RowSays(rows[i], c)
  }

  lemma {:induction false} ProjectSays(rows: seq<AuditRow>, key: string)
    ensures forall c :: c in Project(rows, key) ==> RowSaid(rows, key, c)
    ensures Project(rows, key) == [] <==> forall i :: 0 <= i < |rows| ==> !OnChain(rows[i], key)
  {
    if rows != [] {
      var rest := rows[1..];
      ProjectSays(rest, key);
      assert forall i :: 0 <= i < |rest| ==> rest[i] == rows[i + 1];
      forall c | c in Project(rows, key) ensures RowSaid(rows, key, c) {
        if OnChain(rows[0], key) && c == ContentOf(rows[0]) {
          assert RowSays(rows[0], c);
        } else {
          var i :| 0 <= i < |rest| && OnChain(rest[i], key) && RowSays(rest[i], c);
          assert OnChain(rows[i + 1], key) && RowSays(rows[i + 1], c);
        }
      }
      if Project(rows, key) == [] {
        forall i | 0 <= i < |rows| ensures !OnChain(rows[i], key) {
          assert i > 0 ==> rest[i - 1] == rows[i];
        }
      }
    }
  }

  /** The old rows stay, and every new one is a row of the batch for this chain; a chain without
      one gets none. */
  ghost predicate RowsOfBatch(rows: seq<AuditRow>, key: string, was: seq<Row>, now: seq<Row>) {
    && was <= now && (forall i :: |was| <= i < |now| ==> RowSaid(rows, key, now[i].content))
    && ((forall i :: 0 <= i < |rows| ==> !OnChain(rows[i], key)) ==> now == was)
  }

  lemma WrittenSays(h: Linker, s: ChainState, rows: seq<AuditRow>, key: string)
    ensures RowsOfBatch(rows, key, s.table, Written(h, s, Project(rows, key)).table)
  {
    hide RowSaid, OnChain, Keys, FreshContents;
    var batch, now := Project(rows, key), Written(h, s, Project(rows, key)).table;
    BatchStoresFresh(h, Seed(s), batch);
    ProjectSays(rows, key);
    FreshOnes(Keys(s.table), batch);
    var more := Contents(now[|s.table|..]);
    forall i | |s.table| <= i < |now| ensures RowSaid(rows, key, now[i].content) {
      assert more[i - |s.table|] == now[i].content && now[i].content in more;
    }
  }

  /** The UTC days of these timestamps, which name the partitions. */
  function DaysOf(cs: seq<Content>): set<int> { set i | 0 <= i < |cs| :: cs[i].ts.day }

  function Written(h: Linker, s: ChainState, batch: seq<Content>): ChainState {
    var after := InsertAll(h, Seed(s), batch);
    s.(table := after.rows, nextSeq := after.nextSeq, partitions := s.partitions + DaysOf(batch))
  }

  /** The database as one connection sees it: every chain's table. */
  class AuditDb {
    const h: Linker
    var chains: map<string, ChainState>

    constructor (h: Linker, chains: map<string, ChainState>)
      ensures this.h == h && this.chains == chains
    {
      this.h, this.chains := h, chains;
    }
  }

  predicate Named(rows: seq<AuditRow>, key: string) { exists i :: 0 <= i < |rows| && ChainKey(rows[i]) == key }

  lemma ProjectNonEmpty(rows: seq<AuditRow>, key: string)
    ensures Named(rows, key) <==> Project(rows, key) != []
  {
    if rows != [] {
      ProjectNonEmpty(rows[1..], key);
      if Named(rows, key) {
        var i :| 0 <= i < |rows| && ChainKey(rows[i]) == key;
        assert i > 0 ==> ChainKey(rows[1..][i - 1]) == key;
      }
      if Named(rows[1..], key) {
        var i :| 0 <= i < |rows[1..]| && ChainKey(rows[1..][i]) == key;
        assert ChainKey(rows[i + 1]) == key;
      }
    }
  }

  lemma {:induction false} ProjectExtend(rows: seq<AuditRow>, r: AuditRow, key: string)
    ensures Project(rows + [r], key) == Project(rows, key) + Project([r], key)
    ensures Project([r], key) == if ChainKey(r) == key then [ContentOf(r)] else []
  {
    assert [r][1..] == [];
    if rows == [] {
      assert rows + [r] == [r];
    } else {
      assert (rows + [r])[1..] == rows[1..] + [r];
      ProjectExtend(rows[1..], r, key);
    }
  }

  lemma DaysExtend(cs: seq<Content>, c: Content)
    ensures DaysOf(cs + [c]) == DaysOf(cs) + {c.ts.day}
  {
    var all := cs + [c];
    assert all[|cs|] == c && forall i :: 0 <= i < |cs| ==> all[i] == cs[i];
  }

  function Prepared(s: ChainState, rows: seq<AuditRow>, key: string): ChainState {
    s.(partitions := s.partitions + DaysOf(Project(rows, key)))
  }

  function WithDay(s: ChainState, day: int): ChainState { s.(partitions := s.partitions + {day}) }

  lemma PreparedStep(s: ChainState, rows: seq<AuditRow>, i: nat, k: string)
    requires i < |rows|
    ensures Prepared(s, rows[..i + 1], k)
         == if ChainKey(rows[i]) == k then WithDay(Prepared(s, rows[..i], k), ContentOf(rows[i]).ts.day)
            else Prepared(s, rows[..i], k)
  {
    assert rows[..i + 1] == rows[..i] + [rows[i]];
    ProjectExtend(rows[..i], rows[i], k);
    DaysExtend(Project(rows[..i], k), ContentOf(rows[i]));
    assert ChainKey(rows[i]) != k ==> Project(rows[..i], k) + [] == Project(rows[..i], k);
  }

  /** Makes the partitions a batch needs, before anything is inserted. */
  method EnsurePartitions(db: AuditDb, rows: seq<AuditRow>)
    requires forall i :: 0 <= i < |rows| ==> ChainKey(rows[i]) in db.chains
    modifies db
    ensures db.chains.Keys == old(db.chains.Keys)
    ensures forall k :: k in db.chains ==> db.chains[k] == Prepared(old(db.chains)[k], rows, k)
  {
    var i := 0;
    while i < |rows|
      invariant i <= |rows|
      invariant db.chains.Keys == old(db.chains.Keys)
      invariant forall k :: k in db.chains ==> db.chains[k] == Prepared(old(db.chains)[k], rows[..i], k)
    {
      var key := ChainKey(rows[i]);
      db.chains := db.chains[key := WithDay(db.chains[key], ContentOf(rows[i]).ts.day)];
      forall k | k in db.chains
        ensures db.chains[k] == Prepared(old(db.chains)[k], rows[..i + 1], k)
      {
        PreparedStep(old(db.chains)[k], rows, i, k);
      }
      i := i + 1;
    }
    assert rows[..i] == rows;
  }

  method SeedHeads(db: AuditDb, rows: seq<AuditRow>, heads: map<string, Option<Hash>>)
    returns (seeded: map<string, Option<Hash>>)
    requires forall i :: 0 <= i < |rows| ==> ChainKey(rows[i]) in db.chains
    ensures forall k :: Named(rows, k) ==> k in seeded && seeded[k] == Seed(db.chains[k]).head
    ensures forall k :: k in seeded && !Named(rows, k) ==> k in heads && seeded[k] == heads[k]
    ensures heads.Keys <= seeded.Keys
  {
    seeded := heads;
    var i := 0;
    while i < |rows|
      invariant i <= |rows|
      invariant forall j :: 0 <= j < i ==>
        ChainKey(rows[j]) in seeded && seeded[ChainKey(rows[j])] == Seed(db.chains[ChainKey(rows[j])]).head
      invariant forall k :: k in seeded ==>
        Named(rows, k) || (k in heads && seeded[k] == heads[k])
      invariant heads.Keys <= seeded.Keys
    {
      var key := ChainKey(rows[i]);
      seeded := seeded[key := Seed(db.chains[key]).head];
      assert ChainKey(rows[i]) == key;
      i := i + 1;
    }
  }

  function Standing(s: ChainState, head: Option<Hash>): Appending { Appending(s.table, head, s.nextSeq) }

  /** Inserts `rows`, which may belong to many chains, in order. Each chain ends as if
      its own rows had been inserted alone; chains the batch does not name are not
      touched. The caller commits. */
  method WriteBatch(db: AuditDb, rows: seq<AuditRow>, heads: map<string, Option<Hash>>)
    returns (ok: bool, count: nat, newHeads: map<string, Option<Hash>>)
    modifies db
    ensures ok <==> forall i :: 0 <= i < |rows| ==> ChainKey(rows[i]) in old(db.chains)
    ensures !ok ==> db.chains == old(db.chains)
    ensures ok ==> count == |rows|
    ensures ok ==> db.chains.Keys == old(db.chains.Keys)
    ensures ok ==> forall k :: k in db.chains ==> db.chains[k] == Written(db.h, old(db.chains)[k], Project(rows, k))
    ensures ok ==> forall k :: k in db.chains ==> RowsOfBatch(rows, k, old(db.chains)[k].table, db.chains[k].table)
    ensures ok ==> forall i :: 0 <= i < |rows| ==>
      var k := ChainKey(rows[i]);
      k in newHeads && newHeads[k] == InsertAll(db.h, Seed(old(db.chains)[k]), Project(rows, k)).head
  {
    hide RowsOfBatch;
    var i := 0;
    while i < |rows|
      invariant i <= |rows|
      invariant forall j :: 0 <= j < i ==> ChainKey(rows[j]) in db.chains
    {
      if ChainKey(rows[i]) !in db.chains {
        return false, 0, heads;
      }
      i := i + 1;
    }
    ghost var before := db.chains;
    EnsurePartitions(db, rows);
    newHeads := SeedHeads(db, rows, heads);
    assert rows[0..] == rows;
    newHeads := InsertRows(db, rows, newHeads, before);
    assert forall j :: 0 <= j < |rows| ==> Named(rows, ChainKey(rows[j]));
    forall k | k in db.chains ensures RowsOfBatch(rows, k, before[k].table, db.chains[k].table) {
      WrittenSays(db.h, before[k], rows, k);
    }
    return true, |rows|, newHeads;
  }

  /** One chain, with the first `i` rows of the batch handled: what is still to come
      leads to what the whole batch leads to. */
  ghost predicate Underway(h: Linker, was: ChainState, now: ChainState, heads: map<string, Option<Hash>>,
                           rows: seq<AuditRow>, i: nat, k: string)
    requires i <= |rows|
  {
    && now.anchor == was.anchor
    && now.partitions == was.partitions + DaysOf(Project(rows, k))
    && if Named(rows, k) then
         && k in heads
         && InsertAll(h, Standing(now, heads[k]), Project(rows[i..], k)) == InsertAll(h, Seed(was), Project(rows, k))
       else now.table == was.table && now.nextSeq == was.nextSeq
  }

  function Stored(s: ChainState, a: Appending): ChainState { s.(table := a.rows, nextSeq := a.nextSeq) }

  lemma UnderwayStep(h: Linker, was: ChainState, now: ChainState, heads: map<string, Option<Hash>>,
                     rows: seq<AuditRow>, i: nat, k: string, head: Option<Hash>)
    requires i < |rows| && Underway(h, was, now, heads, rows, i, k)
    ensures k != ChainKey(rows[i]) ==> Underway(h, was, now, heads[ChainKey(rows[i]) := head], rows, i + 1, k)
    ensures k == ChainKey(rows[i]) ==>
      && Named(rows, k)
      && var next := InsertOne(h, Standing(now, heads[k]), ContentOf(rows[i]));
         head == next.head ==> Underway(h, was, Stored(now, next), heads[k := head], rows, i + 1, k)
  {
    assert rows[i..][1..] == rows[i + 1..];
    if k == ChainKey(rows[i]) {
      var rest := Project(rows[i + 1..], k);
      assert Project(rows[i..], k) == [ContentOf(rows[i])] + rest;
      assert ([ContentOf(rows[i])] + rest)[1..] == rest;
    }
  }

  lemma UnderwayDone(h: Linker, was: ChainState, now: ChainState, heads: map<string, Option<Hash>>, rows: seq<AuditRow>, k: string)
    requires Underway(h, was, now, heads, rows, |rows|, k)
    ensures now == Written(h, was, Project(rows, k))
    ensures Named(rows, k) ==> heads[k] == InsertAll(h, Seed(was), Project(rows, k)).head
  {
    assert rows[|rows|..] == [];
    ProjectNonEmpty(rows, k);
  }

  method InsertRows(db: AuditDb, rows: seq<AuditRow>, heads: map<string, Option<Hash>>,
                    ghost before: map<string, ChainState>)
    returns (newHeads: map<string, Option<Hash>>)
    requires db.chains.Keys == before.Keys
    requires forall i :: 0 <= i < |rows| ==> ChainKey(rows[i]) in before
    requires forall k :: k in before ==> Underway(db.h, before[k], db.chains[k], heads, rows, 0, k)
    modifies db
    ensures db.chains.Keys == before.Keys
    ensures forall k :: k in before ==> db.chains[k] == Written(db.h, before[k], Project(rows, k))
    ensures forall k :: k in before && Named(rows, k) ==>
      k in newHeads && newHeads[k] == InsertAll(db.h, Seed(before[k]), Project(rows, k)).head
  {
    hide Project, InsertAll, InsertOne, Seed, DaysOf, Written;
    newHeads := heads;
    var i := 0;
    while i < |rows|
      invariant i <= |rows|
      invariant db.chains.Keys == before.Keys
      invariant forall k :: k in before ==> Underway(db.h, before[k], db.chains[k], newHeads, rows, i, k)
    {
      var key := ChainKey(rows[i]);
      assert Underway(db.h, before[key], db.chains[key], newHeads, rows, i, key) && Named(rows, key);
      var s := db.chains[key];
      var next := InsertOne(db.h, Standing(s, newHeads[key]), ContentOf(rows[i]));
      forall k | k in before
        ensures Underway(db.h, before[k], if k == key then Stored(s, next) else db.chains[k],
                         newHeads[key := next.head], rows, i + 1, k)
      {
        UnderwayStep(db.h, before[k], db.chains[k], newHeads, rows, i, k, next.head);
      }
      db.chains := db.chains[key := Stored(s, next)];
      newHeads := newHeads[key := next.head];
      i := i + 1;
    }
    forall k | k in before
      ensures db.chains[k] == Written(db.h, before[k], Project(rows, k))
      ensures Named(rows, k) ==> k in newHeads && newHeads[k] == InsertAll(db.h, Seed(before[k]), Project(rows, k)).head
    {
      UnderwayDone(db.h, before[k], db.chains[k], newHeads, rows, k);
    }
  }
}
