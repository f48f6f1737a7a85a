/** The order in which transactions take their locks, and why they never wait in a circle. */
module Locks {
  import opened Common

  // ---- text order, as sorting by code point has it ----

  predicate TextLess(a: string, b: string) {
    b != "" && (a == "" || a[0] < b[0] || (a[0] == b[0] && TextLess(a[1..], b[1..])))
  }

  lemma {:induction false} TextLessTransitive(a: string, b: string, c: string)
    requires TextLess(a, b) && TextLess(b, c)
    ensures TextLess(a, c)
  {
    if a != "" && a[0] == b[0] && b[0] == c[0] {
      TextLessTransitive(a[1..], b[1..], c[1..]);
    }
  }

  lemma {:induction false} TextLessIrreflexive(a: string)
    ensures !TextLess(a, a)
  {
    if a != "" {
      TextLessIrreflexive(a[1..]);
    }
  }

  lemma {:induction false} TextLessTotal(a: string, b: string)
    ensures TextLess(a, b) || a == b || TextLess(b, a)
  {
    if a != "" && b != "" && a[0] == b[0] {
      TextLessTotal(a[1..], b[1..]);
      assert a == [a[0]] + a[1..] && b == [b[0]] + b[1..];
    }
  }

  lemma {:induction false} CommonPrefix(p: string, a: string, b: string)
    ensures TextLess(p + a, p + b) <==> TextLess(a, b)
  {
    if p == "" {
      assert p + a == a && p + b == b;
    } else {
      assert (p + a)[1..] == p[1..] + a && (p + b)[1..] == p[1..] + b;
      CommonPrefix(p[1..], a, b);
    }
  }

  // ---- partition names ----

  datatype Date = Date(year: int, month: int, day: int)
  {
    /** A calendar date the names are made for: four-digit years. */
    predicate Valid() { 1000 <= year <= 9999 && 1 <= month <= 12 && 1 <= day <= 31 }
  }

  predicate DateLess(a: Date, b: Date) {
    a.year < b.year || (a.year == b.year && (a.month < b.month || (a.month == b.month && a.day < b.day)))
  }

  function DigitChar(n: int): char
    requires 0 <= n <= 9
  {
    "0123456789"[n]
  }

  lemma DigitOrder(m: int, n: int)
    requires 0 <= m <= 9 && 0 <= n <= 9
    ensures DigitChar(m) < DigitChar(n) <==> m < n
    ensures DigitChar(m) == DigitChar(n) <==> m == n
  {}

  function TwoDigits(n: int): string
    requires 0 <= n <= 99
  {
    [DigitChar(n / 10), DigitChar(n % 10)]
  }

  /** `YYYYMMDD`. */
  function DateText(d: Date): string
    requires d.Valid()
  {
    TwoDigits(d.year / 100) + (TwoDigits(d.year % 100) + (TwoDigits(d.month) + TwoDigits(d.day)))
  }

  function PartitionName(parent: string, d: Date): string
    requires d.Valid()
  {
    parent + ("_p" + DateText(d))
  }

  lemma TwoDigitsFirst(m: int, n: int, a: string, b: string)
    requires 0 <= m <= 99 && 0 <= n <= 99
    ensures TextLess(TwoDigits(m) + a, TwoDigits(n) + b) <==> m < n || (m == n && TextLess(a, b))
  {
    DigitOrder(m / 10, n / 10);
    DigitOrder(m % 10, n % 10);
    var s, t := TwoDigits(m) + a, TwoDigits(n) + b;
    assert s[0] == DigitChar(m / 10) && s[1] == DigitChar(m % 10) && s[2..] == a;
    assert t[0] == DigitChar(n / 10) && t[1] == DigitChar(n % 10) && t[2..] == b;
    assert s[1..][0] == s[1] && s[1..][1..] == s[2..] && t[1..][0] == t[1] && t[1..][1..] == t[2..];
    assert TextLess(s, t) <==> s[0] < t[0] || (s[0] == t[0] && TextLess(s[1..], t[1..]));
    assert TextLess(s[1..], t[1..]) <==> s[1] < t[1] || (s[1] == t[1] && TextLess(s[2..], t[2..]));
  }

  /** Sorting by name is sorting by day: retention's order is the writer's. */
  lemma NamesFollowDates(parent: string, a: Date, b: Date)
    requires a.Valid() && b.Valid()
    ensures TextLess(PartitionName(parent, a), PartitionName(parent, b)) <==> DateLess(a, b)
  {
    CommonPrefix(parent, "_p" + DateText(a), "_p" + DateText(b));
    CommonPrefix("_p", DateText(a), DateText(b));
    var a2, b2 := TwoDigits(a.month) + TwoDigits(a.day), TwoDigits(b.month) + TwoDigits(b.day);
    TwoDigitsFirst(a.year / 100, b.year / 100, TwoDigits(a.year % 100) + a2, TwoDigits(b.year % 100) + b2);
    TwoDigitsFirst(a.year % 100, b.year % 100, a2, b2);
    TwoDigitsFirst(a.month, b.month, TwoDigits(a.day), TwoDigits(b.day));
    TwoDigitsFirst(a.day, b.day, "", "");
    assert TwoDigits(a.day) + "" == TwoDigits(a.day) && TwoDigits(b.day) + "" == TwoDigits(b.day);
    TextLessIrreflexive("");
  }

  // ---- the one order of all locks ----

  /** A partition's lock or a chain's. Their names differ, so they never collide. */
  datatype Lock = PartitionLock(parent: string, date: Date) | ChainLock(key: string)

  predicate Before(a: Lock, b: Lock) {
    match (a, b)
    case (PartitionLock(p, d), PartitionLock(q, e)) => TextLess(p, q) || (p == q && DateLess(d, e))
    case (PartitionLock(_, _), ChainLock(_)) => true
    case (ChainLock(_), PartitionLock(_, _)) => false
    case (ChainLock(j), ChainLock(k)) => TextLess(j, k)
  }

  lemma BeforeTransitive(a: Lock, b: Lock, c: Lock)
    requires Before(a, b) && Before(b, c)
    ensures Before(a, c)
  {
    match (a, b, c) {
      case (PartitionLock(p, _), PartitionLock(q, _), PartitionLock(r, _)) =>
        if TextLess(p, q) && TextLess(q, r) {
          TextLessTransitive(p, q, r);
        }
      case (ChainLock(i), ChainLock(j), ChainLock(k)) => TextLessTransitive(i, j, k);
      case _ =>
    }
  }

  lemma BeforeIrreflexive(a: Lock)
    ensures !Before(a, a)
  {
    match a
    case PartitionLock(p, _) => TextLessIrreflexive(p);
    case ChainLock(k) => TextLessIrreflexive(k);
  }

  lemma BeforeTotal(a: Lock, b: Lock)
    ensures Before(a, b) || a == b || Before(b, a)
  {
    match (a, b) {
      case (PartitionLock(p, _), PartitionLock(q, _)) => TextLessTotal(p, q);
      case (ChainLock(j), ChainLock(k)) => TextLessTotal(j, k);
      case _ =>
    }
  }

  // ---- plans ----

  predicate Increasing(plan: seq<Lock>) { forall i, j :: 0 <= i < j < |plan| ==> Before(plan[i], plan[j]) }

  /** Adds a lock to a plan in its place, once. */
  function Insert(l: Lock, plan: seq<Lock>): seq<Lock> {
    if plan == [] then [l]
    else if l == plan[0] then plan
    else if Before(l, plan[0]) then [l] + plan
    else [plan[0]] + Insert(l, plan[1..])
  }

  function Plan(locks: seq<Lock>): seq<Lock> {
    if locks == [] then [] else Insert(locks[|locks| - 1], Plan(locks[..|locks| - 1]))
  }

  lemma {:induction false} InsertKeeps(l: Lock, plan: seq<Lock>)
    requires Increasing(plan)
    ensures Increasing(Insert(l, plan))
    ensures forall x :: x in Insert(l, plan) <==> x in plan || x == l
    decreases plan
  {
    if plan != [] && l != plan[0] {
      assert plan == [plan[0]] + plan[1..];
      if Before(l, plan[0]) {
        forall i | 0 <= i < |plan| ensures Before(l, plan[i]) {
          if i > 0 {
            BeforeTransitive(l, plan[0], plan[i]);
          }
        }
      } else {
        BeforeTotal(l, plan[0]);
        InsertKeeps(l, plan[1..]);
        var rest := Insert(l, plan[1..]);
        forall i | 0 <= i < |rest| ensures Before(plan[0], rest[i]) {
          assert rest[i] in rest;
          if rest[i] != l {
            var j :| 0 <= j < |plan[1..]| && plan[1..][j] == rest[i];
            assert plan[j + 1] == rest[i];
          }
        }
      }
    }
  }

  /** A plan holds each lock once, in the one order. */
  lemma {:induction false} PlanSorts(locks: seq<Lock>)
    ensures Increasing(Plan(locks))
    ensures forall x :: x in Plan(locks) <==> x in locks
  {
    if locks != [] {
      var front, last := locks[..|locks| - 1], locks[|locks| - 1];
      PlanSorts(front);
      InsertKeeps(last, Plan(front));
      assert locks == front + [last];
    }
  }

  /** Which locks a row makes a batch take. */
  datatype RowLocks = RowLocks(parent: string, date: Date, key: string)

  function PartitionsOf(rows: seq<RowLocks>): seq<Lock> {
    seq(|rows|, i requires 0 <= i < |rows| => PartitionLock(rows[i].parent, rows[i].date))
  }

  function ChainsOf(rows: seq<RowLocks>): seq<Lock> {
    seq(|rows|, i requires 0 <= i < |rows| => ChainLock(rows[i].key))
  }

  /** One batch call: all its partitions in order, then all its chains in order. */
  function BatchPlan(rows: seq<RowLocks>): seq<Lock> { Plan(PartitionsOf(rows)) + Plan(ChainsOf(rows)) }

  /** A retention run: the aged partitions of one parent, in the order of their names. */
  predicate IsRetentionPlan(parent: string, plan: seq<Lock>) {
    && (forall i :: 0 <= i < |plan| ==> plan[i].PartitionLock? && plan[i].parent == parent && plan[i].date.Valid())
    && forall i, j :: 0 <= i < j < |plan| ==> TextLess(PartitionName(parent, plan[i].date), PartitionName(parent, plan[j].date))
  }

  function RelinkPlan(key: string): seq<Lock> { [ChainLock(key)] }

  /** A batch takes each row's two locks and no other, each once, in the one order. */
  lemma BatchPlanIncreasing(rows: seq<RowLocks>)
    ensures Increasing(BatchPlan(rows))
    ensures forall r :: r in rows ==> PartitionLock(r.parent, r.date) in BatchPlan(rows) && ChainLock(r.key) in BatchPlan(rows)
    ensures forall l :: l in BatchPlan(rows) ==>
      exists r :: r in rows && (l == PartitionLock(r.parent, r.date) || l == ChainLock(r.key))
  {
    var a, b := Plan(PartitionsOf(rows)), Plan(ChainsOf(rows));
    PlanSorts(PartitionsOf(rows));
    PlanSorts(ChainsOf(rows));
    BatchLocks(rows);
    forall i, j | 0 <= i < j < |a + b| ensures Before((a + b)[i], (a + b)[j]) {
      if i < |a| <= j {
        assert a[i] in PartitionsOf(rows) && b[j - |a|] in ChainsOf(rows);
      }
    }
  }

  lemma BatchLocks(rows: seq<RowLocks>)
    ensures forall l :: l in PartitionsOf(rows) <==> exists r :: r in rows && l == PartitionLock(r.parent, r.date)
    ensures forall l :: l in ChainsOf(rows) <==> exists r :: r in rows && l == ChainLock(r.key)
  {
    forall r | r in rows ensures PartitionLock(r.parent, r.date) in PartitionsOf(rows) && ChainLock(r.key) in ChainsOf(rows) {
      var i :| 0 <= i < |rows| && rows[i] == r;
      assert PartitionsOf(rows)[i] == PartitionLock(r.parent, r.date) && ChainsOf(rows)[i] == ChainLock(r.key);
    }
  }

  lemma RetentionPlanIncreasing(parent: string, plan: seq<Lock>)
    requires IsRetentionPlan(parent, plan)
    ensures Increasing(plan)
  {
    forall i, j | 0 <= i < j < |plan| ensures Before(plan[i], plan[j]) {
      NamesFollowDates(parent, plan[i].date, plan[j].date);
    }
  }

  // ---- transactions that wait ----

  /** A transaction has taken the first `taken` locks of its plan and keeps them to the end. */
  datatype Tx = Tx(plan: seq<Lock>, taken: nat)

  predicate Holds(tx: Tx, l: Lock) { exists i :: 0 <= i < tx.taken && i < |tx.plan| && tx.plan[i] == l }

  predicate Finished(tx: Tx) { tx.taken >= |tx.plan| }

  /** `t` waits for a lock that `u` holds. */
  predicate Waits(txs: map<nat, Tx>, t: nat, u: nat) {
    t in txs && u in txs && t != u && !Finished(txs[t]) && Holds(txs[u], txs[t].plan[txs[t].taken])
  }

  predicate Ordered(txs: map<nat, Tx>) { forall t :: t in txs ==> Increasing(txs[t].plan) }

  predicate IsPath(txs: map<nat, Tx>, path: seq<nat>) {
    forall i :: 0 <= i < |path| - 1 ==> Waits(txs, path[i], path[i + 1])
  }

  lemma WaitingGoesUp(txs: map<nat, Tx>, t: nat, u: nat)
    requires Ordered(txs) && Waits(txs, t, u) && !Finished(txs[u])
    ensures Before(txs[t].plan[txs[t].taken], txs[u].plan[txs[u].taken])
  {}

  lemma {:induction false} PathGoesUp(txs: map<nat, Tx>, path: seq<nat>)
    requires Ordered(txs) && |path| > 1 && IsPath(txs, path)
    requires path[|path| - 1] in txs && !Finished(txs[path[|path| - 1]])
    ensures path[0] in txs && !Finished(txs[path[0]])
    ensures Before(txs[path[0]].plan[txs[path[0]].taken], txs[path[|path| - 1]].plan[txs[path[|path| - 1]].taken])
  {
    var n := |path| - 1;
    assert Waits(txs, path[n - 1], path[n]);
    WaitingGoesUp(txs, path[n - 1], path[n]);
    if n > 1 {
      PathGoesUp(txs, path[..n]);
      BeforeTransitive(txs[path[0]].plan[txs[path[0]].taken], txs[path[n - 1]].plan[txs[path[n - 1]].taken],
                       txs[path[n]].plan[txs[path[n]].taken]);
    }
  }

  /** No transaction waits for itself through others: the wait-for graph has no cycle. */
  lemma NoDeadlock(txs: map<nat, Tx>, path: seq<nat>)
    requires Ordered(txs) && |path| > 1 && IsPath(txs, path)
    ensures path[0] != path[|path| - 1]
  {
    if path[0] == path[|path| - 1] {
      assert Waits(txs, path[0], path[1]);
      PathGoesUp(txs, path);
      BeforeIrreflexive(txs[path[0]].plan[txs[path[0]].taken]);
    }
  }

  predicate Blocked(txs: map<nat, Tx>, t: nat) { exists u :: u in txs && Waits(txs, t, u) }

  /** The locks that blocked transactions wait for, strictly above a lock. */
  function WaitedAbove(txs: map<nat, Tx>, l: Lock): set<nat> {
    set t | t in txs && !Finished(txs[t]) && Before(l, txs[t].plan[txs[t].taken])
  }

  /** As long as a transaction is not done, some transaction can take its next lock or go on to
      its end: whoever waits for the last lock waits for one that is not waiting. */
  lemma {:induction false} SomeoneCanGo(txs: map<nat, Tx>, t: nat) returns (u: nat)
    requires Ordered(txs) && t in txs
    ensures u in txs && !Blocked(txs, u)
    decreases if Finished(txs[t]) then {} else WaitedAbove(txs, txs[t].plan[txs[t].taken])
  {
    u := t;
    if v :| v in txs && Waits(txs, t, v) {
      if Finished(txs[v]) {
        u := v;
      } else {
        WaitingGoesUp(txs, t, v);
        var l, m := txs[t].plan[txs[t].taken], txs[v].plan[txs[v].taken];
        BeforeIrreflexive(m);
        assert v in WaitedAbove(txs, l) && v !in WaitedAbove(txs, m);
        forall x | x in WaitedAbove(txs, m) ensures x in WaitedAbove(txs, l) {
          BeforeTransitive(l, m, txs[x].plan[txs[x].taken]);
        }
        u := SomeoneCanGo(txs, v);
      }
    }
  }

  // ---- transactions that break the order ----

  function NotIn(locks: seq<Lock>, held: seq<Lock>): seq<Lock> {
    if locks == [] then []
    else NotIn(locks[..|locks| - 1], held) + (if locks[|locks| - 1] in held then [] else [locks[|locks| - 1]])
  }

  /** Several batch calls in one transaction; a lock it has already is taken at once. */
  function SessionPlan(calls: seq<seq<RowLocks>>): seq<Lock> {
    if calls == [] then []
    else
      var before := SessionPlan(calls[..|calls| - 1]);
      before + NotIn(BatchPlan(calls[|calls| - 1]), before)
  }

  lemma OneRowPlan(r: RowLocks)
    ensures BatchPlan([r]) == [PartitionLock(r.parent, r.date), ChainLock(r.key)]
  {
    var p, c := PartitionLock(r.parent, r.date), ChainLock(r.key);
    assert PartitionsOf([r]) == [p] && ChainsOf([r]) == [c];
    assert [p][..0] == [] && [c][..0] == [];
    assert Plan([p]) == [p] && Plan([c]) == [c];
  }

  lemma NotInTwo(a: Lock, b: Lock, held: seq<Lock>)
    ensures NotIn([a, b], held) == (if a in held then [] else [a]) + (if b in held then [] else [b])
  {
    assert [a, b][..1] == [a] && [a][..0] == [];
    assert NotIn([a], held) == NotIn([], held) + (if a in held then [] else [a]);
  }

  /** Everyone holds a lock and everyone waits. */
  ghost predicate Deadlocked(txs: map<nat, Tx>) {
    txs != map[] && forall t :: t in txs ==> Blocked(txs, t)
  }

  lemma EachWaitsForTheOther(a: Tx, b: Tx)
    requires !Finished(a) && !Finished(b) && Holds(b, a.plan[a.taken]) && Holds(a, b.plan[b.taken])
    ensures Deadlocked(map[0 := a, 1 := b])
  {
    var txs := map[0 := a, 1 := b];
    assert Waits(txs, 0, 1) && Waits(txs, 1, 0);
  }

  /** Why a repair writes its marker in a second transaction: relinking and marking in one
      takes the chain before the partition, and meets a writer halfway. */
  lemma MarkerInSameTransactionDeadlocks(r: RowLocks)
    ensures var repair := Tx(RelinkPlan(r.key) + NotIn(BatchPlan([r]), RelinkPlan(r.key)), 1);
            var writer := Tx(BatchPlan([r]), 1);
            && !(exists l :: Holds(repair, l) && Holds(writer, l))
            && Deadlocked(map[0 := repair, 1 := writer])
  {
    OneRowPlan(r);
    var p, c := PartitionLock(r.parent, r.date), ChainLock(r.key);
    NotInTwo(p, c, [c]);
    assert p !in [c] && c in [c];
    assert [p] + [] == [p];
    assert RelinkPlan(r.key) + NotIn(BatchPlan([r]), RelinkPlan(r.key)) == [c] + [p];
    var repair, writer := Tx([c] + [p], 1), Tx([p, c], 1);
    assert repair.plan[0] == c && repair.plan[1] == p && writer.plan[0] == p;
    assert Holds(repair, c) && Holds(writer, p);
    EachWaitsForTheOther(repair, writer);
  }

  lemma {:induction false} NotInNothing(locks: seq<Lock>)
    ensures NotIn(locks, []) == locks
  {
    if locks != [] {
      NotInNothing(locks[..|locks| - 1]);
      assert locks == locks[..|locks| - 1] + [locks[|locks| - 1]];
    }
  }

  lemma SessionOfTwo(a: seq<RowLocks>, b: seq<RowLocks>)
    ensures SessionPlan([a, b]) == BatchPlan(a) + NotIn(BatchPlan(b), BatchPlan(a))
  {
    hide BatchPlan, NotIn;
    assert [a, b][..1] == [a] && [a][..0] == [];
    NotInNothing(BatchPlan(a));
    assert SessionPlan([a]) == [] + NotIn(BatchPlan(a), []);
    assert [] + BatchPlan(a) == BatchPlan(a);
  }

  lemma TwoCallPlan(r: RowLocks, s: RowLocks)
    requires r.parent == s.parent && r.key == s.key && r.date != s.date
    ensures SessionPlan([[r], [s]]) == [PartitionLock(r.parent, r.date), ChainLock(r.key), PartitionLock(s.parent, s.date)]
  {
    hide BatchPlan, SessionPlan, NotIn;
    var p, q, c := PartitionLock(r.parent, r.date), PartitionLock(s.parent, s.date), ChainLock(r.key);
    OneRowPlan(r);
    OneRowPlan(s);
    SessionOfTwo([r], [s]);
    NotInTwo(q, c, [p, c]);
    assert q !in [p, c] && c in [p, c];
    assert [q] + [] == [q] && [p, c] + [q] == [p, c, q];
  }

  /** A transaction that makes two batch calls on one chain (as a drain of several pages, or
      the consumer's drain and then its queue rows, can) takes a partition after a chain. A
      writer of the second call's day, with one call of its own, and the session can then
      wait for each other. */
  lemma TwoCallsDeadlock(r: RowLocks, s: RowLocks)
    requires r.parent == s.parent && r.key == s.key && r.date != s.date
    ensures var session, writer := Tx(SessionPlan([[r], [s]]), 2), Tx(BatchPlan([s]), 1);
            && !(exists l :: Holds(session, l) && Holds(writer, l))
            && Deadlocked(map[0 := session, 1 := writer])
    ensures !EachFits([[r], [s]])
  {
    hide EachFits, SessionPlan, BatchPlan, Deadlocked, Holds;
    TwoCallDoesNotFit(r, s);
    TwoCallPlan(r, s);
    OneRowPlan(s);
    var p, q, c := PartitionLock(r.parent, r.date), PartitionLock(s.parent, s.date), ChainLock(r.key);
    CrossedLocks(p, q, c);
  }

  lemma CrossedLocks(p: Lock, q: Lock, c: Lock)
    requires p != q && c != q
    ensures var session, writer := Tx([p, c, q], 2), Tx([q, c], 1);
      !(exists l :: Holds(session, l) && Holds(writer, l)) && Deadlocked(map[0 := session, 1 := writer])
  {
    var session, writer := Tx([p, c, q], 2), Tx([q, c], 1);
    assert session.plan[1] == c && session.plan[2] == q && writer.plan[0] == q && writer.plan[1] == c;
    assert Holds(session, c) && Holds(writer, q);
    EachWaitsForTheOther(session, writer);
  }

  // ---- exactly which plans are safe ----

  predicate NoRepeats(plan: seq<Lock>) { forall i, j :: 0 <= i < j < |plan| ==> plan[i] != plan[j] }

  /** No lock is held twice. */
  ghost predicate Exclusive(txs: map<nat, Tx>) {
    forall t, u, l :: t in txs && u in txs && t != u && Holds(txs[t], l) ==> !Holds(txs[u], l)
  }

  /** Others that follow the order cannot deadlock with this plan, at any point of it. */
  ghost predicate SafeAmongOrdered(plan: seq<Lock>) {
    forall txs: map<nat, Tx> ::
      Exclusive(txs) && 0 in txs && txs[0].plan == plan && (forall t :: t in txs && t != 0 ==> Increasing(txs[t].plan)) ==>
        !Deadlocked(txs)
  }

  lemma OrderedNeverDeadlocks(txs: map<nat, Tx>)
    requires Ordered(txs)
    ensures !Deadlocked(txs)
  {
    if txs != map[] {
      var t :| t in txs;
      var u := SomeoneCanGo(txs, t);
    }
  }

  lemma HeldBy(plan: seq<Lock>, n: nat, l: Lock)
    requires n <= |plan|
    ensures Holds(Tx(plan, n), l) <==> l in plan[..n]
  {}

  /** A plan that takes `plan[j]` after a later lock `plan[i]` meets a partner that takes the
      two in order. */
  lemma DisorderDeadlocks(plan: seq<Lock>, i: nat, j: nat)
    requires NoRepeats(plan) && i < j < |plan| && Before(plan[j], plan[i])
    ensures !SafeAmongOrdered(plan)
  {
    hide Before, Holds, Deadlocked;
    var a, b := Tx(plan, j), Tx([plan[j], plan[i]], 1);
    var txs: map<nat, Tx> := map[0 := a, 1 := b];
    assert plan[i] in plan[..j] && b.plan[..1] == [plan[j]];
    HeldBy(plan, j, plan[i]);
    HeldBy(b.plan, 1, plan[j]);
    EachWaitsForTheOther(a, b);
    assert Exclusive(txs) by {
      forall l | Holds(b, l) ensures !Holds(a, l) {
        HeldBy(b.plan, 1, l);
        HeldBy(plan, j, l);
      }
    }
    assert txs[0].plan == plan && Increasing(b.plan);
  }

  /** The order is not only enough but needed: a plan cannot deadlock with transactions that
      follow the order if and only if it follows the order itself. */
  lemma SafeIffIncreasing(plan: seq<Lock>)
    requires NoRepeats(plan)
    ensures SafeAmongOrdered(plan) <==> Increasing(plan)
  {
    if Increasing(plan) {
      forall txs: map<nat, Tx> | Exclusive(txs) && 0 in txs && txs[0].plan == plan
                                 && (forall t :: t in txs && t != 0 ==> Increasing(txs[t].plan))
        ensures !Deadlocked(txs)
      {
        OrderedNeverDeadlocks(txs);
      }
    } else {
      var i, j :| 0 <= i < j < |plan| && !Before(plan[i], plan[j]);
      BeforeTotal(plan[i], plan[j]);
      DisorderDeadlocks(plan, i, j);
    }
  }

  function RowsIn(calls: seq<seq<RowLocks>>): seq<RowLocks> {
    if calls == [] then [] else RowsIn(calls[..|calls| - 1]) + calls[|calls| - 1]
  }

  /** Every partition the rows need was locked by earlier rows, unless there are none, and
      every chain they need was, or comes after all chains that were. */
  predicate FitsAfter(earlier: seq<RowLocks>, call: seq<RowLocks>) {
    && (earlier != [] ==> forall i :: 0 <= i < |call| ==> PartitionLock(call[i].parent, call[i].date) in PartitionsOf(earlier))
    && forall i, j :: 0 <= i < |call| && 0 <= j < |earlier| && ChainLock(call[i].key) !in ChainsOf(earlier) ==>
         TextLess(earlier[j].key, call[i].key)
  }

  /** What is checked before each call of a session. */
  predicate EachFits(calls: seq<seq<RowLocks>>) {
    forall n :: 0 <= n < |calls| ==> FitsAfter(RowsIn(calls[..n]), calls[n])
  }

  function LocksOf(rows: seq<RowLocks>): seq<Lock> { PartitionsOf(rows) + ChainsOf(rows) }

  lemma BatchPlanHolds(rows: seq<RowLocks>)
    ensures forall x :: x in BatchPlan(rows) <==> x in LocksOf(rows)
  {
    PlanSorts(PartitionsOf(rows));
    PlanSorts(ChainsOf(rows));
  }

  lemma LocksOfMore(a: seq<RowLocks>, b: seq<RowLocks>)
    ensures forall x :: x in LocksOf(a + b) <==> x in LocksOf(a) || x in LocksOf(b)
  {
    assert PartitionsOf(a + b) == PartitionsOf(a) + PartitionsOf(b);
    assert ChainsOf(a + b) == ChainsOf(a) + ChainsOf(b);
  }

  lemma {:induction false} NotInMembers(locks: seq<Lock>, held: seq<Lock>)
    ensures forall x :: x in NotIn(locks, held) <==> x in locks && x !in held
  {
    if locks != [] {
      NotInMembers(locks[..|locks| - 1], held);
      assert locks == locks[..|locks| - 1] + [locks[|locks| - 1]];
    }
  }

  lemma {:induction false} NotInIncreasing(locks: seq<Lock>, held: seq<Lock>)
    requires Increasing(locks)
    ensures Increasing(NotIn(locks, held))
  {
    hide Before;
    if locks != [] {
      var front, last := locks[..|locks| - 1], locks[|locks| - 1];
      assert locks == front + [last];
      IncreasingConcat(front, [last]);
      NotInIncreasing(front, held);
      NotInMembers(front, held);
      IncreasingConcat(NotIn(front, held), if last in held then [] else [last]);
    }
  }

  lemma NoLocks()
    ensures LocksOf([]) == []
  {
    assert PartitionsOf([]) == [] && ChainsOf([]) == [];
  }

  lemma {:induction false} SessionHolds(calls: seq<seq<RowLocks>>)
    ensures forall x :: x in SessionPlan(calls) <==> x in LocksOf(RowsIn(calls))
  {
    hide BatchPlan, NotIn, LocksOf;
    if calls == [] {
      NoLocks();
    } else {
      var front, last := calls[..|calls| - 1], calls[|calls| - 1];
      SessionHolds(front);
      BatchPlanHolds(last);
      NotInMembers(BatchPlan(last), SessionPlan(front));
      LocksOfMore(RowsIn(front), last);
    }
  }

  lemma IncreasingConcat(a: seq<Lock>, b: seq<Lock>)
    ensures Increasing(a + b) <==> Increasing(a) && Increasing(b) && forall x, y :: x in a && y in b ==> Before(x, y)
  {
    hide Before;
    if Increasing(a + b) {
      assert forall i :: 0 <= i < |a| ==> (a + b)[i] == a[i];
      assert forall i :: 0 <= i < |b| ==> (a + b)[|a| + i] == b[i];
      forall x, y | x in a && y in b ensures Before(x, y) {
        var i :| 0 <= i < |a| && a[i] == x;
        var j :| 0 <= j < |b| && b[j] == y;
        assert (a + b)[i] == x && (a + b)[|a| + j] == y;
      }
    }
  }

  /** The new locks of a call come after all earlier ones exactly when it fits. */
  lemma NewLocksAfterIff(earlier: seq<RowLocks>, call: seq<RowLocks>)
    ensures FitsAfter(earlier, call) <==>
            forall x, y :: x in LocksOf(earlier) && y in LocksOf(call) && y !in LocksOf(earlier) ==> Before(x, y)
  {
    hide TextLess;
    if FitsAfter(earlier, call) {
      forall x, y | x in LocksOf(earlier) && y in LocksOf(call) && y !in LocksOf(earlier) ensures Before(x, y) {
        FitsMeans(earlier, call, x, y);
      }
    } else if earlier != [] && exists i :: 0 <= i < |call| && PartitionLock(call[i].parent, call[i].date) !in PartitionsOf(earlier) {
      var i :| 0 <= i < |call| && PartitionLock(call[i].parent, call[i].date) !in PartitionsOf(earlier);
      var x, y := ChainLock(earlier[0].key), PartitionLock(call[i].parent, call[i].date);
      assert ChainsOf(earlier)[0] == x && PartitionsOf(call)[i] == y;
      assert !Before(x, y);
    } else {
      var i, j :| 0 <= i < |call| && 0 <= j < |earlier| && ChainLock(call[i].key) !in ChainsOf(earlier)
                  && !TextLess(earlier[j].key, call[i].key);
      var x, y := ChainLock(earlier[j].key), ChainLock(call[i].key);
      assert ChainsOf(earlier)[j] == x && ChainsOf(call)[i] == y;
      assert !Before(x, y);
    }
  }

  lemma PartitionsKnown(earlier: seq<RowLocks>, call: seq<RowLocks>)
    requires FitsAfter(earlier, call) && earlier != []
    ensures forall y :: y in PartitionsOf(call) ==> y in PartitionsOf(earlier)
  {
    forall y | y in PartitionsOf(call) ensures y in PartitionsOf(earlier) {
      var i :| 0 <= i < |call| && PartitionsOf(call)[i] == y;
    }
  }

  lemma FitsMeans(earlier: seq<RowLocks>, call: seq<RowLocks>, x: Lock, y: Lock)
    requires FitsAfter(earlier, call)
    requires x in LocksOf(earlier) && y in LocksOf(call) && y !in LocksOf(earlier)
    ensures Before(x, y)
  {
    hide TextLess;
    if earlier == [] {
      NoLocks();
    } else {
      PartitionsKnown(earlier, call);
      var i :| 0 <= i < |call| && ChainsOf(call)[i] == y;
      if x.ChainLock? {
        var j :| 0 <= j < |earlier| && ChainsOf(earlier)[j] == x;
      }
    }
  }

  lemma {:induction false} SessionIncreasingIff(calls: seq<seq<RowLocks>>)
    ensures Increasing(SessionPlan(calls)) <==> EachFits(calls)
  {
    hide BatchPlan, NotIn, LocksOf, FitsAfter, Before;
    if calls != [] {
      var front, last := calls[..|calls| - 1], calls[|calls| - 1];
      var before := SessionPlan(front);
      SessionIncreasingIff(front);
      SessionHolds(front);
      BatchPlanHolds(last);
      BatchPlanIncreasing(last);
      NotInMembers(BatchPlan(last), before);
      NotInIncreasing(BatchPlan(last), before);
      IncreasingConcat(before, NotIn(BatchPlan(last), before));
      NewLocksAfterIff(RowsIn(front), last);
      assert forall n :: 0 <= n < |front| ==> front[..n] == calls[..n] && front[n] == calls[n];
      assert EachFits(calls) <==> EachFits(front) && FitsAfter(RowsIn(front), last);
    }
  }

  lemma {:induction false} SessionHasNoRepeats(calls: seq<seq<RowLocks>>)
    ensures NoRepeats(SessionPlan(calls))
  {
    hide BatchPlan, Before;
    if calls != [] {
      var front, last := calls[..|calls| - 1], calls[|calls| - 1];
      var before, more := SessionPlan(front), NotIn(BatchPlan(last), SessionPlan(front));
      SessionHasNoRepeats(front);
      BatchPlanIncreasing(last);
      NotInMembers(BatchPlan(last), before);
      NotInIncreasing(BatchPlan(last), before);
      IncreasingNoRepeats(more);
      forall i, j | 0 <= i < j < |before + more| ensures (before + more)[i] != (before + more)[j] {
        if i < |before| <= j {
          assert (before + more)[j] in more && (before + more)[i] in before;
        }
      }
    }
  }

  lemma IncreasingNoRepeats(plan: seq<Lock>)
    requires Increasing(plan)
    ensures NoRepeats(plan)
  {
    forall i, j | 0 <= i < j < |plan| ensures plan[i] != plan[j] {
      BeforeIrreflexive(plan[i]);
    }
  }

  /** Exactly when several batch calls in one transaction cannot deadlock with transactions
      that make one: each call needs only partitions the earlier ones locked, and its new
      chains come after all earlier chains. */
  lemma SessionSafeIff(calls: seq<seq<RowLocks>>)
    ensures SafeAmongOrdered(SessionPlan(calls)) <==> EachFits(calls)
  {
    SessionHasNoRepeats(calls);
    SafeIffIncreasing(SessionPlan(calls));
    SessionIncreasingIff(calls);
  }

  predicate OfOneChain(parent: string, key: string, rows: seq<RowLocks>) {
    forall i :: 0 <= i < |rows| ==> rows[i].parent == parent && rows[i].key == key
  }

  function DatesOf(rows: seq<RowLocks>): set<Date> { set r | r in rows :: r.date }

  lemma OneChainFitsIff(parent: string, key: string, earlier: seq<RowLocks>, call: seq<RowLocks>)
    requires OfOneChain(parent, key, earlier) && OfOneChain(parent, key, call)
    ensures FitsAfter(earlier, call) <==> earlier == [] || DatesOf(call) <= DatesOf(earlier)
  {
    hide TextLess;
    if earlier != [] {
      assert ChainsOf(earlier)[0] == ChainLock(key);
      forall i | 0 <= i < |call|
        ensures PartitionLock(call[i].parent, call[i].date) in PartitionsOf(earlier) <==> call[i].date in DatesOf(earlier)
      {
        var l := PartitionLock(call[i].parent, call[i].date);
        if l in PartitionsOf(earlier) {
          var j :| 0 <= j < |earlier| && PartitionsOf(earlier)[j] == l;
          assert earlier[j] in earlier;
        }
        if call[i].date in DatesOf(earlier) {
          var r :| r in earlier && r.date == call[i].date;
          var j :| 0 <= j < |earlier| && earlier[j] == r;
          assert PartitionsOf(earlier)[j] == l;
        }
      }
      assert forall i :: 0 <= i < |call| ==> call[i].date in DatesOf(call) by {
        assert forall i :: 0 <= i < |call| ==> call[i] in call;
      }
    }
  }

  lemma {:induction false} RowsInOneChain(parent: string, key: string, calls: seq<seq<RowLocks>>)
    requires forall n :: 0 <= n < |calls| ==> OfOneChain(parent, key, calls[n])
    ensures OfOneChain(parent, key, RowsIn(calls))
  {
    if calls != [] {
      RowsInOneChain(parent, key, calls[..|calls| - 1]);
      assert OfOneChain(parent, key, calls[|calls| - 1]);
    }
  }

  /** A drain of one chain is safe exactly when each page's days are days of its earlier
      pages. */
  lemma OneChainSafeIff(parent: string, key: string, calls: seq<seq<RowLocks>>)
    requires forall n :: 0 <= n < |calls| ==> OfOneChain(parent, key, calls[n])
    ensures SafeAmongOrdered(SessionPlan(calls)) <==>
            forall n :: 0 <= n < |calls| ==> RowsIn(calls[..n]) == [] || DatesOf(calls[n]) <= DatesOf(RowsIn(calls[..n]))
  {
    hide SafeAmongOrdered, OfOneChain, DatesOf, FitsAfter;
    SessionSafeIff(calls);
    forall n | 0 <= n < |calls|
      ensures FitsAfter(RowsIn(calls[..n]), calls[n]) <==> RowsIn(calls[..n]) == [] || DatesOf(calls[n]) <= DatesOf(RowsIn(calls[..n]))
    {
      RowsInOneChain(parent, key, calls[..n]);
      OneChainFitsIff(parent, key, RowsIn(calls[..n]), calls[n]);
    }
  }

  lemma TwoCallDoesNotFit(r: RowLocks, s: RowLocks)
    requires r.date != s.date
    ensures !EachFits([[r], [s]])
  {
    var calls := [[r], [s]];
    assert calls[..1] == [[r]] && [[r]][..0] == [];
    assert RowsIn([[r]]) == [] + [r] && [] + [r] == [r];
    assert RowsIn(calls[..1]) == [r] && calls[1] == [s];
    assert PartitionsOf([r]) == [PartitionLock(r.parent, r.date)];
    assert [s][0] == s && PartitionLock(s.parent, s.date) !in PartitionsOf([r]);
    assert !FitsAfter([r], [s]);
  }
}
