/** Sliding windows in event time: of events, and of distinct values. */
module Windows {
  import opened Common
  import opened Rules

  // ---- windows of events ----

  function Evict(q: seq<real>, cutoff: real): seq<real> {
    if q == [] || q[0] >= cutoff then q else Evict(q[1..], cutoff)
  }

  predicate Nondecreasing(q: seq<real>) { forall i, j :: 0 <= i < j < |q| ==> q[i] <= q[j] }

  function NotBefore(q: seq<real>, cutoff: real): seq<real> {
    if q == [] then []
    else NotBefore(q[..|q| - 1], cutoff) + (if q[|q| - 1] >= cutoff then [q[|q| - 1]] else [])
  }

  lemma {:induction false} NotBeforeConcat(a: seq<real>, b: seq<real>, cutoff: real)
    ensures NotBefore(a + b, cutoff) == NotBefore(a, cutoff) + NotBefore(b, cutoff)
  {
    if b == [] {
      assert a + b == a;
    } else {
      assert (a + b)[..|a + b| - 1] == a + b[..|b| - 1];
      NotBeforeConcat(a, b[..|b| - 1], cutoff);
    }
  }

  lemma {:induction false} AllKept(q: seq<real>, cutoff: real)
    requires forall i :: 0 <= i < |q| ==> q[i] >= cutoff
    ensures NotBefore(q, cutoff) == q
  {
    if q != [] {
      AllKept(q[..|q| - 1], cutoff);
    }
  }

  lemma {:induction false} NoneKept(q: seq<real>, cutoff: real)
    requires forall i :: 0 <= i < |q| ==> q[i] < cutoff
    ensures NotBefore(q, cutoff) == []
  {
    if q != [] {
      NoneKept(q[..|q| - 1], cutoff);
    }
  }

  /** Evicting from the front of a window in time order drops exactly what is too old. */
  lemma {:induction false} EvictInOrder(q: seq<real>, cutoff: real)
    requires Nondecreasing(q)
    ensures Evict(q, cutoff) == NotBefore(q, cutoff)
    decreases q
  {
    if q == [] {
    } else if q[0] >= cutoff {
      AllKept(q, cutoff);
    } else {
      assert q == [q[0]] + q[1..];
      NotBeforeConcat([q[0]], q[1..], cutoff);
      NoneKept([q[0]], cutoff);
      EvictInOrder(q[1..], cutoff);
    }
  }

  /** Nothing too old stands behind something that is not. */
  predicate OldestFirst(q: seq<real>, cutoff: real) {
    forall i, j :: 0 <= i < j < |q| && q[i] >= cutoff ==> q[j] >= cutoff
  }

  lemma {:induction false} NotBeforeFewer(q: seq<real>, cutoff: real)
    ensures |NotBefore(q, cutoff)| <= |q|
    ensures |NotBefore(q, cutoff)| == |q| <==> forall i :: 0 <= i < |q| ==> q[i] >= cutoff
  {
    if q != [] {
      NotBeforeFewer(q[..|q| - 1], cutoff);
    }
  }

  /** Exactly when evicting from the front is right: an old entry behind a newer one stays,
      and is counted longer. */
  lemma {:induction false} EvictExactIff(q: seq<real>, cutoff: real)
    ensures Evict(q, cutoff) == NotBefore(q, cutoff) <==> OldestFirst(q, cutoff)
    decreases q
  {
    if q != [] && q[0] >= cutoff {
      NotBeforeFewer(q, cutoff);
      if forall i :: 0 <= i < |q| ==> q[i] >= cutoff {
        AllKept(q, cutoff);
      }
    } else if q != [] {
      var rest := q[1..];
      assert q == [q[0]] + rest;
      NotBeforeConcat([q[0]], rest, cutoff);
      NoneKept([q[0]], cutoff);
      EvictExactIff(rest, cutoff);
      OldestFirstBehind(q, cutoff);
    }
  }

  lemma OldestFirstBehind(q: seq<real>, cutoff: real)
    requires q != [] && q[0] < cutoff
    ensures OldestFirst(q, cutoff) <==> OldestFirst(q[1..], cutoff)
  {
    var rest := q[1..];
    assert forall i :: 0 <= i < |rest| ==> rest[i] == q[i + 1];
    if OldestFirst(rest, cutoff) {
      forall i, j | 0 <= i < j < |q| && q[i] >= cutoff ensures q[j] >= cutoff {
        assert rest[i - 1] >= cutoff && rest[j - 1] == q[j];
      }
    }
  }

  lemma {:induction false} EvictShrinks(q: seq<real>, cutoff: real)
    ensures |Evict(q, cutoff)| <= |q|
    ensures Evict(Evict(q, cutoff), cutoff) == Evict(q, cutoff)
    decreases q
  {
    if q != [] && q[0] < cutoff {
      EvictShrinks(q[1..], cutoff);
    }
  }

  type Counters = map<WindowKey, seq<real>>

  function Queue(w: Counters, k: WindowKey): seq<real> { if k in w then w[k] else [] }

  /** One key's window is now `q`; every other is as it was. */
  ghost predicate OnlyQueue(was: Counters, now: Counters, k: WindowKey, q: seq<real>) {
    Queue(now, k) == q && forall j :: j != k ==> Queue(now, j) == Queue(was, j)
  }

  class SlidingWindows {
    var w: Counters

    constructor ()
      ensures w == map[]
    {
      w := map[];
    }

    method EvictFront(q: seq<real>, cutoff: real) returns (rest: seq<real>)
      ensures rest == Evict(q, cutoff)
    {
      rest := q;
      while rest != [] && rest[0] < cutoff
        invariant Evict(q, cutoff) == Evict(rest, cutoff)
      {
        rest := rest[1..];
      }
    }

    method AddAndCount(k: WindowKey, ts: real, window: nat) returns (n: nat)
      modifies this
      ensures OnlyQueue(old(w), w, k, Evict(Queue(old(w), k) + [ts], ts - window as real))
      ensures n == |Queue(w, k)|
    {
      var q := EvictFront((if k in w then w[k] else []) + [ts], ts - window as real);
      w := w[k := q];
      n := |q|;
    }

    method Count(k: WindowKey, ts: real, window: nat) returns (n: nat)
      modifies this
      ensures OnlyQueue(old(w), w, k, Evict(Queue(old(w), k), ts - window as real))
      ensures n == |Queue(w, k)|
    {
      if k !in w || w[k] == [] {
        return 0;
      }
      var q := EvictFront(w[k], ts - window as real);
      w := w[k := q];
      n := |q|;
    }

    method Reset(k: WindowKey)
      modifies this
      ensures OnlyQueue(old(w), w, k, [])
    {
      w := map j | j in w && j != k :: w[j];
    }
  }

  // ---- windows of distinct values ----

  type Seen = map<string, real>

  function EvictValues(seen: Seen, cutoff: real): Seen { map v | v in seen && seen[v] >= cutoff :: seen[v] }

  /** The latest time of a value stands for it. */
  function Touch(seen: Seen, value: string, ts: real): Seen {
    seen[value := if value in seen && seen[value] > ts then seen[value] else ts]
  }

  type Fanouts = map<WindowKey, Seen>

  function SeenBy(w: Fanouts, k: WindowKey): Seen { if k in w then w[k] else map[] }

  ghost predicate OnlySeen(was: Fanouts, now: Fanouts, k: WindowKey, seen: Seen) {
    SeenBy(now, k) == seen && forall j :: j != k ==> SeenBy(now, j) == SeenBy(was, j)
  }

  class DistinctWindows {
    var w: Fanouts

    constructor ()
      ensures w == map[]
    {
      w := map[];
    }

    method AddAndCount(k: WindowKey, value: string, ts: real, window: nat) returns (n: nat)
      modifies this
      ensures OnlySeen(old(w), w, k, EvictValues(Touch(SeenBy(old(w), k), value, ts), ts - window as real))
      ensures n == |SeenBy(w, k)|
    {
      var seen := Touch(if k in w then w[k] else map[], value, ts);
      seen := EvictValues(seen, ts - window as real);
      w := w[k := seen];
      n := |seen|;
    }

    method Values(k: WindowKey, ts: real, window: nat) returns (values: set<string>)
      modifies this
      ensures OnlySeen(old(w), w, k, EvictValues(SeenBy(old(w), k), ts - window as real))
      ensures values == SeenBy(w, k).Keys
    {
      if k !in w || |w[k]| == 0 {
        return {};
      }
      var seen := EvictValues(w[k], ts - window as real);
      w := w[k := seen];
      values := seen.Keys;
    }

    method Reset(k: WindowKey)
      modifies this
      ensures OnlySeen(old(w), w, k, map[])
    {
      w := map j | j in w && j != k :: w[j];
    }
  }
}
