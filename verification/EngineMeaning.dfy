/** The engine in terms of raw event fields: what it ignores, and when it first fires. */
module EngineMeaning {
  import opened Common
  import opened Rules
  import opened Windows
  import opened Engine
  import opened EngineReference
  import EngineBounds

  // ---- what is ignored ----

  /** The events the rule counts or is decided by under this key: those of the key's group and
      tenant, with the rule's category and the action and outcome it names, or its seal. */
  function Relevant(r: Rule, k: WindowKey, evs: seq<Event>): seq<Event> {
    if evs == [] then []
    else Relevant(r, k, evs[..|evs| - 1]) + if Sweeps(r, k, evs[|evs| - 1]) then [evs[|evs| - 1]] else []
  }

  lemma {:induction false} NoiseLeavesNoTrace(r: Rule, k: WindowKey, evs: seq<Event>)
    requires r.Valid()
    ensures KeyFold(r, k, Relevant(r, k, evs)) == KeyFold(r, k, evs)
  {
    hide Sweeps, Swept, Tally, StepKey, TryFire;
    if evs != [] {
      var front, e := evs[..|evs| - 1], evs[|evs| - 1];
      var kept := Relevant(r, k, front);
      NoiseLeavesNoTrace(r, k, front);
      if Concerns(r, k, e) {
        StepSweeps(r, k, e, KeyFold(r, k, front));
      }
      if Sweeps(r, k, e) {
        assert (kept + [e])[..|kept|] == kept;
      } else {
        assert kept + [] == kept;
      }
    }
  }

  /** Taking out every event of another category, action, outcome, group or tenant changes no
      verdict on the rest, and such an event itself raises nothing. */
  lemma NoiseChangesNothing(r: Rule, k: WindowKey, evs: seq<Event>, e: Event)
    requires r.Valid() && Keyed(r, k, e)
    ensures Verdict(r, evs, e) == Verdict(r, Relevant(r, k, evs), e)
    ensures !Sweeps(r, k, e) ==> Verdict(r, evs, e) == None
  {
    hide Sweeps, Swept, Tally, StepKey, KeyFold, Raw;
    MatchingAgrees(r, k, e);
    NoiseLeavesNoTrace(r, k, evs);
    StepSweeps(r, k, e, KeyFold(r, k, evs));
  }

  // ---- the first incident ----

  lemma {:induction false} CountGrows(r: Rule, some: seq<Hit>, all: seq<Hit>)
    requires |some| <= |all| && forall x :: x in some ==> x in all
    ensures Measure(r, some).count <= Measure(r, all).count
  {
    ValuesHas(some);
    ValuesHas(all);
    EngineBounds.SubsetSmaller(ValuesOf(some), ValuesOf(all));
  }

  lemma WithinCounts(r: Rule, hits: seq<Hit>, from: real, to: real)
    ensures Measure(r, Within(hits, from, to)).count <= Measure(r, hits).count
  {
    WithinHas(hits, from, to);
    FromTimeHas(hits, from);
    EngineBounds.WithinFew(hits, from, to);
    CountGrows(r, Within(hits, from, to), hits);
  }

  lemma {:induction false} HitsGrow(r: Rule, k: WindowKey, evs: seq<Event>, n: nat)
    requires n <= |evs|
    ensures HitsIn(r, k, evs[..n]) <= HitsIn(r, k, evs)
    decreases |evs|
  {
    hide Hits, HitFor;
    if n == |evs| {
      assert evs[..n] == evs;
    } else {
      var front := evs[..|evs| - 1];
      HitsGrow(r, k, front, n);
      assert front[..n] == evs[..n];
    }
  }

  /** Below the threshold, or without a deciding event, nothing has fired. */
  lemma {:induction false} NothingYet(r: Rule, k: WindowKey, evs: seq<Event>)
    requires Measure(r, HitsIn(r, k, evs)).count < r.threshold || forall i :: 0 <= i < |evs| ==> !Decides(r, k, evs[i])
    ensures FiredUpTo(r, k, evs) == 0
    ensures evs != [] ==> Reference(r, k, evs) == None
  {
    hide Hits, HitFor, Measure, Within, Decides;
    if evs != [] {
      var front := evs[..|evs| - 1];
      HitsGrow(r, k, evs, |front|);
      CountGrows(r, HitsIn(r, k, front), HitsIn(r, k, evs));
      assert forall i :: 0 <= i < |front| ==> front[i] == evs[i];
      NothingYet(r, k, front);
      assert evs[0..] == evs;
      var t := evs[|evs| - 1].ts;
      WithinCounts(r, HitsIn(r, k, evs), t - r.window as real, t);
    }
  }

  lemma AllWithin(r: Rule, hits: seq<Hit>, from: real, to: real)
    requires forall x :: x in hits ==> from <= x.ts <= to
    ensures Within(hits, from, to) == hits
  {
    WithinHas(hits, from, to);
    AllFrom(hits, from);
  }

  lemma {:induction false} AllFrom(hits: seq<Hit>, from: real)
    requires forall x :: x in hits ==> x.ts >= from
    ensures FromTime(hits, from) == hits
  {
    if hits != [] {
      assert hits == hits[..|hits| - 1] + [hits[|hits| - 1]];
      AllFrom(hits[..|hits| - 1], from);
    }
  }

  /** The rule has fired at no event of the key so far. */
  predicate Silent(r: Rule, k: WindowKey, evs: seq<Event>) {
    forall n :: 0 <= n < |evs| && Keyed(r, k, evs[n]) ==> Verdict(r, evs[..n], evs[n]) == None
  }

  lemma SilentAt(r: Rule, k: WindowKey, evs: seq<Event>, n: nat)
    requires r.Valid() && InOrder(r, k, evs) && n < |evs| && Keyed(r, k, evs[n])
    requires Measure(r, HitsIn(r, k, evs)).count < r.threshold || forall i :: 0 <= i < |evs| ==> !Decides(r, k, evs[i])
    ensures Verdict(r, evs[..n], evs[n]) == None
  {
    hide Measure, Decides, Hits, HitFor, Verdict, Reference, Raw, HitsIn, Harmless, FiredUpTo;
    var some := evs[..n + 1];
    assert evs[..n] + [evs[n]] == some;
    HitsGrow(r, k, evs, n + 1);
    CountGrows(r, HitsIn(r, k, some), HitsIn(r, k, evs));
    assert forall i :: 0 <= i < |some| ==> some[i] == evs[i];
    NothingYet(r, k, some);
    InOrderIsHarmless(r, k, some);
    MatchingAgrees(r, k, evs[n]);
    EngineIsReference(r, k, evs[..n], evs[n]);
  }

  lemma SilentSoFar(r: Rule, k: WindowKey, evs: seq<Event>)
    requires r.Valid() && InOrder(r, k, evs)
    requires Measure(r, HitsIn(r, k, evs)).count < r.threshold || forall i :: 0 <= i < |evs| ==> !Decides(r, k, evs[i])
    ensures Silent(r, k, evs)
  {
    hide Measure, Decides, HitsIn, Verdict, Keyed, InOrder;
    forall n | 0 <= n < |evs| && Keyed(r, k, evs[n]) ensures Verdict(r, evs[..n], evs[n]) == None {
      SilentAt(r, k, evs, n);
    }
  }

  /** The first incident: over events in order, with noise of any kind between them, the engine
      is silent as long as fewer than the threshold fit the rule (or, in a sequence rule, until
      the seal), and fires at the event that reaches it (at the seal), if all that were counted
      are inside its window, with their number. Counted is what fits in category, action,
      outcome, group and tenant; distinct values where the rule counts those. */
  lemma FiresAtThreshold(r: Rule, k: WindowKey, evs: seq<Event>, e: Event)
    requires r.Valid() && InOrder(r, k, evs + [e]) && Decides(r, k, e)
    requires Measure(r, HitsIn(r, k, evs)).count < r.threshold || forall i :: 0 <= i < |evs| ==> !Decides(r, k, evs[i])
    requires forall x :: x in HitsIn(r, k, evs + [e]) ==> x.ts >= e.ts - r.window as real
    ensures Silent(r, k, evs)
    ensures var m := Measure(r, HitsIn(r, k, evs + [e]));
      Verdict(r, evs, e) == if m.count >= r.threshold then Some(m) else None
  {
    hide Measure, Hits, HitFor, Verdict, Raw, Silent, Within, Decides, HitsIn, Harmless, InOrder, FiredUpTo, Reference, HitsAt;
    var all := evs + [e];
    InOrderFront(r, k, evs, e);
    SilentSoFar(r, k, evs);
    NothingYet(r, k, evs);
    InOrderIsHarmless(r, k, all);
    DecidesIsKeyed(r, k, e);
    EngineIsReference(r, k, evs, e);
    ReferenceDecides(r, k, evs, e);
    RecentWith(r, k, evs, e);
    assert all[0..] == all;
    KeyedNotLater(r, k, evs, e);
    OrderedHits(r, k, all, e.ts);
    AllWithin(r, HitsIn(r, k, all), e.ts - r.window as real, e.ts);
  }

  lemma InOrderFront(r: Rule, k: WindowKey, evs: seq<Event>, e: Event)
    requires InOrder(r, k, evs + [e])
    ensures InOrder(r, k, evs)
  {
    assert forall i :: 0 <= i < |evs| ==> (evs + [e])[i] == evs[i];
  }

  lemma DecidesIsKeyed(r: Rule, k: WindowKey, e: Event)
    requires Decides(r, k, e)
    ensures Keyed(r, k, e) && Concerns(r, k, e)
  {
    MatchingAgrees(r, k, e);
  }

  lemma KeyedNotLater(r: Rule, k: WindowKey, evs: seq<Event>, e: Event)
    requires InOrder(r, k, evs + [e]) && Concerns(r, k, e)
    ensures var all := evs + [e]; forall i :: 0 <= i < |all| && Concerns(r, k, all[i]) ==> all[i].ts <= e.ts
  {
    var all := evs + [e];
    assert all[|evs|] == e;
  }
}
