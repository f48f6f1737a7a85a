/** What holds of the engine's incidents in whatever order events arrive. */
module EngineBounds {
  import opened Common
  import opened Rules
  import opened Windows
  import opened Engine
  import opened EngineReference

  /** The rule fires at the last of these events, under this key. */
  predicate FiresLast(r: Rule, k: WindowKey, evs: seq<Event>) {
    evs != [] && var e := evs[|evs| - 1];
                 Concerns(r, k, e) && StepKey(r, e, KeyFold(r, k, evs[..|evs| - 1])).1.Some?
  }

  // ---- spacing ----

  lemma StepCools(r: Rule, e: Event, s: KeyState)
    ensures var (now, fired) := StepKey(r, e, s);
      if fired.Some? then now.until == Some(e.ts + r.cooldown as real) && (s.until.Some? ==> s.until.value <= e.ts)
      else now.until == s.until
  {}

  lemma {:induction false} StaysCool(r: Rule, k: WindowKey, evs: seq<Event>, i: nat)
    requires i < |evs| && FiresLast(r, k, evs[..i + 1])
    ensures var s := KeyFold(r, k, evs); s.until.Some? && s.until.value >= evs[i].ts + r.cooldown as real
    decreases |evs|
  {
    var front, e := evs[..|evs| - 1], evs[|evs| - 1];
    StepCools(r, e, KeyFold(r, k, front));
    if i < |front| {
      assert front[..i + 1] == evs[..i + 1];
      StaysCool(r, k, front, i);
    } else {
      assert evs[..i + 1] == evs;
    }
  }

  /** Any two incidents of one key are at least a cooldown apart in event time, the later one
      later. */
  lemma IncidentsAreSpaced(r: Rule, k: WindowKey, evs: seq<Event>, i: nat, j: nat)
    requires i < j < |evs| && FiresLast(r, k, evs[..i + 1]) && FiresLast(r, k, evs[..j + 1])
    ensures evs[j].ts >= evs[i].ts + r.cooldown as real
  {
    var before := evs[..j];
    assert evs[..j + 1][..j] == before && before[..i + 1] == evs[..i + 1];
    StaysCool(r, k, before, i);
    StepCools(r, evs[j], KeyFold(r, k, before));
  }

  // ---- counts ----

  function FireCount(r: Rule, k: WindowKey, evs: seq<Event>): nat {
    if evs == [] then 0
    else FireCount(r, k, evs[..|evs| - 1]) + (if FiresLast(r, k, evs) then 1 else 0)
  }

  /** How many hits the key's state still holds. */
  function Holding(r: Rule, s: KeyState): nat {
    if r.IsFanout() then |s.seen| else |QueueOf(r, s)|
  }

  lemma TouchGrows(seen: Seen, value: string, ts: real, cutoff: real)
    ensures |EvictValues(Touch(seen, value, ts), cutoff)| <= |seen| + 1
  {
    var touched := Touch(seen, value, ts);
    assert touched.Keys == seen.Keys + {value};
    assert |touched.Keys| <= |seen.Keys| + 1;
    EvictedFewer(touched, cutoff);
  }

  lemma EvictedFewer(seen: Seen, cutoff: real)
    ensures |EvictValues(seen, cutoff)| <= |seen|
  {
    var now := EvictValues(seen, cutoff);
    assert now.Keys <= seen.Keys;
    SubsetSmaller(now.Keys, seen.Keys);
    assert |now| == |now.Keys| && |seen| == |seen.Keys|;
  }

  lemma {:induction false} SubsetSmaller(a: set<string>, b: set<string>)
    requires a <= b
    ensures |a| <= |b|
  {
    assert b == a + (b - a);
  }

  /** One event adds at most its own hit; firing gives up at least the threshold. */
  lemma StepPays(r: Rule, k: WindowKey, e: Event, s: KeyState)
    requires r.Valid() && Concerns(r, k, e)
    ensures var (now, fired) := StepKey(r, e, s);
      Holding(r, now) + (if fired.Some? then r.threshold else 0) <= Holding(r, s) + (if Hits(r, k, e) then 1 else 0)
  {
    var cutoff := e.ts - r.window as real;
    if r.IsFanout() {
      if Hits(r, k, e) {
        TouchGrows(s.seen, r.DistinctValue(e).value, e.ts, cutoff);
      }
    } else {
      EvictShrinks(QueueOf(r, s) + [e.ts], cutoff);
      EvictShrinks(QueueOf(r, s), cutoff);
    }
  }

  function Price(count: nat, each: int): int {
    if count == 0 then 0 else Price(count - 1, each) + each
  }

  lemma {:induction false} PriceIs(count: nat, each: int)
    ensures Price(count, each) == count * each
  {
    if count > 0 {
      PriceIs(count - 1, each);
      assert count * each == (count - 1) * each + each;
    }
  }

  lemma {:induction false} PaidFor(r: Rule, k: WindowKey, evs: seq<Event>)
    requires r.Valid()
    ensures Price(FireCount(r, k, evs), r.threshold) + Holding(r, KeyFold(r, k, evs)) <= |HitsIn(r, k, evs)|
  {
    if evs != [] {
      var front, e := evs[..|evs| - 1], evs[|evs| - 1];
      PaidFor(r, k, front);
      if Concerns(r, k, e) {
        StepPays(r, k, e, KeyFold(r, k, front));
      }
    }
  }

  /** Counted events are never counted twice: as many incidents as there are take at least
      a threshold of matching events each. */
  lemma IncidentsArePaidFor(r: Rule, k: WindowKey, evs: seq<Event>)
    requires r.Valid()
    ensures FireCount(r, k, evs) * r.threshold <= |HitsIn(r, k, evs)|
  {
    PaidFor(r, k, evs);
    PriceIs(FireCount(r, k, evs), r.threshold);
  }

  // ---- tenants ----

  function OfTenant(evs: seq<Event>, t: Option<string>): seq<Event> {
    if evs == [] then []
    else
      var e := evs[|evs| - 1];
      OfTenant(evs[..|evs| - 1], t) + (if e.tenant == t then [e] else [])
  }

  /** Everything one rule reports over these events. */
  function Output(r: Rule, evs: seq<Event>): seq<Incident> {
    if evs == [] then []
    else Output(r, evs[..|evs| - 1]) + Emitted(r, evs[..|evs| - 1], evs[|evs| - 1])
  }

  function ForTenant(incs: seq<Incident>, t: Option<string>): seq<Incident> {
    if incs == [] then []
    else
      var i := incs[|incs| - 1];
      ForTenant(incs[..|incs| - 1], t) + (if i.tenant == t then [i] else [])
  }

  lemma {:induction false} OtherTenantsUnseen(r: Rule, k: WindowKey, evs: seq<Event>, t: Option<string>)
    requires k.TenantKey? && k.tenant == t && r.scope == PerTenant
    ensures KeyFold(r, k, OfTenant(evs, t)) == KeyFold(r, k, evs)
  {
    if evs != [] {
      var front, e := evs[..|evs| - 1], evs[|evs| - 1];
      OtherTenantsUnseen(r, k, front, t);
      if e.tenant == t {
        assert (OfTenant(front, t) + [e])[..|OfTenant(front, t)|] == OfTenant(front, t);
      } else {
        assert OfTenant(evs, t) == OfTenant(front, t);
        assert !Concerns(r, k, e);
      }
    }
  }

  lemma ForTenantOne(incs: seq<Incident>, more: seq<Incident>, t: Option<string>)
    requires |more| <= 1
    ensures ForTenant(incs + more, t) == ForTenant(incs, t) + (if more != [] && more[0].tenant == t then more else [])
  {
    if more == [] {
      assert incs + more == incs;
    } else {
      assert (incs + more)[..|incs|] == incs && more == [more[0]];
    }
  }

  lemma EmittedSame(r: Rule, front: seq<Event>, e: Event, t: Option<string>)
    requires r.scope == PerTenant && e.tenant == t
    ensures Emitted(r, OfTenant(front, t), e) == Emitted(r, front, e)
  {
    if r.WindowKey(e).Some? {
      OtherTenantsUnseen(r, r.WindowKey(e).value, front, t);
    }
  }

  /** What a tenant-scoped rule reports for a tenant in any interleaving is what it reports
      over that tenant's events alone: no other tenant's events are in it. */
  lemma {:induction false} TenantsDoNotInterfere(r: Rule, evs: seq<Event>, t: Option<string>)
    requires r.scope == PerTenant
    ensures ForTenant(Output(r, evs), t) == Output(r, OfTenant(evs, t))
  {
    if evs != [] {
      var front, e := evs[..|evs| - 1], evs[|evs| - 1];
      TenantsDoNotInterfere(r, front, t);
      ForTenantOne(Output(r, front), Emitted(r, front, e), t);
      if e.tenant == t {
        EmittedSame(r, front, e, t);
        assert (OfTenant(front, t) + [e])[..|OfTenant(front, t)|] == OfTenant(front, t);
      } else {
        assert OfTenant(evs, t) == OfTenant(front, t);
      }
    }
  }

  lemma FirstHit(r: Rule, k: WindowKey, e: Event)
    requires !r.IsFanout() && !r.IsSequence() && r.threshold == 2 && Hits(r, k, e)
    ensures KeyFold(r, k, [e]) == KeyState([e.ts], [], map[], None)
    ensures Verdict(r, [], e) == None
  {
    assert [e][..0] == [];
    assert [] + [e.ts] == [e.ts];
    assert Evict([e.ts], e.ts - r.window as real) == [e.ts];
  }

  /** A global rule does count them together: two events of two tenants fire it, and neither
      tenant's alone would. */
  lemma GlobalRuleSeesAll(r: Rule, k: WindowKey, e1: Event, e2: Event)
    requires r.scope == Everywhere && r.threshold == 2 && !r.IsFanout() && !r.IsSequence()
    requires Hits(r, k, e1) && Hits(r, k, e2) && e1.ts == e2.ts && e1.tenant != e2.tenant
    ensures Verdict(r, [e1], e2) == Some(Fired(2, {}))
    ensures Verdict(r, OfTenant([e1], e2.tenant), e2) == None && Verdict(r, OfTenant([], e1.tenant), e1) == None
  {
    FirstHit(r, k, e1);
    FirstHit(r, k, e2);
    assert [e1][..0] == [];
    assert OfTenant([e1], e2.tenant) == [];
    assert Evict([e1.ts] + [e2.ts], e2.ts - r.window as real) == [e1.ts, e2.ts];
  }

  /** Out of time order the engine and the reference part: an old event does not age a newer
      one out of the window, so the two are counted together. */
  lemma OutOfOrderCounts(r: Rule, k: WindowKey, late: Event, early: Event)
    requires !r.IsFanout() && !r.IsSequence() && r.threshold == 2
    requires Hits(r, k, late) && Hits(r, k, early) && early.ts + r.window as real < late.ts
    ensures Verdict(r, [late], early) == Some(Fired(2, {}))
    ensures Reference(r, k, [late, early]) == None && !Harmless(r, k, [late, early])
  {
    hide Raw, Keyed, Fits, Hits, Harmless;
    MatchingAgrees(r, k, late);
    MatchingAgrees(r, k, early);
    FirstHit(r, k, late);
    var evs, h1, h2 := [late, early], HitFor(r, late), HitFor(r, early);
    var from, to := early.ts - r.window as real, early.ts;
    assert [late.ts] + [early.ts] == [late.ts, early.ts];
    assert Evict([late.ts, early.ts], from) == [late.ts, early.ts];
    assert evs[..1] == [late] && [late][..0] == [] && evs[0..] == evs && [late][0..] == [late];
    assert HitsIn(r, k, [late]) == [h1];
    WithinFew([h1], late.ts - r.window as real, late.ts);
    assert !Fires(r, k, [late]);
    assert FiredUpTo(r, k, [late]) == 0;
    assert HitsIn(r, k, evs) == [h1, h2];
    assert [h1, h2][..1] == [h1] && [h1][..0] == [];
    assert Within([h1], from, to) == [];
    assert Within([h1, h2], from, to) == [h2];
    assert !Fires(r, k, evs);
    assert [late] + [early] == evs;
    if Harmless(r, k, evs) {
      EngineIsReference(r, k, [late], early);
    }
  }

  lemma {:induction false} WithinFew(hits: seq<Hit>, from: real, to: real)
    ensures |Within(hits, from, to)| <= |hits|
  {
    if hits != [] {
      WithinFew(hits[..|hits| - 1], from, to);
    }
  }
}
