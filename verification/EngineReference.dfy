/** What the engine should do, said without windows: keep every event, and at each one look
    back over all of them. The engine does the same. */
module EngineReference {
  import opened Common
  import opened Rules
  import opened Windows
  import opened Engine

  // ---- the reference ----

  datatype Hit = Hit(ts: real, value: string)

  /** A field's text, straight from the event; empty when there is none. */
  function Raw(e: Event, f: Field): string {
    if f.ByActor? then (if e.actor.Some? then e.actor.value else "")
    else if f.BySource? then (if e.sourceAddr.Some? then e.sourceAddr.value else "")
    else if e.tenant.Some? then e.tenant.value else ""
  }

  /** The rule is on and the event falls under the key: the field the rule groups by is the
      key's text and, within one tenant, the tenant is the key's. */
  predicate Keyed(r: Rule, k: WindowKey, e: Event) {
    && r.enabled && k.ruleId == r.id && k.key != "" && Raw(e, r.groupBy) == k.key
    && (r.scope == Everywhere <==> k.GlobalKey?) && (k.TenantKey? ==> e.tenant == k.tenant)
  }

  /** Category, and action and outcome where the rule names one, are the rule's. */
  predicate Fits(r: Rule, e: Event) {
    && e.category == Some(r.category)
    && (r.action.Some? ==> e.action == r.action) && (r.outcome.Some? ==> e.outcome == r.outcome)
  }

  /** The event is one the rule counts, under this key. */
  predicate Hits(r: Rule, k: WindowKey, e: Event) {
    Keyed(r, k, e) && Fits(r, e) && (r.distinct.Some? ==> Raw(e, r.distinct.value) != "")
  }

  function HitFor(r: Rule, e: Event): Hit {
    Hit(e.ts, if r.distinct.Some? then Raw(e, r.distinct.value) else "")
  }

  function HitsIn(r: Rule, k: WindowKey, evs: seq<Event>): seq<Hit> {
    if evs == [] then []
    else
      var e := evs[|evs| - 1];
      HitsIn(r, k, evs[..|evs| - 1]) + (if Hits(r, k, e) then [HitFor(r, e)] else [])
  }

  function Within(hits: seq<Hit>, from: real, to: real): seq<Hit> {
    if hits == [] then []
    else
      var h := hits[|hits| - 1];
      Within(hits[..|hits| - 1], from, to) + (if from <= h.ts <= to then [h] else [])
  }

  function ValuesOf(hits: seq<Hit>): set<string> { set i | 0 <= i < |hits| :: hits[i].value }

  function Measure(r: Rule, hits: seq<Hit>): Fired {
    if r.distinct.Some? then Fired(|ValuesOf(hits)|, ValuesOf(hits)) else Fired(|hits|, {})
  }

  /** The event at which the rule may fire: one it counts or, in a sequence rule, the one that
      seals the sequence. */
  predicate Decides(r: Rule, k: WindowKey, e: Event) {
    if r.thenAction.Some? && r.distinct.None? then
      Keyed(r, k, e) && !Fits(r, e) && e.category == Some(r.category) && e.action == r.thenAction
    else Hits(r, k, e)
  }

  /** The engine's own tests come to the same. */
  lemma MatchingAgrees(r: Rule, k: WindowKey, e: Event)
    ensures Concerns(r, k, e) <==> Keyed(r, k, e)
    ensures r.MatchesPrimary(e) <==> Fits(r, e)
    ensures r.distinct.Some? ==>
      r.DistinctValue(e) == if Raw(e, r.distinct.value) == "" then None else Some(Raw(e, r.distinct.value))
    ensures Hits(r, k, e) <==> Concerns(r, k, e) && r.MatchesPrimary(e) && (r.IsFanout() ==> r.DistinctValue(e).Some?)
    ensures Decides(r, k, e) <==>
      if r.IsSequence() && !r.IsFanout() then Concerns(r, k, e) && !r.MatchesPrimary(e) && r.MatchesSeal(e) else Hits(r, k, e)
  {}

  /** What is counted at the last event: hits since the last fire, in the closed window that
      ends now. */
  function Counted(r: Rule, k: WindowKey, evs: seq<Event>, from: nat): seq<Hit>
    requires from <= |evs| && evs != []
  {
    var t := evs[|evs| - 1].ts;
    Within(HitsIn(r, k, evs[from..]), t - r.window as real, t)
  }

  predicate Fires(r: Rule, k: WindowKey, evs: seq<Event>)
    requires evs != []
    decreases |evs|, 0
  {
    var e, from := evs[|evs| - 1], FiredUpTo(r, k, evs[..|evs| - 1]);
    && Decides(r, k, e)
    && Measure(r, Counted(r, k, evs, from)).count >= r.threshold
    && (from > 0 ==> e.ts >= evs[from - 1].ts + r.cooldown as real)
  }

  /** How many events there are up to the last one that fired. */
  function FiredUpTo(r: Rule, k: WindowKey, evs: seq<Event>): (n: nat)
    ensures n <= |evs|
    decreases |evs|, 1
  {
    if evs == [] then 0
    else if Fires(r, k, evs) then |evs|
    else FiredUpTo(r, k, evs[..|evs| - 1])
  }

  function Reference(r: Rule, k: WindowKey, evs: seq<Event>): Option<Fired>
    requires evs != []
  {
    if Fires(r, k, evs) then Some(Measure(r, Counted(r, k, evs, FiredUpTo(r, k, evs[..|evs| - 1])))) else None
  }

  // ---- lists of hits ----

  function TimesOf(hits: seq<Hit>): seq<real> { seq(|hits|, i requires 0 <= i < |hits| => hits[i].ts) }

  function FromTime(hits: seq<Hit>, cutoff: real): seq<Hit> {
    if hits == [] then []
    else FromTime(hits[..|hits| - 1], cutoff) + (if hits[|hits| - 1].ts >= cutoff then [hits[|hits| - 1]] else [])
  }

  lemma {:induction false} TimesFrom(hits: seq<Hit>, cutoff: real)
    ensures TimesOf(FromTime(hits, cutoff)) == NotBefore(TimesOf(hits), cutoff)
  {
    if hits != [] {
      var n := |hits| - 1;
      TimesFrom(hits[..n], cutoff);
      assert TimesOf(hits)[..n] == TimesOf(hits[..n]);
    }
  }

  lemma {:induction false} FromTimeHas(hits: seq<Hit>, cutoff: real)
    ensures forall x :: x in FromTime(hits, cutoff) <==> x in hits && x.ts >= cutoff
  {
    if hits != [] {
      FromTimeHas(hits[..|hits| - 1], cutoff);
      assert hits == hits[..|hits| - 1] + [hits[|hits| - 1]];
    }
  }

  lemma {:induction false} FromTimeConcat(a: seq<Hit>, b: seq<Hit>, cutoff: real)
    ensures FromTime(a + b, cutoff) == FromTime(a, cutoff) + FromTime(b, cutoff)
  {
    if b == [] {
      assert a + b == a;
    } else {
      assert (a + b)[..|a + b| - 1] == a + b[..|b| - 1];
      FromTimeConcat(a, b[..|b| - 1], cutoff);
    }
  }

  lemma {:induction false} FromTimeTwice(hits: seq<Hit>, c: real, d: real)
    ensures FromTime(FromTime(hits, c), d) == FromTime(hits, if c <= d then d else c)
  {
    if hits != [] {
      var front, last := hits[..|hits| - 1], hits[|hits| - 1];
      FromTimeTwice(front, c, d);
      FromTimeConcat(FromTime(front, c), if last.ts >= c then [last] else [], d);
      assert [last][..0] == [];
    }
  }

  lemma FromTimeOne(hits: seq<Hit>, added: seq<Hit>, cutoff: real)
    requires |added| <= 1 && forall i :: 0 <= i < |added| ==> added[i].ts >= cutoff
    ensures FromTime(hits + added, cutoff) == FromTime(hits, cutoff) + added
  {
    hide FromTime;
    FromTimeConcat(hits, added, cutoff);
    OneFromTime(added, cutoff);
  }

  lemma OneFromTime(added: seq<Hit>, cutoff: real)
    requires |added| <= 1 && forall i :: 0 <= i < |added| ==> added[i].ts >= cutoff
    ensures FromTime(added, cutoff) == added
  {
    if added != [] {
      assert added == [added[0]] && added[..0] == [];
    }
  }

  /** A later cutoff keeps fewer; as many exactly when nothing lies between the two. */
  lemma {:induction false} FromTimeFewer(hits: seq<Hit>, c: real, f: real)
    requires c <= f
    ensures |FromTime(hits, f)| <= |FromTime(hits, c)|
    ensures FromTime(hits, f) == FromTime(hits, c) <==> forall x :: x in hits && x.ts >= c ==> x.ts >= f
  {
    if hits != [] {
      var front, last := hits[..|hits| - 1], hits[|hits| - 1];
      FromTimeFewer(front, c, f);
      assert hits == front + [last];
      var few, many := FromTime(front, f), FromTime(front, c);
      if last.ts >= f {
        assert (few + [last])[..|few|] == few && (many + [last])[..|many|] == many;
      } else {
        assert FromTime(hits, f) == few;
      }
      if last.ts < c {
        assert FromTime(hits, c) == many;
      }
    }
  }

  /** The latest time of every value. */
  function LatestOf(hits: seq<Hit>): Seen {
    if hits == [] then map[] else Touch(LatestOf(hits[..|hits| - 1]), hits[|hits| - 1].value, hits[|hits| - 1].ts)
  }

  lemma {:induction false} LatestFrom(hits: seq<Hit>, cutoff: real)
    ensures EvictValues(LatestOf(hits), cutoff) == LatestOf(FromTime(hits, cutoff))
  {
    if hits != [] {
      var front, last := hits[..|hits| - 1], hits[|hits| - 1];
      LatestFrom(front, cutoff);
      if last.ts >= cutoff {
        var kept := FromTime(front, cutoff);
        assert (kept + [last])[..|kept|] == kept;
        assert EvictValues(Touch(LatestOf(front), last.value, last.ts), cutoff)
            == Touch(EvictValues(LatestOf(front), cutoff), last.value, last.ts);
      } else {
        assert EvictValues(Touch(LatestOf(front), last.value, last.ts), cutoff) == EvictValues(LatestOf(front), cutoff);
        assert FromTime(hits, cutoff) == FromTime(front, cutoff);
      }
    }
  }

  lemma {:induction false} LatestMeans(hits: seq<Hit>)
    ensures forall x :: x in hits ==> x.value in LatestOf(hits) && x.ts <= LatestOf(hits)[x.value]
    ensures forall v :: v in LatestOf(hits) ==> exists x :: x in hits && x.value == v && x.ts == LatestOf(hits)[v]
  {
    if hits != [] {
      var front, last := hits[..|hits| - 1], hits[|hits| - 1];
      LatestMeans(front);
      assert hits == front + [last];
      forall v | v in LatestOf(hits) ensures exists x :: x in hits && x.value == v && x.ts == LatestOf(hits)[v] {
        if v == last.value && LatestOf(hits)[v] == last.ts {
          assert last in hits;
        } else {
          var x :| x in front && x.value == v && x.ts == LatestOf(front)[v];
          assert x in hits;
        }
      }
    }
  }

  lemma LatestValues(hits: seq<Hit>)
    ensures LatestOf(hits).Keys == ValuesOf(hits) && |LatestOf(hits)| == |ValuesOf(hits)|
  {
    LatestMeans(hits);
    forall v ensures v in LatestOf(hits).Keys <==> v in ValuesOf(hits) {
      if v in ValuesOf(hits) {
        var i :| 0 <= i < |hits| && hits[i].value == v;
        assert hits[i] in hits;
      }
    }
    assert |LatestOf(hits)| == |LatestOf(hits).Keys|;
  }

  // ---- one sweep of a window ----

  /** The queue a rule that counts events counts with. */
  function QueueOf(r: Rule, s: KeyState): seq<real> { if r.IsSequence() then s.primaries else s.window }

  /** The window is what these hits make. */
  predicate HoldsHits(r: Rule, s: KeyState, hits: seq<Hit>) {
    if r.IsFanout() then s.seen == LatestOf(hits) else QueueOf(r, s) == TimesOf(hits)
  }

  function Tally(r: Rule, s: KeyState): Fired {
    if r.IsFanout() then Fired(|s.seen|, s.seen.Keys) else Fired(|QueueOf(r, s)|, {})
  }

  lemma TallyMeasures(r: Rule, s: KeyState, hits: seq<Hit>)
    requires HoldsHits(r, s, hits)
    ensures Tally(r, s) == Measure(r, hits)
  {
    LatestValues(hits);
  }

  /** The event sweeps its key's window: it is counted, or it decides. */
  predicate Sweeps(r: Rule, k: WindowKey, e: Event) { Hits(r, k, e) || Decides(r, k, e) }

  function CutoffAt(r: Rule, e: Event): real { e.ts - r.window as real }

  function HitsAt(r: Rule, k: WindowKey, e: Event): (hits: seq<Hit>)
    ensures |hits| <= 1 && forall i :: 0 <= i < |hits| ==> hits[i].ts >= CutoffAt(r, e)
  {
    if Hits(r, k, e) then [HitFor(r, e)] else []
  }

  /** The state once the window is swept, before anything fires. */
  function Swept(r: Rule, k: WindowKey, e: Event, s: KeyState): KeyState {
    var c := CutoffAt(r, e);
    var ts := TimesOf(HitsAt(r, k, e));
    if r.IsFanout() then
      if Hits(r, k, e) then s.(seen := EvictValues(Touch(s.seen, HitFor(r, e).value, e.ts), c)) else s
    else if r.IsSequence() then s.(primaries := Evict(s.primaries + ts, c))
    else s.(window := Evict(s.window + ts, c))
  }

  /** What the engine does with an event of its key: it sweeps, counts and perhaps fires. */
  lemma StepSweeps(r: Rule, k: WindowKey, e: Event, s: KeyState)
    requires r.Valid() && Concerns(r, k, e)
    ensures StepKey(r, e, s) == if !Sweeps(r, k, e) then (s, None)
                                else if Decides(r, k, e) && Tally(r, Swept(r, k, e, s)).count >= r.threshold
                                then TryFire(r, Swept(r, k, e, s), e.ts, Tally(r, Swept(r, k, e, s)))
                                else (Swept(r, k, e, s), None)
  {
    assert TimesOf([]) == [];
    assert s.primaries + [] == s.primaries;
    assert Hits(r, k, e) ==> TimesOf(HitsAt(r, k, e)) == [e.ts];
  }

  /** Nothing too old stands behind something newer in the window, and no hit that had aged
      out of it is young enough for this event's. */
  predicate SteadyQueue(hits: seq<Hit>, floor: real, added: seq<Hit>, c: real) {
    && OldestFirst(TimesOf(FromTime(hits, floor) + added), c)
    && forall x :: x in hits && x.ts >= c ==> x.ts >= floor
  }

  /** A value that had aged out is young enough again only by this very event. */
  predicate SteadySeen(hits: seq<Hit>, floor: real, added: seq<Hit>, c: real) {
    forall x :: x in hits && c <= x.ts < floor ==>
      || (exists y :: y in hits && y.value == x.value && y.ts >= floor)
      || (exists z :: z in added && z.value == x.value && x.ts <= z.ts)
  }

  predicate Steady(r: Rule, hits: seq<Hit>, floor: real, added: seq<Hit>, c: real) {
    if r.IsFanout() then SteadySeen(hits, floor, added, c) else SteadyQueue(hits, floor, added, c)
  }

  lemma {:induction false} QueueSweepIff(hits: seq<Hit>, floor: real, added: seq<Hit>, c: real)
    requires |added| <= 1 && forall i :: 0 <= i < |added| ==> added[i].ts >= c
    ensures Evict(TimesOf(FromTime(hits, floor) + added), c) == TimesOf(FromTime(hits + added, c)) <==> SteadyQueue(hits, floor, added, c)
  {
    var live := FromTime(hits, floor) + added;
    var q := TimesOf(live);
    FromTimeOne(hits, added, c);
    FromTimeOne(FromTime(hits, floor), added, c);
    FromTimeTwice(hits, floor, c);
    TimesFrom(live, c);
    EvictExactIff(q, c);
    if c < floor {
      FromTimeHas(hits, floor);
      FromTimeFewer(hits, c, floor);
      assert forall i :: 0 <= i < |q| ==> q[i] >= c by {
        assert forall i :: 0 <= i < |live| ==> live[i] in live;
      }
      AllKept(q, c);
      assert Evict(q, c) == q;
      SameTimes(hits, floor, added, c);
    }
  }

  lemma SameTimes(hits: seq<Hit>, floor: real, added: seq<Hit>, c: real)
    requires c < floor
    ensures TimesOf(FromTime(hits, floor) + added) == TimesOf(FromTime(hits, c) + added) <==> FromTime(hits, floor) == FromTime(hits, c)
  {
    FromTimeFewer(hits, c, floor);
    var a, b := FromTime(hits, floor), FromTime(hits, c);
    if |a| == |b| {
      FromTimeSame(hits, c, floor);
    } else {
      assert |TimesOf(a + added)| != |TimesOf(b + added)|;
    }
  }

  lemma {:induction false} FromTimeSame(hits: seq<Hit>, c: real, f: real)
    requires c <= f && |FromTime(hits, f)| == |FromTime(hits, c)|
    ensures FromTime(hits, f) == FromTime(hits, c)
  {
    if hits != [] {
      FromTimeFewer(hits[..|hits| - 1], c, f);
      FromTimeSame(hits[..|hits| - 1], c, f);
    }
  }

  lemma SeenSweepIff(hits: seq<Hit>, floor: real, h: Hit, c: real)
    requires h.ts >= c
    ensures EvictValues(Touch(LatestOf(FromTime(hits, floor)), h.value, h.ts), c) == LatestOf(FromTime(hits + [h], c))
            <==> SteadySeen(hits, floor, [h], c)
  {
    hide LatestOf, FromTime, ValuesOf, SteadySeen;
    var live := FromTime(hits, floor);
    LatestMore(live, h);
    LatestFrom(live + [h], c);
    FromTimeOne(hits, [h], c);
    FromTimeOne(live, [h], c);
    FromTimeTwice(hits, floor, c);
    if c < floor {
      SeenReturnsIff(hits, floor, h, c);
    } else {
      SteadyForward(hits, floor, h, c);
    }
  }

  lemma LatestMore(hits: seq<Hit>, h: Hit)
    ensures LatestOf(hits + [h]) == Touch(LatestOf(hits), h.value, h.ts)
  {
    assert (hits + [h])[..|hits|] == hits;
  }

  lemma SteadyForward(hits: seq<Hit>, floor: real, h: Hit, c: real)
    requires c >= floor
    ensures SteadySeen(hits, floor, [h], c)
  {}

  lemma SeenReturnsIff(hits: seq<Hit>, floor: real, h: Hit, c: real)
    requires c < floor && h.ts >= c
    ensures LatestOf(FromTime(hits, floor) + [h]) == LatestOf(FromTime(hits, c) + [h]) <==> SteadySeen(hits, floor, [h], c)
  {
    hide LatestOf, FromTime;
    var few, many := FromTime(hits, floor) + [h], FromTime(hits, c) + [h];
    FromTimeHas(hits, floor);
    FromTimeHas(hits, c);
    LatestMeans(few);
    LatestMeans(many);
    if LatestOf(few) == LatestOf(many) {
      forall x | x in hits && c <= x.ts < floor
        ensures (exists y :: y in hits && y.value == x.value && y.ts >= floor) || (x.value == h.value && x.ts <= h.ts)
      {
        assert x in many;
        var y :| y in few && y.value == x.value && y.ts == LatestOf(few)[x.value];
      }
      assert h in [h];
    }
    if SteadySeen(hits, floor, [h], c) {
      forall v | v in LatestOf(many) ensures v in LatestOf(few) && LatestOf(few)[v] == LatestOf(many)[v] {
        var x :| x in many && x.value == v && x.ts == LatestOf(many)[v];
        SteadyLatest(hits, floor, h, c, x);
        assert x.value in LatestOf(few);
        var y :| y in few && y.value == v && y.ts == LatestOf(few)[v];
        assert y in many;
      }
      forall v | v in LatestOf(few) ensures v in LatestOf(many) {
        var y :| y in few && y.value == v && y.ts == LatestOf(few)[v];
        assert y in many;
      }
    }
  }

  /** Under the condition, whatever the longer window has, the shorter has as late. */
  lemma SteadyLatest(hits: seq<Hit>, floor: real, h: Hit, c: real, x: Hit)
    requires c < floor && SteadySeen(hits, floor, [h], c) && x in FromTime(hits, c) + [h]
    ensures var few := FromTime(hits, floor) + [h];
      x.value in LatestOf(few) && x.ts <= LatestOf(few)[x.value]
  {
    hide LatestOf, FromTime;
    var few := FromTime(hits, floor) + [h];
    FromTimeHas(hits, floor);
    FromTimeHas(hits, c);
    LatestMeans(few);
    if x !in few {
      if y :| y in hits && y.value == x.value && y.ts >= floor {
        assert y in few;
      } else {
        assert h in few;
      }
    }
  }

  /** A window that holds the hits it should holds, after the sweep, the hits it should, if
      and only if the condition on the hits is met. */
  lemma SweepIff(r: Rule, k: WindowKey, e: Event, s: KeyState, hits: seq<Hit>, floor: real)
    requires r.Valid() && Sweeps(r, k, e) && HoldsHits(r, s, FromTime(hits, floor))
    ensures HoldsHits(r, Swept(r, k, e, s), FromTime(hits + HitsAt(r, k, e), CutoffAt(r, e)))
            <==> Steady(r, hits, floor, HitsAt(r, k, e), CutoffAt(r, e))
  {
    hide FromTime, LatestOf, SteadyQueue, SteadySeen, Evict, EvictValues;
    var added, c := HitsAt(r, k, e), CutoffAt(r, e);
    if r.IsFanout() {
      SeenSweepIff(hits, floor, HitFor(r, e), c);
    } else {
      QueueSweepIff(hits, floor, added, c);
      assert TimesOf(FromTime(hits, floor)) + TimesOf(added) == TimesOf(FromTime(hits, floor) + added);
    }
  }

  // ---- what is later than now ----

  lemma {:induction false} WithinHas(hits: seq<Hit>, from: real, to: real)
    ensures forall x :: x in Within(hits, from, to) <==> x in hits && from <= x.ts <= to
    ensures |Within(hits, from, to)| <= |FromTime(hits, from)|
    ensures Within(hits, from, to) == FromTime(hits, from) <==> |Within(hits, from, to)| == |FromTime(hits, from)|
    ensures Within(hits, from, to) == FromTime(hits, from) <==> forall x :: x in hits && x.ts >= from ==> x.ts <= to
  {
    if hits != [] {
      var front, last := hits[..|hits| - 1], hits[|hits| - 1];
      WithinHas(front, from, to);
      assert hits == front + [last];
    }
  }

  /** No hit is later than the event that decides or, where values are counted, its value was
      hit in the window as well. */
  predicate Timely(r: Rule, hits: seq<Hit>, from: real, to: real) {
    forall x :: x in hits && x.ts >= from && x.ts > to ==>
      r.IsFanout() && exists y :: y in hits && y.value == x.value && from <= y.ts <= to
  }

  lemma ValuesHas(hits: seq<Hit>)
    ensures forall v :: v in ValuesOf(hits) <==> exists x :: x in hits && x.value == v
  {
    forall v ensures v in ValuesOf(hits) <==> exists x :: x in hits && x.value == v {
      if v in ValuesOf(hits) {
        var i :| 0 <= i < |hits| && hits[i].value == v;
        assert hits[i] in hits;
      }
      if x :| x in hits && x.value == v {
        var i :| 0 <= i < |hits| && hits[i] == x;
      }
    }
  }

  /** Counting from the cutoff on is counting the closed window exactly then. */
  lemma TimelyIff(r: Rule, hits: seq<Hit>, from: real, to: real)
    ensures Measure(r, Within(hits, from, to)) == Measure(r, FromTime(hits, from)) <==> Timely(r, hits, from, to)
  {
    hide Within, FromTime, ValuesOf;
    var some, all := Within(hits, from, to), FromTime(hits, from);
    WithinHas(hits, from, to);
    FromTimeHas(hits, from);
    ValuesHas(some);
    ValuesHas(all);
    if r.IsFanout() {
      if ValuesOf(some) == ValuesOf(all) {
        forall x | x in hits && x.ts >= from && x.ts > to ensures exists y :: y in hits && y.value == x.value && from <= y.ts <= to {
          assert x in all && x.value in ValuesOf(some);
          var y :| y in some && y.value == x.value;
        }
      }
      if Timely(r, hits, from, to) {
        forall v ensures v in ValuesOf(some) <==> v in ValuesOf(all) {
          if v in ValuesOf(all) {
            var x :| x in all && x.value == v;
            if x.ts > to {
              var y :| y in hits && y.value == x.value && from <= y.ts <= to;
              assert y in some;
            } else {
              assert x in some;
            }
          }
          if v in ValuesOf(some) {
            var x :| x in some && x.value == v;
            assert x in all;
          }
        }
        assert ValuesOf(some) == ValuesOf(all);
      }
    }
  }

  // ---- whole histories ----

  function RecentHits(r: Rule, k: WindowKey, evs: seq<Event>): seq<Hit> { HitsIn(r, k, evs[FiredUpTo(r, k, evs)..]) }

  /** The cutoff of the last sweep. */
  function Floor(r: Rule, k: WindowKey, evs: seq<Event>): Option<real> {
    if evs == [] then None
    else if Sweeps(r, k, evs[|evs| - 1]) then Some(CutoffAt(r, evs[|evs| - 1]))
    else Floor(r, k, evs[..|evs| - 1])
  }

  /** Disorder in a stream is harmless if at every event of the key no hit since the last fire
      is in the wrong place for the sweep and, where the rule decides, none is later than
      now. It can be checked event by event. */
  predicate HarmlessAt(r: Rule, k: WindowKey, front: seq<Event>, e: Event) {
    var hits, added, c := RecentHits(r, k, front), HitsAt(r, k, e), CutoffAt(r, e);
    && (Sweeps(r, k, e) && Floor(r, k, front).Some? ==> Steady(r, hits, Floor(r, k, front).value, added, c))
    && (Decides(r, k, e) ==> Timely(r, hits + added, c, e.ts))
  }

  predicate Harmless(r: Rule, k: WindowKey, evs: seq<Event>) {
    evs != [] ==> Harmless(r, k, evs[..|evs| - 1]) && HarmlessAt(r, k, evs[..|evs| - 1], evs[|evs| - 1])
  }

  function CoolUntil(r: Rule, evs: seq<Event>, n: nat): Option<real>
    requires n <= |evs|
  {
    if n > 0 then Some(evs[n - 1].ts + r.cooldown as real) else None
  }

  /** The engine's window holds the hits since the last fire, from the last cutoff on. */
  predicate HoldsRecent(r: Rule, s: KeyState, hits: seq<Hit>, floor: Option<real>) {
    if floor.Some? then HoldsHits(r, s, FromTime(hits, floor.value)) else hits == [] && HoldsHits(r, s, [])
  }

  predicate Stands(r: Rule, k: WindowKey, evs: seq<Event>) {
    var s := KeyFold(r, k, evs);
    && s.until == CoolUntil(r, evs, FiredUpTo(r, k, evs))
    && HoldsRecent(r, s, RecentHits(r, k, evs), Floor(r, k, evs))
  }

  /** After a sweep the engine counts the hits of the event's window and, where it decides, as
      the reference does. */
  predicate AgreesAt(r: Rule, k: WindowKey, front: seq<Event>, e: Event) {
    var swept, hits := Swept(r, k, e, KeyFold(r, k, front)), RecentHits(r, k, front) + HitsAt(r, k, e);
    && (Sweeps(r, k, e) ==> HoldsHits(r, swept, FromTime(hits, CutoffAt(r, e))))
    && (Decides(r, k, e) ==> Tally(r, swept) == Measure(r, Within(hits, CutoffAt(r, e), e.ts)))
  }

  lemma FirstSweep(r: Rule, k: WindowKey, e: Event, s: KeyState)
    requires r.Valid() && Sweeps(r, k, e) && HoldsHits(r, s, [])
    ensures HoldsHits(r, Swept(r, k, e, s), FromTime([] + HitsAt(r, k, e), CutoffAt(r, e)))
  {
    assert FromTime([], CutoffAt(r, e)) == [];
    SweepIff(r, k, e, s, [], CutoffAt(r, e));
    assert TimesOf([]) == [];
    FromTimeOne([], HitsAt(r, k, e), CutoffAt(r, e));
    assert |HitsAt(r, k, e)| <= 1;
  }

  /** One event: the engine agrees with the reference exactly when the disorder is harmless. */
  lemma AgreesIff(r: Rule, k: WindowKey, front: seq<Event>, e: Event)
    requires r.Valid() && Stands(r, k, front)
    ensures AgreesAt(r, k, front, e) <==> HarmlessAt(r, k, front, e)
  {
    hide HoldsHits, Steady, Timely, Swept, FromTime, RecentHits, Tally, Measure, Floor, KeyFold, FiredUpTo;
    var s, hits := KeyFold(r, k, front), RecentHits(r, k, front);
    var c, all := CutoffAt(r, e), RecentHits(r, k, front) + HitsAt(r, k, e);
    if Sweeps(r, k, e) {
      if Floor(r, k, front).Some? {
        SweepIff(r, k, e, s, hits, Floor(r, k, front).value);
      } else {
        FirstSweep(r, k, e, s);
      }
      TimelyIff(r, all, c, e.ts);
      if HoldsHits(r, Swept(r, k, e, s), FromTime(all, c)) {
        TallyMeasures(r, Swept(r, k, e, s), FromTime(all, c));
      }
    }
  }

  lemma RecentWith(r: Rule, k: WindowKey, front: seq<Event>, e: Event)
    ensures var n, evs := FiredUpTo(r, k, front), front + [e];
      HitsIn(r, k, evs[n..]) == RecentHits(r, k, front) + HitsAt(r, k, e)
  {
    hide Hits, HitFor, Fires, FiredUpTo, Keyed, Fits, Raw, Decides;
    var n, evs := FiredUpTo(r, k, front), front + [e];
    assert evs[n..] == front[n..] + [e];
    assert evs[n..][..|evs[n..]| - 1] == front[n..];
  }

  /** What the reference decides, from the hits since the last fire (this one included). */
  function Decision(r: Rule, hits: seq<Hit>, until: Option<real>, t: real): Option<Fired> {
    var m := Measure(r, Within(hits, t - r.window as real, t));
    if m.count >= r.threshold && (until.Some? ==> t >= until.value) then Some(m) else None
  }

  lemma ReferenceDecides(r: Rule, k: WindowKey, front: seq<Event>, e: Event)
    ensures Reference(r, k, front + [e])
         == if Decides(r, k, e)
            then Decision(r, RecentHits(r, k, front) + HitsAt(r, k, e), CoolUntil(r, front, FiredUpTo(r, k, front)), e.ts) else None
  {
    hide HitsIn, Within, Measure, Decides, FiredUpTo, RecentHits;
    var n, evs := FiredUpTo(r, k, front), front + [e];
    RecentWith(r, k, front, e);
    assert evs[..|front|] == front;
    assert n > 0 ==> evs[n - 1] == front[n - 1];
  }

  lemma FoldStep(r: Rule, k: WindowKey, front: seq<Event>, e: Event)
    ensures KeyFold(r, k, front + [e]) == if Concerns(r, k, e) then StepKey(r, e, KeyFold(r, k, front)).0 else KeyFold(r, k, front)
    ensures Floor(r, k, front + [e]) == if Sweeps(r, k, e) then Some(CutoffAt(r, e)) else Floor(r, k, front)
    ensures FiredUpTo(r, k, front + [e]) == if Reference(r, k, front + [e]).Some? then |front| + 1 else FiredUpTo(r, k, front)
  {
    hide HitsIn, Within, Measure, Decides, StepKey, Fires;
    assert (front + [e])[..|front|] == front;
  }

  lemma RecentAfter(r: Rule, k: WindowKey, front: seq<Event>, e: Event)
    ensures RecentHits(r, k, front + [e])
         == if Reference(r, k, front + [e]).Some? then [] else RecentHits(r, k, front) + HitsAt(r, k, e)
  {
    hide Reference, FiredUpTo, HitsAt;
    FoldStep(r, k, front, e);
    RecentWith(r, k, front, e);
    assert (front + [e])[|front| + 1..] == [];
  }

  /** At a harmless event the engine's step is the reference's decision. */
  lemma StepIsReference(r: Rule, k: WindowKey, front: seq<Event>, e: Event)
    requires r.Valid() && Stands(r, k, front) && HarmlessAt(r, k, front, e) && Concerns(r, k, e)
    ensures var (now, fired) := StepKey(r, e, KeyFold(r, k, front));
      && fired == Reference(r, k, front + [e])
      && now == if fired.Some? then KeyState([], [], map[], Some(e.ts + r.cooldown as real))
                else if Sweeps(r, k, e) then Swept(r, k, e, KeyFold(r, k, front)) else KeyFold(r, k, front)
  {
    hide HoldsRecent, HoldsHits, HarmlessAt, Swept, FromTime, Within, RecentHits, Tally, Measure, Floor, KeyFold, Reference, StepKey, FiredUpTo;
    AgreesIff(r, k, front, e);
    StepSweeps(r, k, e, KeyFold(r, k, front));
    ReferenceDecides(r, k, front, e);
    SweptCools(r, k, e, KeyFold(r, k, front));
  }

  lemma SweptCools(r: Rule, k: WindowKey, e: Event, s: KeyState)
    ensures Swept(r, k, e, s).until == s.until
  {}

  lemma NothingHeld(r: Rule, until: Option<real>, c: real)
    ensures HoldsHits(r, KeyState([], [], map[], until), FromTime([], c))
  {
    assert TimesOf([]) == [];
  }

  lemma StandsOn(r: Rule, k: WindowKey, front: seq<Event>, e: Event)
    requires r.Valid() && Stands(r, k, front) && HarmlessAt(r, k, front, e)
    ensures Stands(r, k, front + [e])
  {
    hide HoldsHits, HarmlessAt, Swept, FromTime, Within, RecentHits, Tally, Measure, Floor, KeyFold, Reference, StepKey, FiredUpTo, Decides, Hits;
    var evs, s := front + [e], KeyFold(r, k, front);
    FoldStep(r, k, front, e);
    RecentAfter(r, k, front, e);
    ReferenceDecides(r, k, front, e);
    CoolStays(r, front, e, FiredUpTo(r, k, front));
    if Concerns(r, k, e) {
      StepIsReference(r, k, front, e);
      AgreesIff(r, k, front, e);
      SweptCools(r, k, e, s);
      NothingHeld(r, Some(e.ts + r.cooldown as real), CutoffAt(r, e));
      if !Sweeps(r, k, e) {
        NoSweepNoHit(r, k, e);
      }
    } else {
      NoSweepNoHit(r, k, e);
    }
  }

  lemma NoSweepNoHit(r: Rule, k: WindowKey, e: Event)
    ensures !Sweeps(r, k, e) ==> !Decides(r, k, e) && forall hits: seq<Hit> :: hits + HitsAt(r, k, e) == hits
    ensures !Concerns(r, k, e) ==> !Sweeps(r, k, e)
  {}

  lemma CoolStays(r: Rule, front: seq<Event>, e: Event, n: nat)
    requires n <= |front|
    ensures CoolUntil(r, front + [e], n) == CoolUntil(r, front, n)
    ensures CoolUntil(r, front + [e], |front| + 1) == Some(e.ts + r.cooldown as real)
  {}

  lemma {:induction false} AlwaysStands(r: Rule, k: WindowKey, evs: seq<Event>)
    requires r.Valid() && Harmless(r, k, evs)
    ensures Stands(r, k, evs)
  {
    hide HarmlessAt;
    if evs != [] {
      var front, e := evs[..|evs| - 1], evs[|evs| - 1];
      assert front + [e] == evs;
      AlwaysStands(r, k, front);
      StandsOn(r, k, front, e);
    } else {
      assert TimesOf([]) == [];
    }
  }

  /** The whole stream: at every event the engine's window holds the hits of that event's
      window and counts what the reference counts, if and only if no disorder does harm. */
  lemma {:induction false} AgreesAlwaysIff(r: Rule, k: WindowKey, evs: seq<Event>)
    requires r.Valid()
    ensures Harmless(r, k, evs) <==> forall n :: 0 <= n < |evs| ==> AgreesAt(r, k, evs[..n], evs[n])
  {
    hide HarmlessAt, AgreesAt;
    if evs != [] {
      var front, e := evs[..|evs| - 1], evs[|evs| - 1];
      AgreesAlwaysIff(r, k, front);
      assert forall n :: 0 <= n < |front| ==> front[..n] == evs[..n] && front[n] == evs[n];
      if Harmless(r, k, front) {
        AlwaysStands(r, k, front);
        AgreesIff(r, k, front, e);
        assert Harmless(r, k, evs) <==> AgreesAt(r, k, front, e);
        if Harmless(r, k, evs) {
          forall n | 0 <= n < |evs| ensures AgreesAt(r, k, evs[..n], evs[n]) {
            if n < |front| {
              assert AgreesAt(r, k, front[..n], front[n]);
            }
          }
        } else {
          assert !AgreesAt(r, k, evs[..|front|], evs[|front|]);
        }
      } else {
        var n :| 0 <= n < |front| && !AgreesAt(r, k, front[..n], front[n]);
        assert !AgreesAt(r, k, evs[..n], evs[n]);
      }
    }
  }

  /** With no harmful disorder among the key's events: at every event of the key the engine
      fires exactly when the reference does, with the same count and the same values. */
  lemma EngineIsReference(r: Rule, k: WindowKey, evs: seq<Event>, e: Event)
    requires r.Valid() && Concerns(r, k, e) && Harmless(r, k, evs + [e])
    ensures Verdict(r, evs, e) == Reference(r, k, evs + [e])
  {
    hide Harmless;
    assert (evs + [e])[..|evs|] == evs && (evs + [e])[|evs|] == e;
    HarmlessFront(r, k, evs, e);
    AlwaysStands(r, k, evs);
    StepIsReference(r, k, evs, e);
  }

  lemma HarmlessFront(r: Rule, k: WindowKey, evs: seq<Event>, e: Event)
    ensures Harmless(r, k, evs + [e]) <==> Harmless(r, k, evs) && HarmlessAt(r, k, evs, e)
  {
    assert (evs + [e])[..|evs|] == evs;
  }

  // ---- when a verdict changes ----

  predicate VerdictAgrees(r: Rule, k: WindowKey, front: seq<Event>, e: Event) {
    Concerns(r, k, e) ==> Verdict(r, front, e) == Reference(r, k, front + [e])
  }

  function ReferenceTally(r: Rule, k: WindowKey, front: seq<Event>, e: Event): Fired {
    Measure(r, Within(RecentHits(r, k, front) + HitsAt(r, k, e), CutoffAt(r, e), e.ts))
  }

  function EngineTally(r: Rule, k: WindowKey, front: seq<Event>, e: Event): Fired {
    Tally(r, Swept(r, k, e, KeyFold(r, k, front)))
  }

  /** Disorder does not show at this event: the rule does not decide at it, or is cooling down,
      or both tallies are below the threshold, or they are the same. */
  predicate Unseen(r: Rule, k: WindowKey, front: seq<Event>, e: Event) {
    var until := CoolUntil(r, front, FiredUpTo(r, k, front));
    var mine, right := EngineTally(r, k, front, e), ReferenceTally(r, k, front, e);
    Decides(r, k, e) ==>
      || (until.Some? && e.ts < until.value)
      || (mine.count < r.threshold && right.count < r.threshold)
      || mine == right
  }

  predicate SameCooldown(r: Rule, k: WindowKey, evs: seq<Event>) {
    KeyFold(r, k, evs).until == CoolUntil(r, evs, FiredUpTo(r, k, evs))
  }

  lemma VerdictIff(r: Rule, k: WindowKey, front: seq<Event>, e: Event)
    requires r.Valid() && SameCooldown(r, k, front)
    ensures VerdictAgrees(r, k, front, e) <==> !Concerns(r, k, e) || Unseen(r, k, front, e)
  {
    hide Swept, Within, RecentHits, Tally, Measure, KeyFold, Reference, StepKey, FiredUpTo, Decides, Hits, HitsAt;
    if Concerns(r, k, e) {
      StepSweeps(r, k, e, KeyFold(r, k, front));
      SweptCools(r, k, e, KeyFold(r, k, front));
      ReferenceDecides(r, k, front, e);
    }
  }

  lemma CooldownOn(r: Rule, k: WindowKey, front: seq<Event>, e: Event)
    requires r.Valid() && SameCooldown(r, k, front) && VerdictAgrees(r, k, front, e)
    ensures SameCooldown(r, k, front + [e])
  {
    hide Swept, Within, RecentHits, Tally, Measure, KeyFold, Reference, StepKey, FiredUpTo, Decides, Hits, HitsAt;
    FoldStep(r, k, front, e);
    ReferenceDecides(r, k, front, e);
    CoolStays(r, front, e, FiredUpTo(r, k, front));
    if Concerns(r, k, e) {
      StepSweeps(r, k, e, KeyFold(r, k, front));
      SweptCools(r, k, e, KeyFold(r, k, front));
    } else {
      NoSweepNoHit(r, k, e);
    }
  }

  /** The whole stream, in any order, harmful or not: the engine gives the reference's verdict
      at every event if and only if the disorder shows at none. */
  lemma {:induction false} VerdictsAgreeIff(r: Rule, k: WindowKey, evs: seq<Event>)
    requires r.Valid()
    ensures (forall n :: 0 <= n < |evs| ==> VerdictAgrees(r, k, evs[..n], evs[n]))
            <==> forall n :: 0 <= n < |evs| ==> !Concerns(r, k, evs[n]) || Unseen(r, k, evs[..n], evs[n])
    ensures (forall n :: 0 <= n < |evs| ==> VerdictAgrees(r, k, evs[..n], evs[n])) ==> SameCooldown(r, k, evs)
  {
    hide VerdictAgrees, Unseen, Concerns, SameCooldown;
    if evs == [] {
      assert SameCooldown(r, k, []) by { ColdStart(r, k); }
    } else {
      var front, e := evs[..|evs| - 1], evs[|evs| - 1];
      VerdictsAgreeIff(r, k, front);
      assert front + [e] == evs && evs[..|front|] == front && evs[|front|] == e;
      assert forall n :: 0 <= n < |front| ==> front[..n] == evs[..n] && front[n] == evs[n];
      if forall n :: 0 <= n < |front| ==> VerdictAgrees(r, k, front[..n], front[n]) {
        VerdictIff(r, k, front, e);
        if VerdictAgrees(r, k, front, e) {
          CooldownOn(r, k, front, e);
        }
      } else {
        var n :| 0 <= n < |front| && !VerdictAgrees(r, k, front[..n], front[n]);
        assert !VerdictAgrees(r, k, evs[..n], evs[n]);
        var m :| 0 <= m < |front| && !(!Concerns(r, k, front[m]) || Unseen(r, k, front[..m], front[m]));
        assert !(!Concerns(r, k, evs[m]) || Unseen(r, k, evs[..m], evs[m]));
      }
    }
  }

  lemma ColdStart(r: Rule, k: WindowKey)
    ensures SameCooldown(r, k, [])
  {}

  // ---- time order ----

  predicate InOrder(r: Rule, k: WindowKey, evs: seq<Event>) {
    forall i, j :: 0 <= i < j < |evs| && Concerns(r, k, evs[i]) && Concerns(r, k, evs[j]) ==> evs[i].ts <= evs[j].ts
  }

  /** The key's hits came in order and are not later than what it has seen. */
  lemma {:induction false} OrderedHits(r: Rule, k: WindowKey, evs: seq<Event>, t: real)
    requires InOrder(r, k, evs) && forall i :: 0 <= i < |evs| && Concerns(r, k, evs[i]) ==> evs[i].ts <= t
    ensures Nondecreasing(TimesOf(HitsIn(r, k, evs))) && forall x :: x in HitsIn(r, k, evs) ==> x.ts <= t
  {
    if evs != [] {
      var front, e := evs[..|evs| - 1], evs[|evs| - 1];
      assert forall i :: 0 <= i < |front| ==> front[i] == evs[i];
      var before := HitsIn(r, k, front);
      if Hits(r, k, e) {
        OrderedHits(r, k, front, e.ts);
        forall y | y in TimesOf(before) ensures y <= e.ts {
          var i :| 0 <= i < |before| && TimesOf(before)[i] == y;
          assert before[i] in before;
        }
        InOrderWith(TimesOf(before), e.ts);
        assert TimesOf(before + [HitFor(r, e)]) == TimesOf(before) + [e.ts];
      } else {
        OrderedHits(r, k, front, t);
        assert before + [] == before;
      }
    }
  }

  lemma {:induction false} OrderedFloor(r: Rule, k: WindowKey, evs: seq<Event>, t: real)
    requires forall i :: 0 <= i < |evs| && Concerns(r, k, evs[i]) ==> evs[i].ts <= t
    ensures Floor(r, k, evs).Some? ==> Floor(r, k, evs).value <= t - r.window as real
  {
    if evs != [] {
      var front := evs[..|evs| - 1];
      assert forall i :: 0 <= i < |front| ==> front[i] == evs[i];
      OrderedFloor(r, k, front, t);
    }
  }

  lemma {:induction false} NotBeforeInOrder(q: seq<real>, c: real)
    requires Nondecreasing(q)
    ensures Nondecreasing(NotBefore(q, c))
    ensures forall x :: x in NotBefore(q, c) ==> x in q
  {
    if q != [] {
      var front, last := q[..|q| - 1], q[|q| - 1];
      NotBeforeInOrder(front, c);
      forall x | x in NotBefore(front, c) ensures x <= last {
        var j :| 0 <= j < |front| && front[j] == x;
        assert q[j] <= q[|front|];
      }
      InOrderWith(NotBefore(front, c), last);
    }
  }

  lemma InOrderWith(a: seq<real>, x: real)
    requires Nondecreasing(a) && forall y :: y in a ==> y <= x
    ensures Nondecreasing(a + [x])
  {
    forall i, j | 0 <= i < j < |a + [x]| ensures (a + [x])[i] <= (a + [x])[j] {
      if j == |a| {
        assert a[i] in a;
      }
    }
  }

  lemma SteadyInOrder(r: Rule, hits: seq<Hit>, floor: real, added: seq<Hit>, c: real, t: real)
    requires Nondecreasing(TimesOf(hits)) && (forall x :: x in hits ==> x.ts <= t) && floor <= c
    requires |added| <= 1 && forall i :: 0 <= i < |added| ==> added[i].ts == t
    ensures Steady(r, hits, floor, added, c)
  {
    var live := FromTime(hits, floor);
    TimesFrom(hits, floor);
    FromTimeHas(hits, floor);
    NotBeforeInOrder(TimesOf(hits), floor);
    if added == [] {
      assert live + added == live;
    } else {
      assert TimesOf(live + added) == TimesOf(live) + [t];
      forall y | y in TimesOf(live) ensures y <= t {
        var i :| 0 <= i < |live| && TimesOf(live)[i] == y;
        assert live[i] in live;
      }
      InOrderWith(TimesOf(live), t);
    }
    assert Nondecreasing(TimesOf(live + added));
  }

  lemma HarmlessInOrder(r: Rule, k: WindowKey, front: seq<Event>, e: Event)
    requires InOrder(r, k, front + [e])
    ensures HarmlessAt(r, k, front, e)
  {
    hide Decides, Steady;
    if Concerns(r, k, e) {
      var evs, n := front + [e], FiredUpTo(r, k, front);
      assert forall i :: 0 <= i < |front| ==> evs[i] == front[i];
      assert forall i :: 0 <= i < |front| && Concerns(r, k, front[i]) ==> front[i].ts <= e.ts by {
        assert evs[|front|] == e;
      }
      assert forall i :: 0 <= i < |front[n..]| ==> front[n..][i] == front[n + i];
      OrderedFloor(r, k, front, e.ts);
      OrderedHits(r, k, front[n..], e.ts);
      if Floor(r, k, front).Some? {
        SteadyInOrder(r, RecentHits(r, k, front), Floor(r, k, front).value, HitsAt(r, k, e), CutoffAt(r, e), e.ts);
      }
    } else {
      NoSweepNoHit(r, k, e);
    }
  }

  /** Events in time order do no harm. */
  lemma {:induction false} InOrderIsHarmless(r: Rule, k: WindowKey, evs: seq<Event>)
    requires InOrder(r, k, evs)
    ensures Harmless(r, k, evs)
  {
    hide HarmlessAt;
    if evs != [] {
      var front, e := evs[..|evs| - 1], evs[|evs| - 1];
      assert front + [e] == evs;
      assert forall i :: 0 <= i < |front| ==> front[i] == evs[i];
      InOrderIsHarmless(r, k, front);
      HarmlessInOrder(r, k, front, e);
    }
  }
}
