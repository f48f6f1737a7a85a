/** The rules engine: every event is counted by every rule, in that rule's window for the
    event's key; a count that reaches the threshold fires, unless the key is cooling down. */
module Engine {
  import opened Common
  import opened Rules
  import opened Windows

  /** Everything the engine keeps under one window key. */
  datatype KeyState = KeyState(window: seq<real>, primaries: seq<real>, seen: Seen, until: Option<real>)

  const IDLE := KeyState([], [], map[], None)

  datatype Fired = Fired(count: nat, values: set<string>)

  datatype Incident = Incident(ruleId: string, tenant: Option<string>, key: string, ts: real, fired: Fired)

  function RuleOf(k: WindowKey): string { k.ruleId }

  /** Firing starts a cooldown and empties the key's windows. */
  function TryFire(r: Rule, s: KeyState, ts: real, fired: Fired): (KeyState, Option<Fired>) {
    if s.until.Some? && ts < s.until.value then (s, None)
    else (KeyState([], [], map[], Some(ts + r.cooldown as real)), Some(fired))
  }

  function StepFanout(r: Rule, e: Event, s: KeyState): (KeyState, Option<Fired>) {
    if !r.MatchesPrimary(e) || r.DistinctValue(e).None? then (s, None)
    else
      var seen := EvictValues(Touch(s.seen, r.DistinctValue(e).value, e.ts), e.ts - r.window as real);
      var now := s.(seen := seen);
      if |seen| >= r.threshold then TryFire(r, now, e.ts, Fired(|seen|, seen.Keys)) else (now, None)
  }

  function StepSequence(r: Rule, e: Event, s: KeyState): (KeyState, Option<Fired>) {
    var cutoff := e.ts - r.window as real;
    if r.MatchesPrimary(e) then (s.(primaries := Evict(s.primaries + [e.ts], cutoff)), None)
    else if r.MatchesSeal(e) then
      var now := s.(primaries := Evict(s.primaries, cutoff));
      if |now.primaries| >= r.threshold then TryFire(r, now, e.ts, Fired(|now.primaries|, {})) else (now, None)
    else (s, None)
  }

  function StepVolume(r: Rule, e: Event, s: KeyState): (KeyState, Option<Fired>) {
    if !r.MatchesPrimary(e) then (s, None)
    else
      var now := s.(window := Evict(s.window + [e.ts], e.ts - r.window as real));
      if |now.window| >= r.threshold then TryFire(r, now, e.ts, Fired(|now.window|, {})) else (now, None)
  }

  /** What one rule does with an event of its key. */
  function StepKey(r: Rule, e: Event, s: KeyState): (KeyState, Option<Fired>) {
    if r.IsFanout() then StepFanout(r, e, s)
    else if r.IsSequence() then StepSequence(r, e, s)
    else StepVolume(r, e, s)
  }

  /** The event is the rule's, under this key. */
  predicate Concerns(r: Rule, k: WindowKey, e: Event) { r.enabled && r.WindowKey(e) == Some(k) }

  /** A key's state after all these events. */
  function KeyFold(r: Rule, k: WindowKey, evs: seq<Event>): KeyState {
    if evs == [] then IDLE
    else
      var s, e := KeyFold(r, k, evs[..|evs| - 1]), evs[|evs| - 1];
      if Concerns(r, k, e) then StepKey(r, e, s).0 else s
  }

  /** What one rule makes of one more event. */
  function Verdict(r: Rule, evs: seq<Event>, e: Event): Option<Fired> {
    if !r.enabled || r.WindowKey(e).None? then None
    else StepKey(r, e, KeyFold(r, r.WindowKey(e).value, evs)).1
  }

  /** A global incident belongs to no tenant. */
  function IncidentFor(r: Rule, e: Event, f: Fired): Incident
    requires r.KeyFor(e).Some?
  {
    Incident(r.id, if r.scope == Everywhere then None else e.tenant, r.KeyFor(e).value, e.ts, f)
  }

  function Emitted(r: Rule, evs: seq<Event>, e: Event): seq<Incident> {
    if Verdict(r, evs, e).Some? then [IncidentFor(r, e, Verdict(r, evs, e).value)] else []
  }

  function FeedOut(rules: seq<Rule>, evs: seq<Event>, e: Event): seq<Incident> {
    if rules == [] then [] else FeedOut(rules[..|rules| - 1], evs, e) + Emitted(rules[|rules| - 1], evs, e)
  }

  /** The incident is this rule's, at this event: its id, the event's time, the text of the field
      the rule groups by and, unless the rule looks across tenants, the event's tenant. */
  predicate Reports(r: Rule, e: Event, inc: Incident) {
    && inc.ruleId == r.id && inc.ts == e.ts && inc.key != ""
    && (r.groupBy.ByTenant? ==> e.tenant == Some(inc.key))
    && (r.groupBy.ByActor? ==> e.actor == Some(inc.key))
    && (r.groupBy.BySource? ==> e.sourceAddr == Some(inc.key))
    && inc.tenant == (if r.scope.Everywhere? then None else e.tenant)
  }

  /** Some rule reports it, with what it counted. */
  predicate Reported(rules: seq<Rule>, evs: seq<Event>, e: Event, inc: Incident) {
    exists i :: 0 <= i < |rules| && Reports(rules[i], e, inc) && Verdict(rules[i], evs, e) == Some(inc.fired)
  }

  /** The rule that fired has its incident. */
  predicate HasReport(r: Rule, evs: seq<Event>, e: Event, out: seq<Incident>) {
    Verdict(r, evs, e).Some? ==> exists inc :: inc in out && Reports(r, e, inc) && inc.fired == Verdict(r, evs, e).value
  }

  /** What comes out: only what rules report, and all of it, at most one for each rule. */
  predicate AllReported(rules: seq<Rule>, evs: seq<Event>, e: Event, out: seq<Incident>) {
    && |out| <= |rules| && (forall inc :: inc in out ==> Reported(rules, evs, e, inc))
    && forall i :: 0 <= i < |rules| ==> HasReport(rules[i], evs, e, out)
  }

  lemma EmittedReports(r: Rule, evs: seq<Event>, e: Event)
    ensures |Emitted(r, evs, e)| <= 1 && HasReport(r, evs, e, Emitted(r, evs, e))
    ensures forall inc :: inc in Emitted(r, evs, e) ==> Reports(r, e, inc) && Verdict(r, evs, e) == Some(inc.fired)
  {
    hide StepKey, KeyFold;
    if Verdict(r, evs, e).Some? {
      assert IncidentFor(r, e, Verdict(r, evs, e).value) in Emitted(r, evs, e);
    }
  }

  lemma {:induction false} OutReports(rules: seq<Rule>, evs: seq<Event>, e: Event)
    ensures AllReported(rules, evs, e, FeedOut(rules, evs, e))
  {
    hide StepKey, KeyFold, Verdict, Emitted, Reports;
    if rules != [] {
      var front, last := rules[..|rules| - 1], rules[|rules| - 1];
      var before, more := FeedOut(front, evs, e), Emitted(last, evs, e);
      OutReports(front, evs, e);
      EmittedReports(last, evs, e);
      assert forall i :: 0 <= i < |front| ==> front[i] == rules[i];
      forall inc | inc in FeedOut(rules, evs, e) ensures Reported(rules, evs, e, inc) {
        if inc in before {
          var i :| 0 <= i < |front| && Reports(front[i], e, inc) && Verdict(front[i], evs, e) == Some(inc.fired);
          assert Reports(rules[i], e, inc) && Verdict(rules[i], evs, e) == Some(inc.fired);
        } else {
          assert Reports(rules[|front|], e, inc);
        }
      }
      forall i | 0 <= i < |rules| ensures HasReport(rules[i], evs, e, before + more) {
        if i < |front| {
          assert HasReport(front[i], evs, e, before);
        }
      }
    }
  }

  predicate DistinctIds(rules: seq<Rule>) { forall i, j :: 0 <= i < j < |rules| ==> rules[i].id != rules[j].id }

  class RulesEngine {
    const rules: seq<Rule>
    const windows: SlidingWindows
    const primaries: SlidingWindows
    const fanout: DistinctWindows
    var cooldowns: map<WindowKey, real>
    ghost var history: seq<Event>

    ghost function View(k: WindowKey): KeyState
      reads this, windows, primaries, fanout
    {
      KeyState(Queue(windows.w, k), Queue(primaries.w, k), SeenBy(fanout.w, k),
               if k in cooldowns then Some(cooldowns[k]) else None)
    }

    /** The rule's keys are as these events leave them. */
    ghost predicate Settled(r: Rule, evs: seq<Event>)
      reads this, windows, primaries, fanout
    {
      forall k :: RuleOf(k) == r.id ==> View(k) == KeyFold(r, k, evs)
    }

    /** The windows, evicted and reset as they are, hold what the whole history says. */
    ghost predicate Valid()
      reads this, windows, primaries, fanout
    {
      windows != primaries && DistinctIds(rules) && forall i :: 0 <= i < |rules| ==> Settled(rules[i], history)
    }

    constructor (rules: seq<Rule>)
      requires DistinctIds(rules)
      ensures Valid() && this.rules == rules && history == [] && fresh(windows) && fresh(primaries) && fresh(fanout)
    {
      this.rules := rules;
      windows := new SlidingWindows();
      primaries := new SlidingWindows();
      fanout := new DistinctWindows();
      cooldowns, history := map[], [];
    }

    /** Only this key's state changes, to `s`. */
    twostate predicate OnlyKey(k: WindowKey, s: KeyState)
      reads this, windows, primaries, fanout
    {
      View(k) == s && forall j :: j != k ==> View(j) == old(View(j))
    }

    method Fire(r: Rule, e: Event, k: WindowKey, f: Fired) returns (inc: Option<Incident>)
      requires windows != primaries && r.KeyFor(e).Some?
      modifies this`cooldowns, windows, primaries, fanout
      ensures OnlyKey(k, TryFire(r, old(View(k)), e.ts, f).0)
      ensures inc == match TryFire(r, old(View(k)), e.ts, f).1 case None => None case Some(x) => Some(IncidentFor(r, e, x))
    {
      if k in cooldowns && e.ts < cooldowns[k] {
        return None;
      }
      cooldowns := cooldowns[k := e.ts + r.cooldown as real];
      windows.Reset(k);
      primaries.Reset(k);
      fanout.Reset(k);
      return Some(IncidentFor(r, e, f));
    }

    method EvalFanout(r: Rule, e: Event, k: WindowKey) returns (inc: Option<Incident>)
      requires windows != primaries && r.KeyFor(e).Some? && r.IsFanout()
      modifies this`cooldowns, windows, primaries, fanout
      ensures OnlyKey(k, StepFanout(r, e, old(View(k))).0)
      ensures inc == match StepFanout(r, e, old(View(k))).1 case None => None case Some(x) => Some(IncidentFor(r, e, x))
    {
      if !r.MatchesPrimary(e) {
        return None;
      }
      var value := r.DistinctValue(e);
      if value.None? {
        return None;
      }
      hide Touch, EvictValues;
      var n := fanout.AddAndCount(k, value.value, e.ts, r.window);
      if n >= r.threshold {
        EvictTwice(Touch(old(SeenBy(fanout.w, k)), value.value, e.ts), e.ts - r.window as real);
        var values := fanout.Values(k, e.ts, r.window);
        inc := Fire(r, e, k, Fired(n, values));
        return;
      }
      return None;
    }

    method EvalSequence(r: Rule, e: Event, k: WindowKey) returns (inc: Option<Incident>)
      requires windows != primaries && r.KeyFor(e).Some? && r.IsSequence()
      modifies this`cooldowns, windows, primaries, fanout
      ensures OnlyKey(k, StepSequence(r, e, old(View(k))).0)
      ensures inc == match StepSequence(r, e, old(View(k))).1 case None => None case Some(x) => Some(IncidentFor(r, e, x))
    {
      if r.MatchesPrimary(e) {
        var _ := primaries.AddAndCount(k, e.ts, r.window);
        return None;
      }
      if r.MatchesSeal(e) {
        var n := primaries.Count(k, e.ts, r.window);
        if n >= r.threshold {
          EvictShrinks(old(Queue(primaries.w, k)), e.ts - r.window as real);
          var again := primaries.Count(k, e.ts, r.window);
          inc := Fire(r, e, k, Fired(again, {}));
          return;
        }
      }
      return None;
    }

    method EvalVolume(r: Rule, e: Event, k: WindowKey) returns (inc: Option<Incident>)
      requires windows != primaries && r.KeyFor(e).Some?
      modifies this`cooldowns, windows, primaries, fanout
      ensures OnlyKey(k, StepVolume(r, e, old(View(k))).0)
      ensures inc == match StepVolume(r, e, old(View(k))).1 case None => None case Some(x) => Some(IncidentFor(r, e, x))
    {
      if !r.MatchesPrimary(e) {
        return None;
      }
      var n := windows.AddAndCount(k, e.ts, r.window);
      if n >= r.threshold {
        inc := Fire(r, e, k, Fired(n, {}));
        return;
      }
      return None;
    }

    method Eval(r: Rule, e: Event) returns (inc: Option<Incident>)
      requires windows != primaries
      modifies this`cooldowns, windows, primaries, fanout
      ensures r.WindowKey(e).None? ==> inc == None && forall j :: View(j) == old(View(j))
      ensures r.WindowKey(e).Some? ==>
        var k := r.WindowKey(e).value;
        && OnlyKey(k, StepKey(r, e, old(View(k))).0)
        && inc == match StepKey(r, e, old(View(k))).1 case None => None case Some(x) => Some(IncidentFor(r, e, x))
    {
      var k := r.WindowKey(e);
      if k.None? {
        return None;
      }
      if r.IsFanout() {
        inc := EvalFanout(r, e, k.value);
      } else if r.IsSequence() {
        inc := EvalSequence(r, e, k.value);
      } else {
        inc := EvalVolume(r, e, k.value);
      }
    }

    /** Evaluates one event against every rule. What comes out is what the whole history
        says each rule makes of it. */
    method Feed(e: Event) returns (out: seq<Incident>)
      requires Valid()
      modifies this, windows, primaries, fanout
      ensures Valid() && history == old(history) + [e]
      ensures out == FeedOut(rules, old(history), e)
      ensures AllReported(rules, old(history), e, out)
    {
      hide AllReported, TryFire, StepFanout, StepSequence, StepVolume;
      out := [];
      var i := 0;
      while i < |rules|
        invariant i <= |rules| && windows != primaries && history == old(history)
        invariant forall j :: 0 <= j < i ==> Settled(rules[j], history + [e])
        invariant forall j :: i <= j < |rules| ==> Settled(rules[j], history)
        invariant out == FeedOut(rules[..i], history, e)
      {
        label Before:
        var r := rules[i];
        var inc := None;
        if r.enabled {
          inc := Eval(r, e);
        }
        forall j | 0 <= j < |rules| && j != i ensures Settled(rules[j], if j < i then history + [e] else history) {
          assert old@Before(Settled(rules[j], if j < i then history + [e] else history));
          assert rules[j].id != r.id;
        }
        OneMore(r, history, e);
        assert rules[..i + 1][..i] == rules[..i];
        if inc.Some? {
          out := out + [inc.value];
        }
        i := i + 1;
      }
      assert rules[..i] == rules;
      OutReports(rules, history, e);
      history := history + [e];
    }
  }

  lemma EvictTwice(seen: Seen, cutoff: real)
    ensures EvictValues(EvictValues(seen, cutoff), cutoff) == EvictValues(seen, cutoff)
  {}

  lemma OneMore(r: Rule, evs: seq<Event>, e: Event)
    ensures forall k :: KeyFold(r, k, evs + [e])
                        == if Concerns(r, k, e) then StepKey(r, e, KeyFold(r, k, evs)).0 else KeyFold(r, k, evs)
  {
    assert (evs + [e])[..|evs|] == evs;
  }
}
