/** Detection rules: which events a rule counts and under which key. */
module Rules {
  import opened Common

  /** An audit event as the engine reads it; a missing field is absent. */
  datatype Event = Event(ts: real, tenant: Option<string>, actor: Option<string>, sourceAddr: Option<string>,
                         category: Option<string>, action: Option<string>, outcome: Option<string>)

  datatype Field = ByTenant | ByActor | BySource

  datatype Scope = PerTenant | Everywhere

  datatype Rule = Rule(id: string, category: string, groupBy: Field, window: nat, threshold: int, action: Option<string>,
                       outcome: Option<string>, thenAction: Option<string>, cooldown: nat, enabled: bool, scope: Scope,
                       distinct: Option<Field>)
  {
    /** What the constructor refuses: counting distinct values of the grouping field, or in a
        sequence rule. */
    predicate Valid() {
      distinct.Some? ==> distinct.value != groupBy && thenAction.None?
    }

    predicate IsSequence() { thenAction.Some? }

    predicate IsFanout() { distinct.Some? }

    predicate MatchesPrimary(e: Event) {
      e.category == Some(category) && (action.None? || e.action == action) && (outcome.None? || e.outcome == outcome)
    }

    predicate MatchesSeal(e: Event) {
      IsSequence() && e.category == Some(category) && e.action == thenAction
    }

    function KeyFor(e: Event): Option<string> { Text(Get(e, groupBy)) }

    function DistinctValue(e: Event): Option<string> {
      if distinct.None? then None else Text(Get(e, distinct.value))
    }

    /** Where the rule counts this event: within one tenant, or across all of them. */
    function WindowKey(e: Event): Option<WindowKey> {
      match KeyFor(e)
      case None => None
      case Some(key) => Some(if scope == Everywhere then GlobalKey(id, key) else TenantKey(e.tenant, id, key))
    }
  }

  function Get(e: Event, f: Field): Option<string> {
    match f
    case ByTenant => e.tenant
    case ByActor => e.actor
    case BySource => e.sourceAddr
  }

  /** An empty text is as good as none. */
  function Text(v: Option<string>): Option<string> { if v == Some("") then None else v }

  datatype WindowKey = GlobalKey(ruleId: string, key: string)
                     | TenantKey(tenant: Option<string>, ruleId: string, key: string)
}
