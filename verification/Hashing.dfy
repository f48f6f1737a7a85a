/** The content of an audit row, its canonical bytes and its link hash. */
module Hashing {
  import opened Common
  import opened CanonicalJson

  datatype EventId = EventId(text: string)

  /** The columns of a row other than its key. `tenant` is present on the global chain
      only. */
  datatype Fields = Fields(
    category: int, action: string, outcome: int, actor: string, actorRoles: Option<string>,
    targetUid: Option<string>, targetName: Option<string>, targetType: Option<int>, detail: Option<string>,
    sourceIface: Option<string>, sourceAddr: Option<string>, requestId: Option<string>, tenant: Option<string>)

  const MICROS_PER_DAY := 86_400_000_000

  type DayMicros = m: int | 0 <= m < MICROS_PER_DAY

  /** A UTC timestamp: the day, counted from the epoch, and the microsecond in it. */
  datatype Instant = Instant(day: int, micros: DayMicros)

  function Epoch(t: Instant): int { t.day * MICROS_PER_DAY + t.micros }

  function InstantOf(micros: int): (t: Instant)
    ensures Epoch(t) == micros
  {
    Instant(micros / MICROS_PER_DAY, micros % MICROS_PER_DAY)
  }

  /** Everything about a row that is hashed. */
  datatype Content = Content(eventId: EventId, ts: Instant, fields: Fields)

  function Text(o: Option<string>): Scalar {
    match o
    case None => Null
    case Some(s) => Str(s)
  }

  function Number(o: Option<int>): Scalar {
    match o
    case None => Null
    case Some(n) => Int(n)
  }

  function RowFields(c: Content): seq<Scalar> {
    var f := c.fields;
    [Str(c.eventId.text), Int(Epoch(c.ts)), Int(f.category), Str(f.action), Int(f.outcome), Str(f.actor),
     Text(f.actorRoles), Text(f.targetUid), Text(f.targetName), Number(f.targetType), Text(f.detail),
     Text(f.sourceIface), Text(f.sourceAddr), Text(f.requestId), Text(f.tenant)]
  }

  function CanonicalRow(c: Content): seq<byte> { EncodeArray(RowFields(c)) }

  /** What is fed to the digest: the previous hash, if there is one, then the row. */
  function HashInput(prev: Option<Hash>, canon: seq<byte>): seq<byte> {
    (if prev.Some? then prev.value.bytes else []) + canon
  }

  function RowHash(sha: Digest, prev: Option<Hash>, c: Content): Hash {
    Hash(sha(HashInput(prev, CanonicalRow(c))))
  }

  /** How a row's hash comes from its link and its content. The chain's own reasoning
      uses nothing else of the hash, so it is done for every such function. */
  type Linker = (Option<Hash>, Content) -> Hash

  function ShaLinker(sha: Digest): Linker { (prev, c) => RowHash(sha, prev, c) }

  lemma EpochInjective(s: Instant, t: Instant)
    ensures Epoch(s) == Epoch(t) ==> s == t
  {}

  // ---- reading a row back ----

  function AsText(a: Scalar): Option<string> { if a.Str? then Some(a.s) else None }

  function AsNumber(a: Scalar): Option<int> { if a.Int? then Some(a.n) else None }

  predicate Textual(a: Scalar) { a.Str? || a.Null? }

  predicate Numeric(a: Scalar) { a.Int? || a.Null? }

  /** The row an array of fifteen scalars describes: event id, microseconds since the
      epoch, category, action, outcome, actor, roles, target (uid, name, type), detail,
      source (interface, address), request, tenant. */
  function RowAs(xs: seq<Scalar>): Option<Content> {
    if |xs| == 15 && xs[0].Str? && xs[1].Int? && xs[2].Int? && xs[3].Str? && xs[4].Int? && xs[5].Str?
       && Numeric(xs[9]) && forall i {:trigger xs[i]} :: 6 <= i < 15 && i != 9 ==> Textual(xs[i])
    then
      Some(Content(EventId(xs[0].s), InstantOf(xs[1].n),
                   Fields(category := xs[2].n, action := xs[3].s, outcome := xs[4].n, actor := xs[5].s,
                          actorRoles := AsText(xs[6]), targetUid := AsText(xs[7]), targetName := AsText(xs[8]),
                          targetType := AsNumber(xs[9]), detail := AsText(xs[10]), sourceIface := AsText(xs[11]),
                          sourceAddr := AsText(xs[12]), requestId := AsText(xs[13]), tenant := AsText(xs[14]))))
    else None
  }

  function ReadRow(t: seq<byte>): Option<Content> {
    var xs := ReadArray(t);
    if xs.None? then None else RowAs(xs.value)
  }

  /** A row's fields stand in the order a reader of the format expects, and an instant
      comes back from its microseconds. */
  lemma RowAsFields(c: Content)
    ensures RowAs(RowFields(c)) == Some(c)
  {
    EpochInjective(InstantOf(Epoch(c.ts)), c.ts);
  }

  /** Any JSON reader that knows the order of the columns gets the row back whole. */
  lemma RowReadsBack(c: Content)
    ensures ReadRow(CanonicalRow(c)) == Some(c)
  {
    ArrayReadsBack(RowFields(c));
    RowAsFields(c);
  }

  /** Equal canonical bytes, equal content. */
  lemma CanonicalRowInjective(c: Content, d: Content)
    requires CanonicalRow(c) == CanonicalRow(d)
    ensures c == d
  {
    RowReadsBack(c);
    RowReadsBack(d);
  }

  /** A link is absent or as long as a SHA-256 digest. */
  predicate WellSized(prev: Option<Hash>) { prev.Some? ==> |prev.value.bytes| == 32 }

  /** What is hashed is the link's own bytes and, right behind them, a readable row. */
  lemma InputReadsBack(p: Option<Hash>, c: Content)
    requires WellSized(p)
    ensures var t := HashInput(p, CanonicalRow(c));
            && (p.None? ==> ReadRow(t) == Some(c))
            && (p.Some? ==> |t| > 32 && t[..32] == p.value.bytes && ReadRow(t[32..]) == Some(c))
  {
    RowReadsBack(c);
    var t := HashInput(p, CanonicalRow(c));
    assert t[if p.Some? then 32 else 0..] == CanonicalRow(c);
  }

  /** "Previous hash, then canonical array" can be cut in one place only, although
      nothing separates the two and the first may be missing. */
  lemma HashInputUnambiguous(p: Option<Hash>, xs: seq<Scalar>, q: Option<Hash>, ys: seq<Scalar>)
    requires WellSized(p) && WellSized(q)
    requires HashInput(p, EncodeArray(xs)) == HashInput(q, EncodeArray(ys))
    ensures p == q && xs == ys
  {
    var t := HashInput(p, EncodeArray(xs));
    if p.Some? && q.None? {
      NoCanonicalSuffix(p.value.bytes, xs, ys);
      assert false;
    } else if p.None? && q.Some? {
      NoCanonicalSuffix(q.value.bytes, ys, xs);
      assert false;
    } else if p.Some? {
      assert p.value.bytes == t[..32] == q.value.bytes;
      assert EncodeArray(xs) == t[32..] == EncodeArray(ys);
    } else {
      assert [] + EncodeArray(xs) == EncodeArray(xs) && [] + EncodeArray(ys) == EncodeArray(ys);
    }
    EncodeArrayInjective(xs, ys);
  }

  /** The digest has no collision among the inputs in `inputs`. (No function into 32
      bytes is free of collisions on all inputs, so this is asked only of the inputs
      that were actually hashed.) */
  ghost predicate CollisionFreeOn(sha: Digest, inputs: set<seq<byte>>) {
    forall x, y {:trigger sha(x), sha(y)} :: x in inputs && y in inputs && sha(x) == sha(y) ==> x == y
  }

  /** A row hash binds the link and every field of the row. */
  lemma RowHashBinds(sha: Digest, inputs: set<seq<byte>>, p: Option<Hash>, c: Content, q: Option<Hash>, d: Content)
    requires WellSized(p) && WellSized(q) && CollisionFreeOn(sha, inputs)
    requires HashInput(p, CanonicalRow(c)) in inputs && HashInput(q, CanonicalRow(d)) in inputs
    requires RowHash(sha, p, c) == RowHash(sha, q, d)
    ensures p == q && c == d
  {
    HashInputUnambiguous(p, RowFields(c), q, RowFields(d));
    RowAsFields(c);
    RowAsFields(d);
  }
}
