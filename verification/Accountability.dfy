/** The core's accountability records: their canonical bytes, their hash, and the checks
    made on every batch that is read. */
module Accountability {
  import opened Common
  import opened CanonicalJson
  import opened Hashing

  // ---- records ----

  /** Everything a record says besides its place in the chain. An absent text is empty. */
  datatype CoreBody = CoreBody(
    actor: string, actorRoles: seq<string>, sourceIface: string, sourceAddr: string, category: string, action: string,
    targetUid: string, targetType: string, principal: string, detail: string, globalTenant: string)

  datatype CoreRecord = CoreRecord(seqNo: int, ts: int, body: CoreBody, prevHash: Option<Hash>, hash: Hash)

  // ---- canonical form ----

  function JoinRoles(roles: seq<string>): string
    requires roles != []
  {
    if |roles| == 1 then roles[0] else roles[0] + "," + JoinRoles(roles[1..])
  }

  function RolesText(roles: seq<string>): Option<string> {
    if roles == [] then None else Some(JoinRoles(roles))
  }

  function OrNull(s: string): Scalar { if s == "" then Null else Str(s) }

  function RecordFields(seqNo: int, ts: int, b: CoreBody): seq<Scalar> {
    [Int(seqNo), Int(ts), Str(b.actor), Text(RolesText(b.actorRoles)), OrNull(b.sourceIface), OrNull(b.sourceAddr),
     Str(b.category), Str(b.action), OrNull(b.targetUid), OrNull(b.targetType), OrNull(b.principal), OrNull(b.detail),
     OrNull(b.globalTenant)]
  }

  function CanonicalRecord(seqNo: int, ts: int, b: CoreBody): seq<byte> { EncodeArray(RecordFields(seqNo, ts, b)) }

  /** The same record but for how its roles are written. */
  predicate SameBody(a: CoreBody, b: CoreBody) {
    a.(actorRoles := []) == b.(actorRoles := []) && RolesText(a.actorRoles) == RolesText(b.actorRoles)
  }

  // ---- reading a record back ----

  /** An absent text is null and never an empty string. */
  predicate Optional(a: Scalar) { a.Null? || (a.Str? && a.s != "") }

  function AsPlain(a: Scalar): string { if a.Str? then a.s else "" }

  /** A record as its bytes say it: the roles are one text. */
  datatype ReadRecord = ReadRecord(seqNo: int, ts: int, rolesText: Option<string>, rest: CoreBody)

  /** The record an array of thirteen scalars describes: sequence number, microseconds,
      actor, roles, source (interface, address), category, action, target (uid, type),
      principal, detail, tenant. */
  function RecordOf(xs: seq<Scalar>): Option<ReadRecord> {
    if |xs| == 13 && xs[0].Int? && xs[1].Int? && xs[2].Str? && Textual(xs[3]) && Optional(xs[4]) && Optional(xs[5])
       && xs[6].Str? && xs[7].Str? && forall i {:trigger xs[i]} :: 8 <= i < 13 ==> Optional(xs[i])
    then
      Some(ReadRecord(xs[0].n, xs[1].n, AsText(xs[3]),
                      CoreBody(actor := xs[2].s, actorRoles := [], sourceIface := AsPlain(xs[4]),
                               sourceAddr := AsPlain(xs[5]), category := xs[6].s, action := xs[7].s,
                               targetUid := AsPlain(xs[8]), targetType := AsPlain(xs[9]),
                               principal := AsPlain(xs[10]), detail := AsPlain(xs[11]),
                               globalTenant := AsPlain(xs[12]))))
    else None
  }

  function ReadOne(t: seq<byte>): Option<ReadRecord> {
    var xs := ReadArray(t);
    if xs.None? then None else RecordOf(xs.value)
  }

  lemma RecordOfFields(m: int, t: int, b: CoreBody)
    ensures RecordOf(RecordFields(m, t, b)) == Some(ReadRecord(m, t, RolesText(b.actorRoles), b.(actorRoles := [])))
  {}

  /** A reader of the format gets everything back, the roles as their joined text. */
  lemma RecordReadsBack(m: int, t: int, b: CoreBody)
    ensures ReadOne(CanonicalRecord(m, t, b))
         == Some(ReadRecord(m, t, RolesText(b.actorRoles), b.(actorRoles := [])))
  {
    ArrayReadsBack(RecordFields(m, t, b));
    RecordOfFields(m, t, b);
  }

  /** Equal canonical bytes: equal place, equal time and equal body, up to how the roles
      were separated. */
  lemma CanonicalRecordInjective(m: int, t: int, a: CoreBody, n: int, u: int, b: CoreBody)
    requires CanonicalRecord(m, t, a) == CanonicalRecord(n, u, b)
    ensures m == n && t == u && SameBody(a, b)
  {
    RecordReadsBack(m, t, a);
    RecordReadsBack(n, u, b);
  }

  predicate NoComma(s: string) { forall i :: 0 <= i < |s| ==> s[i] != ',' }

  predicate NoCommas(roles: seq<string>) { forall i :: 0 <= i < |roles| ==> NoComma(roles[i]) }

  lemma FirstComma(a: string, x: string)
    requires NoComma(a)
    ensures var s := a + "," + x; |a| < |s| && s[|a|] == ',' && forall i :: 0 <= i < |a| ==> s[i] != ','
  {}

  lemma FirstRole(a: string, x: string, b: string, y: string)
    requires NoComma(a) && NoComma(b) && a + "," + x == b + "," + y
    ensures a == b && x == y
  {
    var s := a + "," + x;
    FirstComma(a, x);
    FirstComma(b, y);
    assert s[..|a|] == a && s[|a| + 1..] == x;
    assert s[..|b|] == b && s[|b| + 1..] == y;
  }

  lemma OneRole(a: string, b: string, y: string)
    requires NoComma(a)
    ensures a != b + "," + y
  {
    assert (b + "," + y)[|b|] == ',';
  }

  /** Where no role contains a comma the roles themselves are bound. */
  lemma {:induction false} RolesRecoverable(a: seq<string>, b: seq<string>)
    requires NoCommas(a) && NoCommas(b) && RolesText(a) == RolesText(b)
    ensures a == b
  {
    if a != [] {
      if |a| == 1 && |b| > 1 {
        OneRole(a[0], b[0], JoinRoles(b[1..]));
        assert false;
      } else if |b| == 1 && |a| > 1 {
        OneRole(b[0], a[0], JoinRoles(a[1..]));
        assert false;
      } else if |a| > 1 {
        FirstRole(a[0], JoinRoles(a[1..]), b[0], JoinRoles(b[1..]));
        RolesRecoverable(a[1..], b[1..]);
        assert a == [a[0]] + a[1..] && b == [b[0]] + b[1..];
      }
    }
  }

  /** A role with a comma in it reads as two, and two roles as one with a comma. */
  lemma CommaConfusesRoles(x: string, y: string)
    ensures RolesText([x + "," + y]) == RolesText([x, y])
  {
    assert [x, y][1..] == [y] && JoinRoles([y]) == y;
    assert JoinRoles([x + "," + y]) == x + "," + y;
  }

  lemma SplitAtComma(s: string) returns (x: string, y: string)
    requires !NoComma(s)
    ensures s == x + "," + y
  {
    var i :| 0 <= i < |s| && s[i] == ',';
    x, y := s[..i], s[i + 1..];
    assert s[i..i + 1] == ",";
  }

  /** Which roles their text binds, among all lists: none, or one without a comma. Two roles
      can always be altered into one. */
  lemma RolesBoundIff(a: seq<string>)
    ensures (forall b :: RolesText(b) == RolesText(a) ==> b == a) <==> a == [] || (|a| == 1 && NoComma(a[0]))
  {
    if |a| > 1 {
      assert JoinRoles([JoinRoles(a)]) == JoinRoles(a);
      assert RolesText([JoinRoles(a)]) == RolesText(a);
    } else if |a| == 1 {
      if NoComma(a[0]) {
        forall b | RolesText(b) == RolesText(a) ensures b == a {
          if |b| > 1 {
            OneRole(a[0], b[0], JoinRoles(b[1..]));
          }
        }
      } else {
        var x, y := SplitAtComma(a[0]);
        CommaConfusesRoles(x, y);
        assert a == [x + "," + y] && RolesText([x, y]) == RolesText(a);
      }
    }
  }

  // ---- hashes ----

  /** How a record's hash comes from its link and what it says. */
  type CoreLinker = (Option<Hash>, int, int, CoreBody) -> Hash

  function ShaCoreLinker(sha: Digest): CoreLinker {
    (prev, seqNo, ts, body) => Hash(sha(HashInput(prev, CanonicalRecord(seqNo, ts, body))))
  }

  /** A record's hash binds its link, its sequence number, its time and its body. */
  lemma RecordHashBinds(sha: Digest, inputs: set<seq<byte>>, p: Option<Hash>, m: int, t: int, a: CoreBody,
                        q: Option<Hash>, n: int, u: int, b: CoreBody)
    requires WellSized(p) && WellSized(q) && CollisionFreeOn(sha, inputs)
    requires HashInput(p, CanonicalRecord(m, t, a)) in inputs && HashInput(q, CanonicalRecord(n, u, b)) in inputs
    requires ShaCoreLinker(sha)(p, m, t, a) == ShaCoreLinker(sha)(q, n, u, b)
    ensures p == q && m == n && t == u && SameBody(a, b)
  {
    HashInputUnambiguous(p, RecordFields(m, t, a), q, RecordFields(n, u, b));
    RecordOfFields(m, t, a);
    RecordOfFields(n, u, b);
  }

  /** An empty hash counts as none. */
  function OrNone(p: Option<Hash>): Option<Hash> {
    if p.Some? && p.value.bytes == [] then None else p
  }

  /** What a record is hashed from. */
  type CoreInput = (Option<Hash>, int, int, CoreBody)

  function InputOf(r: CoreRecord): CoreInput { (OrNone(r.prevHash), r.seqNo, r.ts, r.body) }

  function Hashed(g: CoreLinker, x: CoreInput): Hash { g(x.0, x.1, x.2, x.3) }

  function CoreInputs(recs: seq<CoreRecord>): set<CoreInput> { set r | r in recs :: InputOf(r) }

  predicate SameInput(x: CoreInput, y: CoreInput) { x.0 == y.0 && x.1 == y.1 && x.2 == y.2 && SameBody(x.3, y.3) }

  /** No two of these inputs share a hash, and no hash is empty. */
  ghost predicate CoreBinds(g: CoreLinker, inputs: set<CoreInput>) {
    && (forall x :: x in inputs ==> Hashed(g, x).bytes != [])
    && forall x, y {:trigger Hashed(g, x), Hashed(g, y)} ::
         x in inputs && y in inputs && Hashed(g, x) == Hashed(g, y) ==> SameInput(x, y)
  }

  /** A digest that is never empty and has no collision on what was hashed binds records. */
  lemma CoreDigestBinds(sha: Digest, inputs: set<CoreInput>)
    requires forall x :: x in inputs ==> WellSized(x.0) && Hashed(ShaCoreLinker(sha), x).bytes != []
    requires CollisionFreeOn(sha, set x | x in inputs :: HashInput(x.0, CanonicalRecord(x.1, x.2, x.3)))
    ensures CoreBinds(ShaCoreLinker(sha), inputs)
  {
    var g, bytes := ShaCoreLinker(sha), set x | x in inputs :: HashInput(x.0, CanonicalRecord(x.1, x.2, x.3));
    forall x, y | x in inputs && y in inputs && Hashed(g, x) == Hashed(g, y) ensures SameInput(x, y) {
      RecordHashBinds(sha, bytes, x.0, x.1, x.2, x.3, y.0, y.1, y.2, y.3);
    }
  }

  /** The same record, but for how its roles are separated and how "no link" is written. */
  predicate SameRecord(a: CoreRecord, b: CoreRecord) {
    SameInput(InputOf(a), InputOf(b)) && a.hash == b.hash
  }

  /** A record as its hash knows it: roles joined, no link written in one way. */
  function Joined(r: CoreRecord): CoreRecord {
    r.(prevHash := OrNone(r.prevHash),
       body := r.body.(actorRoles := if r.body.actorRoles == [] then [] else [JoinRoles(r.body.actorRoles)]))
  }

  lemma SameRecordIffJoined(a: CoreRecord, b: CoreRecord)
    ensures SameRecord(a, b) <==> Joined(a) == Joined(b)
  {
    var x, y := a.body, b.body;
    if SameRecord(a, b) {
      assert x.(actorRoles := []) == y.(actorRoles := []);
    }
    if Joined(a) == Joined(b) {
      assert Joined(a).body.(actorRoles := []) == Joined(b).body.(actorRoles := []);
      assert x.actorRoles == [] <==> y.actorRoles == [];
      if x.actorRoles != [] {
        assert Joined(a).body.actorRoles[0] == Joined(b).body.actorRoles[0];
      }
    }
  }

  predicate SameRecords(a: seq<CoreRecord>, b: seq<CoreRecord>) {
    |a| == |b| && forall i :: 0 <= i < |a| ==> SameRecord(a[i], b[i])
  }

  // ---- the checks on a batch ----

  /** Where a reader stands: the last record it accepted, as far as it knows it. */
  datatype Position = Position(seqNo: Option<int>, hash: Option<Hash>, ts: Option<int>)

  datatype CoreFault = Gap | TsNotIncreasing | BrokenLink | AlteredRow

  function FaultOf(g: CoreLinker, p: Position, r: CoreRecord): Option<CoreFault> {
    if p.seqNo.Some? && r.seqNo != p.seqNo.value + 1 then Some(Gap)
    else if p.ts.Some? && r.ts <= p.ts.value then Some(TsNotIncreasing)
    else if OrNone(r.prevHash) != OrNone(p.hash) then Some(BrokenLink)
    else if g(OrNone(p.hash), r.seqNo, r.ts, r.body) != r.hash then Some(AlteredRow)
    else None
  }

  function Past(r: CoreRecord): Position { Position(Some(r.seqNo), Some(r.hash), Some(r.ts)) }

  function EndOf(p: Position, recs: seq<CoreRecord>): Position {
    if recs == [] then p else Past(recs[|recs| - 1])
  }

  /** The records continue the chain from `p`: no number is missing or repeated, time
      rises, every link holds and every record hashes to its own hash. */
  predicate Continues(g: CoreLinker, p: Position, recs: seq<CoreRecord>) {
    recs != [] ==>
      && Continues(g, p, recs[..|recs| - 1])
      && FaultOf(g, EndOf(p, recs[..|recs| - 1]), recs[|recs| - 1]).None?
  }

  lemma {:induction false} ContinuesConcat(g: CoreLinker, p: Position, a: seq<CoreRecord>, b: seq<CoreRecord>)
    ensures Continues(g, p, a + b) <==> Continues(g, p, a) && Continues(g, EndOf(p, a), b)
    ensures EndOf(p, a + b) == EndOf(EndOf(p, a), b)
  {
    if b == [] {
      assert a + b == a;
    } else {
      assert (a + b)[..|a + b| - 1] == a + b[..|b| - 1];
      ContinuesConcat(g, p, a, b[..|b| - 1]);
    }
  }

  lemma ContinuesOne(g: CoreLinker, p: Position, r: CoreRecord)
    ensures Continues(g, p, [r]) <==> FaultOf(g, p, r).None?
  {
    assert [r][..0] == [];
  }

  lemma ContinuesAt(g: CoreLinker, p: Position, recs: seq<CoreRecord>, i: nat)
    requires i < |recs| && Continues(g, p, recs)
    ensures FaultOf(g, EndOf(p, recs[..i]), recs[i]).None?
    ensures Continues(g, p, recs[..i]) && Continues(g, EndOf(p, recs[..i]), recs[i..])
  {
    assert recs == recs[..i] + recs[i..] && recs[i..] == [recs[i]] + recs[i + 1..];
    ContinuesConcat(g, p, recs[..i], recs[i..]);
    ContinuesConcat(g, EndOf(p, recs[..i]), [recs[i]], recs[i + 1..]);
    ContinuesOne(g, EndOf(p, recs[..i]), recs[i]);
  }

  /** In records that continue a known position, numbers go up by one and time rises. */
  lemma {:induction false} ContinuesNumbers(g: CoreLinker, p: Position, recs: seq<CoreRecord>)
    requires Continues(g, p, recs)
    ensures forall i :: 0 <= i < |recs| ==> recs[i].seqNo == recs[0].seqNo + i
    ensures p.seqNo.Some? && recs != [] ==> recs[0].seqNo == p.seqNo.value + 1
    ensures forall i, j :: 0 <= i < j < |recs| ==> recs[i].ts < recs[j].ts
    ensures p.ts.Some? ==> forall i :: 0 <= i < |recs| ==> p.ts.value < recs[i].ts
  {
    if recs != [] {
      var front := recs[..|recs| - 1];
      ContinuesNumbers(g, p, front);
      assert forall i :: 0 <= i < |front| ==> front[i] == recs[i];
      if front != [] {
        assert front[|front| - 1].ts < recs[|front|].ts;
      }
    }
  }

  datatype Verdict = Accepted | Broken(seqNo: int, fault: CoreFault) | Stale

  /** The batch fails at its `i`th record and not before. */
  predicate FailsAt(g: CoreLinker, p: Position, recs: seq<CoreRecord>, i: int) {
    && 0 <= i < |recs| && Continues(g, p, recs[..i])
    && FaultOf(g, EndOf(p, recs[..i]), recs[i]).Some?
  }

  lemma FailsOnce(g: CoreLinker, p: Position, recs: seq<CoreRecord>, i: int)
    requires FailsAt(g, p, recs, i)
    ensures !Continues(g, p, recs)
    ensures forall j :: FailsAt(g, p, recs, j) ==> j == i
  {
    if Continues(g, p, recs) {
      ContinuesAt(g, p, recs, i);
    }
    forall j | FailsAt(g, p, recs, j) ensures j == i {
      if j < i {
        assert recs[..i][..j] == recs[..j];
        ContinuesAt(g, p, recs[..i], j);
      } else if i < j {
        assert recs[..j][..i] == recs[..i];
        ContinuesAt(g, p, recs[..j], i);
      }
    }
  }

  /** A hint said a record exists that this read did not reach. */
  predicate Missed(asserted: Option<int>, reached: Option<int>) {
    asserted.Some? && asserted.value != 0 && (reached.None? || reached.value < asserted.value)
  }

  /** What the checks say of a batch, whatever order they are made in. */
  ghost predicate Judged(g: CoreLinker, p: Position, recs: seq<CoreRecord>, asserted: Option<int>, v: Verdict) {
    match v
    case Broken(no, fault) => exists i :: FailsAt(g, p, recs, i) && recs[i].seqNo == no
                                          && FaultOf(g, EndOf(p, recs[..i]), recs[i]) == Some(fault)
    case Stale => Continues(g, p, recs) && Missed(asserted, EndOf(p, recs).seqNo)
    case Accepted => Continues(g, p, recs) && !Missed(asserted, EndOf(p, recs).seqNo)
  }

  datatype FirstBreak = FirstBreak(seqNo: int, fault: CoreFault)

  function BreakIn(g: CoreLinker, p: Position, recs: seq<CoreRecord>): Option<FirstBreak> {
    if recs == [] then None
    else
      var front, last := recs[..|recs| - 1], recs[|recs| - 1];
      var earlier, fault := BreakIn(g, p, front), FaultOf(g, EndOf(p, front), last);
      if earlier.Some? then earlier
      else if fault.Some? then Some(FirstBreak(last.seqNo, fault.value)) else None
  }

  function VerdictOf(g: CoreLinker, p: Position, recs: seq<CoreRecord>, asserted: Option<int>): Verdict {
    match BreakIn(g, p, recs)
    case Some(b) => Broken(b.seqNo, b.fault)
    case None => if Missed(asserted, EndOf(p, recs).seqNo) then Stale else Accepted
  }

  function BreakAt(g: CoreLinker, p: Position, recs: seq<CoreRecord>, i: int): FirstBreak
    requires FailsAt(g, p, recs, i)
  {
    FirstBreak(recs[i].seqNo, FaultOf(g, EndOf(p, recs[..i]), recs[i]).value)
  }

  lemma {:induction false} BreakInMeaning(g: CoreLinker, p: Position, recs: seq<CoreRecord>)
    ensures BreakIn(g, p, recs).None? <==> Continues(g, p, recs)
    ensures BreakIn(g, p, recs).Some? ==>
      exists i :: FailsAt(g, p, recs, i) && BreakIn(g, p, recs) == Some(BreakAt(g, p, recs, i))
  {
    if recs != [] {
      var n := |recs| - 1;
      BreakInMeaning(g, p, recs[..n]);
      if BreakIn(g, p, recs[..n]).Some? {
        var i :| FailsAt(g, p, recs[..n], i) && BreakIn(g, p, recs[..n]) == Some(BreakAt(g, p, recs[..n], i));
        assert recs[..n][..i] == recs[..i];
        assert FailsAt(g, p, recs, i);
      } else if BreakIn(g, p, recs).Some? {
        assert FailsAt(g, p, recs, n);
      }
    }
  }

  /** The verdict says whether the batch continues the chain and, if not, names the one
      record it first fails at. */
  lemma VerdictMeaning(g: CoreLinker, p: Position, recs: seq<CoreRecord>, asserted: Option<int>)
    ensures Judged(g, p, recs, asserted, VerdictOf(g, p, recs, asserted))
  {
    BreakInMeaning(g, p, recs);
  }

  lemma {:induction false} BreakStands(g: CoreLinker, p: Position, recs: seq<CoreRecord>, n: nat)
    requires n <= |recs| && BreakIn(g, p, recs[..n]).Some?
    ensures BreakIn(g, p, recs) == BreakIn(g, p, recs[..n])
    decreases |recs|
  {
    if n == |recs| {
      assert recs[..n] == recs;
    } else {
      assert recs[..|recs| - 1][..n] == recs[..n];
      BreakStands(g, p, recs[..|recs| - 1], n);
    }
  }

  lemma BreakInStep(g: CoreLinker, p: Position, recs: seq<CoreRecord>, i: nat)
    requires i < |recs| && BreakIn(g, p, recs[..i]).None?
    ensures var fault := FaultOf(g, EndOf(p, recs[..i]), recs[i]);
            BreakIn(g, p, recs[..i + 1]) == if fault.Some? then Some(FirstBreak(recs[i].seqNo, fault.value)) else None
    ensures EndOf(p, recs[..i + 1]) == Past(recs[i])
  {
    assert recs[..i + 1][..i] == recs[..i];
  }

  method VerifyBatch(g: CoreLinker, p: Position, recs: seq<CoreRecord>, asserted: Option<int>) returns (v: Verdict)
    ensures v == VerdictOf(g, p, recs, asserted)
    ensures Judged(g, p, recs, asserted, v)
  {
    VerdictMeaning(g, p, recs, asserted);
    var prev := p;
    var i := 0;
    while i < |recs|
      invariant i <= |recs| && BreakIn(g, p, recs[..i]).None? && prev == EndOf(p, recs[..i])
    {
      var rec := recs[i];
      BreakInStep(g, p, recs, i);
      var fault := None;
      if prev.seqNo.Some? && rec.seqNo != prev.seqNo.value + 1 {
        fault := Some(Gap);
      } else if prev.ts.Some? && rec.ts <= prev.ts.value {
        fault := Some(TsNotIncreasing);
      } else if OrNone(rec.prevHash) != OrNone(prev.hash) {
        fault := Some(BrokenLink);
      } else if g(OrNone(prev.hash), rec.seqNo, rec.ts, rec.body) != rec.hash {
        fault := Some(AlteredRow);
      }
      if fault.Some? {
        BreakStands(g, p, recs, i + 1);
        return Broken(rec.seqNo, fault.value);
      }
      prev := Past(rec);
      i := i + 1;
    }
    assert recs[..i] == recs;
    if asserted.Some? && asserted.value != 0 && (prev.seqNo.None? || prev.seqNo.value < asserted.value) {
      return Stale;
    }
    return Accepted;
  }

  /** Cutting the records into pages changes neither acceptance nor where they fail: a
      page that fails fails where the whole does, and after pages that pass the next
      page fails where the whole does. */
  lemma PageCutsDoNotMatter(g: CoreLinker, p: Position, pages: seq<CoreRecord>, page: seq<CoreRecord>, rest: seq<CoreRecord>, i: int)
    requires Continues(g, p, pages)
    ensures Continues(g, p, pages + page + rest)
            <==> Continues(g, EndOf(p, pages), page) && Continues(g, EndOf(p, pages + page), rest)
    ensures FailsAt(g, EndOf(p, pages), page, i) ==> FailsAt(g, p, pages + page + rest, |pages| + i)
    ensures FailsAt(g, p, pages + page + rest, i) && i < |pages + page| ==>
              i >= |pages| && FailsAt(g, EndOf(p, pages), page, i - |pages|)
  {
    var all := pages + page + rest;
    ContinuesConcat(g, p, pages + page, rest);
    ContinuesConcat(g, p, pages, page);
    if FailsAt(g, EndOf(p, pages), page, i) {
      assert all[..|pages| + i] == pages + page[..i] && all[|pages| + i] == page[i];
      ContinuesConcat(g, p, pages, page[..i]);
    }
    if FailsAt(g, p, all, i) && i < |pages + page| {
      if i < |pages| {
        assert all[..i] == pages[..i] && all[i] == pages[i];
        ContinuesAt(g, p, pages, i);
      } else {
        assert all[..i] == pages + page[..i - |pages|] && all[i] == page[i - |pages|];
        ContinuesConcat(g, p, pages, page[..i - |pages|]);
      }
    }
  }
}
