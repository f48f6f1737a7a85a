/** The cursor of each chain: how far it has been copied, and whether it is halted. */
module Cursors {
  import opened Common
  import opened Accountability

  /** How far a chain has been copied; zeros before the first record. */
  datatype Cursor = Cursor(until: int, lastSeq: int, lastHash: Option<Hash>)

  const FRESH := Cursor(0, 0, None)

  datatype Halt = Halt(seqNo: Option<int>, reason: CoreFault)

  datatype CursorRow = CursorRow(cursor: Cursor, halt: Option<Halt>)

  type CursorTable = map<string, CursorRow>

  function RowOf(t: CursorTable, key: string): CursorRow {
    if key in t then t[key] else CursorRow(FRESH, None)
  }

  function Advance(r: CoreRecord): Cursor { Cursor(r.ts, r.seqNo, Some(r.hash)) }

  /** A zero means there is no value yet. */
  function PosOf(c: Cursor): Position {
    Position(if c.lastSeq == 0 then None else Some(c.lastSeq), c.lastHash, if c.until == 0 then None else Some(c.until))
  }

  /** A fresh cursor starts behind the archive, if there is one. */
  function StartFrom(c: Cursor, anchor: Option<Cursor>): Cursor {
    if c.lastSeq == 0 && c.until == 0 && anchor.Some? then anchor.value else c
  }

  datatype CursorOp = Stage(cursor: Cursor) | Touch | RaiseHalt(seqNo: Option<int>, reason: CoreFault) | Acknowledge | Reset

  /** What each statement leaves for its chain; no row is a fresh cursor without a halt. */
  function OpRow(r: Option<CursorRow>, op: CursorOp): Option<CursorRow> {
    var row := if r.Some? then r.value else CursorRow(FRESH, None);
    match op
    case Stage(c) => Some(row.(cursor := c))
    case Touch => Some(row)
    case RaiseHalt(no, reason) => Some(row.(halt := Some(if row.halt.None? then Halt(no, reason)
                                                         else if row.halt.value.seqNo.None? then row.halt.value.(seqNo := no)
                                                         else row.halt.value)))
    case Acknowledge => if r.Some? then Some(row.(halt := None)) else None
    case Reset => None
  }

  function Find(t: CursorTable, key: string): Option<CursorRow> {
    if key in t then Some(t[key]) else None
  }

  /** The table after a statement about one chain; other chains are as before. */
  ghost predicate Updated(was: CursorTable, now: CursorTable, key: string, op: CursorOp) {
    && Find(now, key) == OpRow(Find(was, key), op)
    && forall k :: k != key ==> Find(now, k) == Find(was, k)
  }

  class CursorStore {
    var rows: CursorTable

    constructor (rows: CursorTable)
      ensures this.rows == rows
    {
      this.rows := rows;
    }

    method Get(key: string) returns (r: CursorRow)
      ensures r == RowOf(rows, key)
    {
      return if key in rows then rows[key] else CursorRow(FRESH, None);
    }

    method Stage(key: string, c: Cursor)
      modifies this
      ensures Updated(old(rows), rows, key, CursorOp.Stage(c))
    {
      rows := rows[key := if key in rows then rows[key].(cursor := c) else CursorRow(c, None)];
    }

    method TouchPolled(key: string)
      modifies this
      ensures Updated(old(rows), rows, key, Touch)
    {
      if key !in rows {
        rows := rows[key := CursorRow(FRESH, None)];
      }
    }

    /** The first halt is kept. */
    method RaiseHalt(key: string, seqNo: Option<int>, reason: CoreFault)
      modifies this
      ensures Updated(old(rows), rows, key, CursorOp.RaiseHalt(seqNo, reason))
    {
      if key !in rows {
        rows := rows[key := CursorRow(FRESH, Some(Halt(seqNo, reason)))];
      } else if rows[key].halt.None? {
        rows := rows[key := rows[key].(halt := Some(Halt(seqNo, reason)))];
      } else if rows[key].halt.value.seqNo.None? {
        rows := rows[key := rows[key].(halt := Some(rows[key].halt.value.(seqNo := seqNo)))];
      }
    }

    method Acknowledge(key: string) returns (cleared: bool)
      modifies this
      ensures Updated(old(rows), rows, key, CursorOp.Acknowledge)
      ensures cleared <==> RowOf(old(rows), key).halt.Some?
    {
      cleared := key in rows && rows[key].halt.Some?;
      if cleared {
        rows := rows[key := rows[key].(halt := None)];
      }
    }

    method Reset(key: string)
      modifies this
      ensures Updated(old(rows), rows, key, CursorOp.Reset)
    {
      rows := map k | k in rows && k != key :: rows[k];
    }
  }

  function OpRows(r: Option<CursorRow>, ops: seq<CursorOp>): Option<CursorRow> {
    if ops == [] then r else OpRow(OpRows(r, ops[..|ops| - 1]), ops[|ops| - 1])
  }

  function LastStaged(c: Cursor, ops: seq<CursorOp>): Cursor {
    if ops == [] then c
    else if ops[|ops| - 1].Stage? then ops[|ops| - 1].cursor
    else LastStaged(c, ops[..|ops| - 1])
  }

  /** Whatever is staged, touched or raised afterwards, the first halt with a sequence
      number stays until it is acknowledged or the chain is reset, and nothing but staging
      moves the cursor. */
  lemma {:induction false} FirstHaltStands(r: CursorRow, no: int, reason: CoreFault, ops: seq<CursorOp>)
    requires r.halt == Some(Halt(Some(no), reason))
    requires forall i :: 0 <= i < |ops| ==> !ops[i].Acknowledge? && !ops[i].Reset?
    ensures OpRows(Some(r), ops) == Some(CursorRow(LastStaged(r.cursor, ops), Some(Halt(Some(no), reason))))
  {
    if ops != [] {
      FirstHaltStands(r, no, reason, ops[..|ops| - 1]);
    }
  }

  /** A halt that is acknowledged leaves the cursor where it was. */
  lemma AcknowledgedHaltMovesNothing(r: Option<CursorRow>, halts: seq<CursorOp>)
    requires r.Some? ==> r.value.halt.None?
    requires halts != [] && forall i :: 0 <= i < |halts| ==> halts[i].RaiseHalt?
    ensures OpRows(r, halts + [Acknowledge]) == Some(if r.Some? then r.value else CursorRow(FRESH, None))
    ensures OpRows(r, halts).value.halt.Some?
  {
    HaltsMoveNothing(r, halts);
    assert (halts + [Acknowledge])[..|halts|] == halts;
  }

  lemma {:induction false} HaltsMoveNothing(r: Option<CursorRow>, halts: seq<CursorOp>)
    requires halts != [] && forall i :: 0 <= i < |halts| ==> halts[i].RaiseHalt?
    ensures OpRows(r, halts).Some? && OpRows(r, halts).value.halt.Some?
    ensures OpRows(r, halts).value.cursor == if r.Some? then r.value.cursor else FRESH
  {
    if |halts| > 1 {
      HaltsMoveNothing(r, halts[..|halts| - 1]);
    } else {
      assert halts[..0] == [];
    }
  }
}
