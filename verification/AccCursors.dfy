/** Where the cursor stands with respect to the archive, over every run, and what the next
    drain makes of it. */
module AccCursors {
  import opened Common
  import opened Accountability
  import opened Cursors
  import opened Drains
  import opened AccRetention
  import opened AccProtocol
  import opened AccSafety
  import Puller

  ghost predicate Throughout(e: Env, s: Sys, acts: seq<Action>, p: (Sys, Action) -> bool) {
    acts != [] ==>
      && Throughout(e, s, acts[..|acts| - 1], p)
      && p(After(e, s, acts[..|acts| - 1]), acts[|acts| - 1])
  }

  /** At the archive's end or beyond, and at the limit a run has read or beyond: that is where
      the archive will end if the run commits. */
  predicate AtOrAbove(s: Sys, n: int) {
    && n >= |s.archive|
    && forall t :: t in s.txs && (s.txs[t].Limited? || s.txs[t].Streamed?) ==> n >= s.txs[t].limit
  }

  /** There is no cursor, or it is fresh, or it is not below the archive and will not be. */
  predicate CursorHigh(s: Sys) {
    s.cursor.None? || s.cursor.value.cursor.lastSeq == 0 || AtOrAbove(s, s.cursor.value.cursor.lastSeq)
  }

  /** A drain that commits its cursor commits it there. */
  predicate LandsHigh(s: Sys, a: Action) {
    a.CommitDrain? && a.t in s.txs && s.txs[a.t].Staged? ==> AtOrAbove(s, s.txs[a.t].place.lastSeq)
  }

  lemma StagedPlace(e: Env, s: Sys, t: nat)
    requires Good(e, s) && t in s.txs && s.txs[t].Staged?
    ensures s.txs[t].place.lastSeq > 0
  {
    hide CursorOk, SameRecords, CoreChain, CopyOk;
    var d := s.txs[t];
    assert TxOk(s, d);
    CursorInCore(s.core, s.copied, d.from);
    PlaceNumber(e.g, s.core, d.from.lastSeq + |Puller.Flat(d.pages)|);
  }

  lemma CommitHighIff(e: Env, s: Sys, t: nat)
    requires Good(e, s) && CursorHigh(s) && Enabled(e, s, CommitDrain(t))
    ensures CursorHigh(Next(e, s, CommitDrain(t))) <==> LandsHigh(s, CommitDrain(t))
  {
    hide Good, Logged, SetOf;
    var now := Next(e, s, CommitDrain(t));
    if s.txs[t].Staged? {
      StagedPlace(e, s, t);
    }
    assert forall n :: AtOrAbove(now, n) <==> AtOrAbove(s, n) by {
      forall n ensures AtOrAbove(now, n) <==> AtOrAbove(s, n) {
        if AtOrAbove(now, n) {
          forall u | u in s.txs && (s.txs[u].Limited? || s.txs[u].Streamed?) ensures n >= s.txs[u].limit {
            assert u in now.txs;
          }
        }
      }
    }
  }

  lemma RetireHigh(e: Env, s: Sys, t: nat)
    requires Good(e, s) && CursorHigh(s) && Enabled(e, s, CommitRetire(t))
    ensures CursorHigh(Next(e, s, CommitRetire(t)))
  {
    hide CoreChain, CursorOk, DrainOk, CopyOk, CopiedTo, Upto, Above;
    assert TxOk(s, s.txs[t]);
  }

  /** A step leaves the cursor there if and only if it does not commit one elsewhere. */
  lemma StepHighIff(e: Env, s: Sys, a: Action)
    requires Good(e, s) && CursorHigh(s)
    ensures CursorHigh(Next(e, s, a)) <==> LandsHigh(s, a)
  {
    hide Good, VerdictOf, Verified, Upto, Logged, MaxAged, ChainFree;
    if Enabled(e, s, a) {
      if a.CommitDrain? {
        CommitHighIff(e, s, a.t);
      } else if a.CommitRetire? {
        RetireHigh(e, s, a.t);
      } else {
        var now := Next(e, s, a);
        assert now.archive == s.archive;
        OtherStepHigh(e, s, a);
      }
    }
  }

  lemma OtherStepHigh(e: Env, s: Sys, a: Action)
    requires CursorHigh(s) && Enabled(e, s, a) && !a.CommitDrain? && !a.CommitRetire?
    ensures CursorHigh(Next(e, s, a))
  {
    hide VerdictOf, Verified, Upto, Logged, MaxAged, ChainFree, Puller.Flat, SetOf, StartFrom;
    var now := Next(e, s, a);
    if now.cursor.Some? && now.cursor.value.cursor.lastSeq != 0 {
      var n := now.cursor.value.cursor.lastSeq;
      assert s.cursor.Some? && s.cursor.value.cursor.lastSeq == n && AtOrAbove(s, n);
      forall t | t in now.txs && (now.txs[t].Limited? || now.txs[t].Streamed?) ensures n >= now.txs[t].limit {
        if t in s.txs && (s.txs[t].Limited? || s.txs[t].Streamed?) {
          assert n >= s.txs[t].limit;
        }
      }
    }
  }

  /** Every run: the cursor is never below the archive, nor below what an open retention run is
      about to archive, if and only if no drain commits a cursor that is. */
  lemma {:induction false} CursorHighIff(e: Env, acts: seq<Action>)
    requires HonestRun(e, NOTHING_YET, acts)
    ensures Throughout(e, NOTHING_YET, acts, LandsHigh) <==> forall k :: 0 <= k <= |acts| ==> CursorHigh(After(e, NOTHING_YET, acts[..k]))
  {
    hide Good, Honest, LandsHigh, CursorHigh, Next;
    if acts == [] {
      assert CursorHigh(NOTHING_YET) by { FreshIsHigh(); }
    } else {
      var front, a := acts[..|acts| - 1], acts[|acts| - 1];
      var s := After(e, NOTHING_YET, front);
      CursorHighIff(e, front);
      assert forall k :: 0 <= k <= |front| ==> front[..k] == acts[..k];
      assert acts[..|acts|] == acts && acts[..|front|] == front && front[..|front|] == front;
      StartIsGood(e);
      RunsStayGood(e, NOTHING_YET, front);
      if CursorHigh(s) {
        StepHighIff(e, s, a);
      }
      if Throughout(e, NOTHING_YET, acts, LandsHigh) {
        assert CursorHigh(After(e, NOTHING_YET, front[..|front|]));
      }
      if forall k :: 0 <= k <= |acts| ==> CursorHigh(After(e, NOTHING_YET, acts[..k])) {
        assert CursorHigh(After(e, NOTHING_YET, acts[..|acts|]));
      }
    }
  }

  lemma FreshIsHigh()
    ensures CursorHigh(NOTHING_YET)
  {}

  /** In any state a run can reach, with a core that answers truthfully: the next drain goes
      through if and only if the cursor is absent, fresh, or not below the archive, or nothing
      survives. Otherwise it is refused at the first surviving record, as a gap. */
  lemma NextDrainEndsBy(e: Env, s: Sys, size: nat, most: nat)
    requires Good(e, s) && size > 0 && most > 0
    ensures |s.archive| <= |s.core|
    ensures var c := if s.cursor.Some? then s.cursor.value.cursor else FRESH;
            var p := Puller.Pull(e.g, HonestSource(s.core, |s.archive|), StartFrom(c, Anchor(s.archive)), None, 0, size, most, true);
      p.ending == if c.lastSeq == 0 || c.lastSeq >= |s.archive| || s.table == [] then Puller.Finished
                  else Puller.Refused(Broken(|s.archive| + 1, Gap))
  {
    hide CoreChain, CopyOk, CopiedTo, Puller.Pull, TxOk, OneRetires, HonestSource, StartFrom;
    var c := if s.cursor.Some? then s.cursor.value.cursor else FRESH;
    var kept := |s.archive|;
    assert s.core[..kept] == s.archive;
    AnchorIsEnd(s.core, s.archive);
    DrainEndsBy(e.g, s.core, kept, c.lastSeq, None, size, most);
  }

  lemma AnchorIsEnd(core: seq<CoreRecord>, archive: seq<CoreRecord>)
    requires archive <= core
    ensures Anchor(archive) == ArchiveEnd(core, |archive|)
  {}
}
