/** When an access must be let through and when a commit must succeed.

    A row is refused, and a validation fails, exactly when some commit that started to write
    back later than the transaction began has written a row in question.  A transaction that
    nobody overtakes always commits. */
module OccCauses {
  import opened RowOrder
  import opened OccModel
  import opened OccSerial
  import opened OccStructure
  import opened OccVersions
  import opened OccPreserve
  import opened OccTheorems

  /** Some commit of `h` wrote `r` and ended after `ts`. */
  ghost predicate WrittenAfter<V>(h: seq<Commit<V>>, r: RowId, ts: nat) {
    exists i :: 0 <= i < |h| && r in h[i].writes && h[i].endTs > ts
  }

  /** Some commit of `h` wrote one of `rows` and ended after `ts`. */
  ghost predicate Overtaken<V>(h: seq<Commit<V>>, rows: set<RowId>, ts: nat) {
    exists r :: r in rows && WrittenAfter(h, r, ts)
  }

  ghost predicate StampedBy<V>(h: seq<Commit<V>>, r: RowId, w: nat) {
    exists i :: 0 <= i < |h| && r in h[i].writes && h[i].endTs == w
  }

  /** A write timestamp is the end timestamp of a commit that wrote the row. */
  ghost predicate StampSource<V>(s: State<V>) {
    forall r :: r in s.rows && s.rows[r].wts != 0 ==> StampedBy(s.history, r, s.rows[r].wts)
  }

  /** Between the start and the end of a commit nobody else committed a write to its rows. */
  ghost predicate Unchallenged<V>(h: seq<Commit<V>>) {
    forall j :: 0 <= j < |h| ==> !Overtaken(h[..j], h[j].seen.Keys, h[j].startTs)
  }

  /** A transaction that failed validation was overtaken. */
  ghost predicate FailedForCause<V>(s: State<V>) {
    forall t :: t in s.txns && s.txns[t].phase.Releasing? && !s.txns[t].phase.committed ==>
      Overtaken(s.history, s.txns[t].local.Keys, s.txns[t].startTs)
  }

  lemma {:induction false} OvertakenGrows<V>(h: seq<Commit<V>>, h': seq<Commit<V>>, rows: set<RowId>, ts: nat)
    requires h <= h' && Overtaken(h, rows, ts)
    ensures Overtaken(h', rows, ts)
  {
    var r :| r in rows && WrittenAfter(h, r, ts);
    WrittenGrows(h, h', r, ts);
  }

  lemma {:induction false} WrittenGrows<V>(h: seq<Commit<V>>, h': seq<Commit<V>>, r: RowId, ts: nat)
    requires h <= h' && WrittenAfter(h, r, ts)
    ensures WrittenAfter(h', r, ts)
  {
    var i :| 0 <= i < |h| && r in h[i].writes && h[i].endTs > ts;
    assert h'[i] == h[i];
  }

  lemma {:induction false} StampedGrows<V>(h: seq<Commit<V>>, h': seq<Commit<V>>, r: RowId, w: nat)
    requires h <= h' && StampedBy(h, r, w)
    ensures StampedBy(h', r, w)
  {
    var i :| 0 <= i < |h| && r in h[i].writes && h[i].endTs == w;
    assert h'[i] == h[i];
  }

  lemma {:induction false} HistoryStep<V>(s: State<V>, a: Step<V>)
    requires Enabled(s, a)
    ensures s.history <= Do(s, a).history
    ensures a.TakeEnd? ==> Do(s, a).history == s.history + [CommitOf(a.t, s.txns[a.t], s.counter)]
    ensures !a.TakeEnd? ==> Do(s, a).history == s.history
  {}

  // ----- stamps have a source -----

  lemma {:induction false} StepStampSource<V>(db: map<RowId, V>, s: State<V>, a: Step<V>)
    requires Enabled(s, a) && Inv(db, s) && StampSource(s)
    ensures StampSource(Do(s, a))
  {
    hide Inv, Do, Enabled, StampedBy;
    var s' := Do(s, a);
    HistoryStep(s, a);
    forall r | r in s'.rows && s'.rows[r].wts != 0 ensures StampedBy(s'.history, r, s'.rows[r].wts) {
      WtsAfter(s, a, r);
      if a.Stamp? && r == Target(s.txns[a.t]) {
        StampIsCommits(db, s, a.t);
      } else {
        StampedGrows(s.history, s'.history, r, s.rows[r].wts);
      }
    }
  }

  lemma {:induction false} WtsAfter<V>(s: State<V>, a: Step<V>, r: RowId)
    requires Enabled(s, a) && r in Do(s, a).rows
    ensures a.Stamp? ==> a.t in s.txns && s.txns[a.t].phase.Writing? && 0 < s.txns[a.t].phase.left <= |s.txns[a.t].phase.order|
    ensures if a.Stamp? && r == Target(s.txns[a.t]) then Do(s, a).rows[r].wts == s.txns[a.t].phase.endTs
            else r in s.rows && Do(s, a).rows[r].wts == s.rows[r].wts
    ensures a.Stamp? ==> Do(s, a).history == s.history
  {}

  lemma {:induction false} StampIsCommits<V>(db: map<RowId, V>, s: State<V>, t: TxnId)
    requires Enabled(s, Stamp(t)) && Inv(db, s)
    ensures StampedBy(s.history, Target(s.txns[t]), s.txns[t].phase.endTs)
  {
    hide LatchesOwned, HoldersOwn, EndStamps, StartStamps, RowStamps, StillValid, Tagged, Pending, SnapshotReads, ReadsCurrent;
    var x := s.txns[t];
    assert TxnWf(x, s.rows.Keys);
    var i := WritingStamp(s, t);
    assert Target(x) in x.phase.order;
    assert Target(x) in Writes(x);
    assert Target(x) in s.history[i].writes && s.history[i].endTs == x.phase.endTs;
  }

  // ----- the comparison with wts, in terms of the history -----

  /** Under the latch, the timestamp comparison says exactly whether a commit newer than `ts`
      has written the row. */
  lemma {:induction false} ComparisonMeans<V>(db: map<RowId, V>, s: State<V>, t: TxnId, r: RowId, ts: nat)
    requires Inv(db, s) && StampSource(s) && r in s.rows
    requires r in s.latch && s.latch[r] == t && t in s.txns && !s.txns[t].phase.Writing?
    ensures ts < s.rows[r].wts <==> WrittenAfter(s.history, r, ts)
  {
    hide Structure, Recorded, EndStamps, StartStamps, RowStamps, StillValid, Tagged, SnapshotReads, ReadsCurrent, Pending;
    NothingNewer(s, t, r);
    if ts < s.rows[r].wts {
      assert StampedBy(s.history, r, s.rows[r].wts);
    }
  }

  // ----- a failed validation has a cause -----

  lemma {:induction false} StepFailedForCause<V>(db: map<RowId, V>, s: State<V>, a: Step<V>)
    requires Enabled(s, a) && Inv(db, s) && StampSource(s) && FailedForCause(s)
    ensures FailedForCause(Do(s, a))
  {
    hide Inv, StampSource, Overtaken;
    var s' := Do(s, a);
    HistoryStep(s, a);
    StepFrame(s, a);
    OwnFailure(db, s, a);
    hide Do, Enabled;
    forall t | t in s'.txns && s'.txns[t].phase.Releasing? && !s'.txns[t].phase.committed
      ensures Overtaken(s'.history, s'.txns[t].local.Keys, s'.txns[t].startTs)
    {
      if t != a.t {
        OvertakenGrows(s.history, s'.history, s.txns[t].local.Keys, s.txns[t].startTs);
      }
    }
  }

  lemma {:induction false} OwnFailure<V>(db: map<RowId, V>, s: State<V>, a: Step<V>)
    requires Enabled(s, a) && Inv(db, s) && StampSource(s) && FailedForCause(s)
    ensures var s' := Do(s, a);
            && a.t in s'.txns
            && (s'.txns[a.t].phase.Releasing? && !s'.txns[a.t].phase.committed ==>
                  Overtaken(s'.history, s'.txns[a.t].local.Keys, s'.txns[a.t].startTs))
  {
    hide Inv, StampSource, Overtaken, Do, Enabled;
    FailurePhase(s, a);
    if a.Check? {
      FailedCheck(db, s, a.t);
    }
    HistoryStep(s, a);
  }

  /** Only a failed check and the release of latches after it lead to a failed phase. */
  lemma {:induction false} FailurePhase<V>(s: State<V>, a: Step<V>)
    requires Enabled(s, a)
    ensures var s' := Do(s, a);
            && a.t in s'.txns
            && (s'.txns[a.t].phase.Releasing? && !s'.txns[a.t].phase.committed ==>
                  && a.t in s.txns && s'.txns[a.t] == s.txns[a.t].(phase := s'.txns[a.t].phase)
                  && s'.history == s.history
                  && if a.Check? then
                       s.txns[a.t].startTs < s.rows[s.txns[a.t].phase.order[s.txns[a.t].phase.done]].wts
                     else
                       s.txns[a.t].phase.Releasing? && !s.txns[a.t].phase.committed)
    ensures a.Check? ==>
              (Do(s, a).txns[a.t].phase.Releasing? <==>
               s.txns[a.t].startTs < s.rows[s.txns[a.t].phase.order[s.txns[a.t].phase.done]].wts)
  {
    if !a.Begin? {
      hide RowsAfter, LatchAfter;
      assert Do(s, a).txns[a.t] == TxnAfter(s, s.txns[a.t], a);
    }
  }

  lemma {:induction false} FailedCheck<V>(db: map<RowId, V>, s: State<V>, t: TxnId)
    requires Enabled(s, Check(t)) && Inv(db, s) && StampSource(s)
    ensures var x := s.txns[t]; var r := x.phase.order[x.phase.done];
            && r in x.local && (x.startTs < s.rows[r].wts <==> WrittenAfter(s.history, r, x.startTs))
            && (x.startTs < s.rows[r].wts ==> Overtaken(s.history, x.local.Keys, x.startTs))
  {
    var x := s.txns[t];
    var r := x.phase.order[x.phase.done];
    hide Inv, StampSource, WrittenAfter;
    CheckedHeld(db, s, t);
    assert x.phase.Checking? && r in s.rows;
    hide Enabled;
    ComparisonMeans(db, s, t, r, x.startTs);
  }

  lemma {:induction false} CheckedHeld<V>(db: map<RowId, V>, s: State<V>, t: TxnId)
    requires Enabled(s, Check(t)) && Inv(db, s)
    ensures var x := s.txns[t]; var r := x.phase.order[x.phase.done];
            r in x.local && r in s.latch && s.latch[r] == t
  {
    hide Recorded, EndStamps, StartStamps, RowStamps, StillValid, Tagged, SnapshotReads, ReadsCurrent, Pending;
    var x := s.txns[t];
    assert TxnWf(x, s.rows.Keys) && x.phase.Checking?;
    hide TxnsWf, LatchesOwned, AccessSetWf, Enabled, StrictlySorted;
    assert x.phase.order[x.phase.done] in x.phase.order[..x.phase.done + 1];
    assert Holds(x, x.phase.order[x.phase.done]);
  }

  // ----- a commit was not overtaken -----

  lemma {:induction false} StepUnchallenged<V>(db: map<RowId, V>, s: State<V>, a: Step<V>)
    requires Enabled(s, a) && Inv(db, s) && StampSource(s) && Unchallenged(s.history)
    ensures Unchallenged(Do(s, a).history)
  {
    HistoryStep(s, a);
    if a.TakeEnd? {
      NobodyOvertook(db, s, a.t);
      hide Inv, Do, Enabled, StampSource, Overtaken;
      var h, h' := s.history, Do(s, a).history;
      forall j | 0 <= j < |h'| ensures !Overtaken(h'[..j], h'[j].seen.Keys, h'[j].startTs) {
        assert h'[..j] == h[..j];
        if j == |h| {
          assert h[..j] == h;
        } else {
          assert h'[j] == h[j];
        }
      }
    }
  }

  lemma {:induction false} NobodyOvertook<V>(db: map<RowId, V>, s: State<V>, t: TxnId)
    requires Enabled(s, TakeEnd(t)) && Inv(db, s) && StampSource(s)
    ensures !Overtaken(s.history, s.txns[t].seen.Keys, s.txns[t].startTs)
  {
    hide Inv, StampSource, WrittenAfter;
    var x := s.txns[t];
    assert x.phase.Latching?;
    hide Enabled;
    forall r | r in x.seen ensures !WrittenAfter(s.history, r, x.startTs) {
      TakenRow(db, s, t, r);
      ComparisonMeans(db, s, t, r, x.startTs);
    }
  }

  lemma {:induction false} TakenRow<V>(db: map<RowId, V>, s: State<V>, t: TxnId, r: RowId)
    requires Enabled(s, TakeEnd(t)) && Inv(db, s) && r in s.txns[t].seen
    ensures r in s.rows && s.rows[r].wts <= s.txns[t].startTs && r in s.latch && s.latch[r] == t
  {
    hide Structure, Recorded, EndStamps, StartStamps, RowStamps, Tagged, SnapshotReads, ReadsCurrent, Pending;
    AllValidated(s, t, r);
    ValidatedHeld(s, t, r);
  }

  // ----- over whole runs -----

  ghost predicate Causes<V>(s: State<V>) {
    StampSource(s) && FailedForCause(s) && Unchallenged(s.history)
  }

  lemma {:induction false} RunKeepsCauses<V>(db: map<RowId, V>, s: State<V>, steps: seq<Step<V>>, s': State<V>)
    requires Inv(db, s) && Causes(s) && Runs(s, steps, s')
    ensures Causes(s')
    decreases |steps|
  {
    hide Inv, Do, Enabled, StampSource, FailedForCause, Unchallenged;
    if steps != [] {
      StepInv(db, s, steps[0]);
      StepStampSource(db, s, steps[0]);
      StepFailedForCause(db, s, steps[0]);
      StepUnchallenged(db, s, steps[0]);
      RunKeepsCauses(db, Do(s, steps[0]), steps[1..], s');
    }
  }

  lemma {:induction false} ReachableCauses<V>(db: map<RowId, V>, steps: seq<Step<V>>, s: State<V>)
    requires Runs(Init(db), steps, s)
    ensures Causes(s)
  {
    InitInv(db);
    hide Inv, Runs;
    RunKeepsCauses(db, Init(db), steps, s);
  }

  // ----- the results -----

  /** An access is let through exactly when no commit newer than the transaction's start has
      written the row; then it copies the row's version at the start timestamp. */
  lemma {:induction false} AccessIff<V>(db: map<RowId, V>, steps: seq<Step<V>>, s: State<V>, t: TxnId)
    requires Runs(Init(db), steps, s) && Enabled(s, Copy(t))
    ensures var x := s.txns[t]; var y := Do(s, Copy(t)).txns[t]; var r := x.phase.row;
            && r !in x.local
            && (r in y.local <==> !WrittenAfter(s.history, r, x.startTs))
            && (r in y.local ==> r in db && y.local[r] == VersionAt(db, s.history, x.startTs)[r])
  {
    ReachableInv(db, steps, s);
    ReachableCauses(db, steps, s);
    CopierHolds(db, s, t);
    hide Inv, Runs, FailedForCause, Unchallenged, StampSource;
    var x := s.txns[t];
    ComparisonMeans(db, s, t, x.phase.row, x.startTs);
    if x.startTs >= s.rows[x.phase.row].wts {
      CopyIsSnapshot(db, s, t, x.phase.row);
    }
  }

  lemma {:induction false} CopierHolds<V>(db: map<RowId, V>, s: State<V>, t: TxnId)
    requires Inv(db, s) && Enabled(s, Copy(t))
    ensures var x := s.txns[t]; var r := x.phase.row;
            r in s.rows && r in s.latch && s.latch[r] == t && r !in x.local
  {
    hide Recorded, EndStamps, StartStamps, RowStamps, StillValid, Tagged, SnapshotReads, ReadsCurrent, Pending;
    assert TxnWf(s.txns[t], s.rows.Keys);
    assert Holds(s.txns[t], s.txns[t].phase.row);
  }

  /** Validation of a row fails exactly when a commit newer than the start has written it. */
  lemma {:induction false} CheckIff<V>(db: map<RowId, V>, steps: seq<Step<V>>, s: State<V>, t: TxnId)
    requires Runs(Init(db), steps, s) && Enabled(s, Check(t))
    ensures var x := s.txns[t];
            Do(s, Check(t)).txns[t].phase.Releasing? <==> WrittenAfter(s.history, x.phase.order[x.phase.done], x.startTs)
  {
    ReachableInv(db, steps, s);
    ReachableCauses(db, steps, s);
    hide Inv, Runs, FailedForCause, Unchallenged, StampSource;
    FailedCheck(db, s, t);
    FailurePhase(s, Check(t));
    hide Do, Enabled, WrittenAfter, Overtaken;
  }

  /** In every run, a transaction whose validation failed was overtaken on one of its rows,
      and a commit was not overtaken on any of its rows before its own place in the history. */
  lemma {:induction false} CommitsUnlessOvertaken<V>(db: map<RowId, V>, steps: seq<Step<V>>, s: State<V>)
    requires Runs(Init(db), steps, s)
    ensures forall t :: t in s.txns && s.txns[t].phase.Releasing? && !s.txns[t].phase.committed ==>
              Overtaken(s.history, s.txns[t].local.Keys, s.txns[t].startTs)
    ensures forall j :: 0 <= j < |s.history| ==>
              !Overtaken(s.history[..j], s.history[j].seen.Keys, s.history[j].startTs)
  {
    ReachableCauses(db, steps, s);
  }

  // ----- histories of longer traces -----

  lemma {:induction false} RunGrows<V>(s: State<V>, steps: seq<Step<V>>, s': State<V>)
    requires Runs(s, steps, s')
    ensures s.history <= s'.history
    decreases |steps|
  {
    if steps != [] {
      HistoryStep(s, steps[0]);
      hide Do, Enabled;
      RunGrows(Do(s, steps[0]), steps[1..], s');
    }
  }

  /** A run that extends another one passes through its end. */
  lemma {:induction false} RunExtends<V>(s: State<V>, p: seq<Step<V>>, m: State<V>, q: seq<Step<V>>, e: State<V>)
    requires Runs(s, p, m) && Runs(s, q, e) && p <= q
    ensures Runs(m, q[|p|..], e)
    decreases |p|
  {
    hide Do, Enabled;
    if p == [] {
      assert q[0..] == q;
    } else {
      assert q[0] == p[0];
      assert p[1..] <= q[1..];
      RunExtends(Do(s, p[0]), p[1..], m, q[1..], e);
      assert q[1..][|p| - 1..] == q[|p|..];
    }
  }

  lemma {:induction false} HistoryGrows<V>(s: State<V>, p: seq<Step<V>>, m: State<V>, q: seq<Step<V>>, e: State<V>)
    requires Runs(s, p, m) && Runs(s, q, e) && p <= q
    ensures m.history <= e.history
  {
    hide Runs;
    RunExtends(s, p, m, q, e);
    RunGrows(m, q[|p|..], e);
  }
}
