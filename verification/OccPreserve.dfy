/** Every step keeps the data invariant. */
module OccPreserve {
  import opened RowOrder
  import opened OccModel
  import opened OccSerial
  import opened OccStructure
  import opened OccVersions

  // ----- the commit record -----

  /** Once committed, a transaction's access set is frozen and it stays committed. */
  lemma {:induction false} CommittedStep<V>(s: State<V>, x: Txn<V>, a: Step<V>)
    requires TxnEnabled(s, x, a)
    ensures CommittedPhase(x.phase) ==> AccessesAfter(s, x, a) == x && CommittedPhase(PhaseAfter(s, x, a))
    ensures !a.TakeEnd? && CommittedPhase(PhaseAfter(s, x, a)) ==> CommittedPhase(x.phase)
    ensures !a.TakeEnd? && PhaseAfter(s, x, a).Writing? ==>
              x.phase.Writing? && PhaseAfter(s, x, a).endTs == x.phase.endTs
    ensures a.TakeEnd? ==> !CommittedPhase(x.phase) && AccessesAfter(s, x, a) == x
  {}

  lemma {:induction false} DescribesKept<V>(s: State<V>, a: Step<V>, c: Commit<V>)
    requires Enabled(s, a) && Describes(s, c)
    ensures Describes(Do(s, a), c)
  {
    StepFrame(s, a);
    if c.tid == a.t {
      CommittedStep(s, s.txns[a.t], a);
      var x := s.txns[a.t];
      assert Do(s, a).txns[a.t] == x.(phase := PhaseAfter(s, x, a));
      assert Writes(x.(phase := PhaseAfter(s, x, a))) == Writes(x);
    }
  }

  lemma {:induction false} StepRecorded<V>(s: State<V>, a: Step<V>)
    requires Enabled(s, a) && Recorded(s)
    ensures Recorded(Do(s, a))
  {
    var s' := Do(s, a);
    forall i | 0 <= i < |s.history| ensures Describes(s', s.history[i]) {
      DescribesKept(s, a, s.history[i]);
    }
    if a.TakeEnd? {
      TakeEndRecorded(s, a.t);
    } else {
      forall t | t in s'.txns && CommittedPhase(s'.txns[t].phase) ensures HasCommit(s'.history, t) {
        if t == a.t && !a.Begin? {
          CommittedStep(s, s.txns[t], a);
        }
      }
    }
  }

  lemma {:induction false} TakeEndRecorded<V>(s: State<V>, t: TxnId)
    requires Enabled(s, TakeEnd(t)) && Recorded(s)
    requires forall i :: 0 <= i < |s.history| ==> Describes(Do(s, TakeEnd(t)), s.history[i])
    ensures Recorded(Do(s, TakeEnd(t)))
  {
    var s' := Do(s, TakeEnd(t));
    var n := |s.history|;
    var x := s.txns[t];
    assert s'.history[n] == CommitOf(t, x, s.counter);
    assert Writes(s'.txns[t]) == Writes(x);
    assert Describes(s', s'.history[n]);
    forall i | 0 <= i < |s'.history| ensures Describes(s', s'.history[i]) {
      if i < n {
        assert s'.history[i] == s.history[i];
      }
    }
    forall u | u in s'.txns && CommittedPhase(s'.txns[u].phase) ensures HasCommit(s'.history, u) {
      if u == t {
        assert s'.history[n].tid == t;
      } else {
        var i :| 0 <= i < n && s.history[i].tid == u;
        assert s'.history[i].tid == u;
      }
    }
    forall i, j | 0 <= i < j < |s'.history| ensures s'.history[i].tid != s'.history[j].tid {
      if j == n {
        assert Describes(s, s.history[i]);
      }
    }
  }

  // ----- timestamps -----

  lemma {:induction false} StartKept<V>(s: State<V>, x: Txn<V>, a: Step<V>)
    requires TxnEnabled(s, x, a)
    ensures TxnAfter(s, x, a).startTs == x.startTs
  {}

  lemma {:induction false} StepEndStamps<V>(s: State<V>, a: Step<V>)
    requires Enabled(s, a) && EndStamps(s) && StartStamps(s)
    ensures EndStamps(Do(s, a))
  {}

  lemma {:induction false} StepStartStamps<V>(s: State<V>, a: Step<V>)
    requires Enabled(s, a) && EndStamps(s) && StartStamps(s)
    ensures StartStamps(Do(s, a))
  {
    var s' := Do(s, a);
    if a.Begin? {
      StartDrawn(s, a.t, s');
    } else {
      StartKept(s, s.txns[a.t], a);
      hide TxnAfter, RowsAfter, LatchAfter;
      StartsKept(s, a.t, s');
    }
  }

  lemma {:induction false} StartDrawn<V>(s: State<V>, t: TxnId, s': State<V>)
    requires EndStamps(s) && StartStamps(s) && t !in s.txns
    requires t in s'.txns && s'.txns == s.txns[t := s'.txns[t]] && s'.txns[t].startTs == s.counter
    requires s'.counter == s.counter + 1 && s'.history == s.history
    ensures StartStamps(s')
  {}

  lemma {:induction false} StartsKept<V>(s: State<V>, t: TxnId, s': State<V>)
    requires EndStamps(s) && StartStamps(s) && t in s.txns
    requires t in s'.txns && s'.txns == s.txns[t := s'.txns[t]] && s'.txns[t].startTs == s.txns[t].startTs
    requires s'.history == s.history
             || (&& |s'.history| == |s.history| + 1 && s'.history[..|s.history|] == s.history
                 && s'.history[|s.history|].endTs == s.counter)
    requires s'.counter >= s.counter
    ensures StartStamps(s')
  {
    assert forall i :: 0 <= i < |s.history| ==> s'.history[i] == s.history[i];
  }

  lemma {:induction false} StepRowStamps<V>(s: State<V>, a: Step<V>)
    requires Enabled(s, a) && EndStamps(s) && RowStamps(s) && Recorded(s)
    ensures RowStamps(Do(s, a))
  {
    if a.Stamp? {
      var i := WritingStamp(s, a.t);
    }
  }

  /** The end timestamp of a committer in phase Writing is that of its commit record. */
  lemma {:induction false} WritingStamp<V>(s: State<V>, t: TxnId) returns (i: nat)
    requires Recorded(s) && t in s.txns && s.txns[t].phase.Writing?
    ensures i < |s.history| && s.history[i] == CommitOf(t, s.txns[t], s.txns[t].phase.endTs)
    ensures forall j :: 0 <= j < |s.history| && s.history[j].tid == t ==> j == i
  {
    assert HasCommit(s.history, t);
    i :| 0 <= i < |s.history| && s.history[i].tid == t;
    assert Describes(s, s.history[i]);
  }

  // ----- validation stays good while the latches are held -----

  /** Rows of other transactions' latches are not touched. */
  lemma {:induction false} RowsKept<V>(s: State<V>, a: Step<V>, r: RowId)
    requires Enabled(s, a) && Structure(s) && r in s.rows
    requires !(r in s.latch && s.latch[r] == a.t) || !s.txns[a.t].phase.Writing?
    ensures r in Do(s, a).rows && Do(s, a).rows[r] == s.rows[r]
  {
    if a.WriteBack? || a.Stamp? {
      var x := s.txns[a.t];
      assert TxnWf(x, s.rows.Keys);
      assert Target(x) in Held(x.phase);
      assert Holds(x, Target(x));
    }
  }

  /** What the step adds to or removes from its own transaction's validated rows. */
  lemma {:induction false} StepValidated<V>(s: State<V>, x: Txn<V>, a: Step<V>, r: RowId)
    requires TxnEnabled(s, x, a) && PhaseWf(x, s.rows.Keys)
    ensures Validated(PhaseAfter(s, x, a), r) ==>
              Validated(x.phase, r)
              || (a.Check? && r == x.phase.order[x.phase.done] && s.rows[r].wts <= x.startTs)
    ensures a.Stamp? ==> !Validated(PhaseAfter(s, x, a), Target(x))
    ensures a.WriteBack? ==> RowsAfter(s, x, a).Keys == s.rows.Keys
    ensures a.WriteBack? && r in s.rows ==> RowsAfter(s, x, a)[r].wts == s.rows[r].wts
    ensures a.Stamp? && r in s.rows && r != Target(x) ==> r in RowsAfter(s, x, a) && RowsAfter(s, x, a)[r] == s.rows[r]
  {
    var p := x.phase;
    match a
    case Check(_) =>
      assert p.order[..p.done + 1] == p.order[..p.done] + [p.order[p.done]];
    case WriteBack(_) =>
      assert p.order[..p.left] == p.order[..p.left - 1] + [p.order[p.left - 1]];
    case Stamp(_) =>
      StampedOut(p.order, p.left);
    case _ =>
  }

  lemma {:induction false} StampedOut(order: seq<RowId>, left: nat)
    requires StrictlySorted(order) && 0 < left <= |order|
    ensures order[..left] == order[..left - 1] + [order[left - 1]]
    ensures order[left - 1] !in order[..left - 1]
  {
    if order[left - 1] in order[..left - 1] {
      var j :| 0 <= j < left - 1 && order[..left - 1][j] == order[left - 1];
      SortedDistinct(order, j, left - 1);
    }
  }

  lemma {:induction false} StillValidOwn<V>(s: State<V>, a: Step<V>, r: RowId)
    requires Enabled(s, a) && Structure(s) && StillValid(s)
    requires Validated(Do(s, a).txns[a.t].phase, r)
    ensures r in Do(s, a).rows && Do(s, a).rows[r].wts <= Do(s, a).txns[a.t].startTs
  {
    var x := s.txns[a.t];
    assert TxnWf(x, s.rows.Keys);
    StepValidated(s, x, a, r);
    StartKept(s, x, a);
  }

  lemma {:induction false} StepStillValid<V>(s: State<V>, a: Step<V>)
    requires Enabled(s, a) && Structure(s) && StillValid(s)
    ensures StillValid(Do(s, a))
  {
    var s' := Do(s, a);
    StepFrame(s, a);
    hide Structure, Enabled, Do, Validated;
    forall t, r | t in s'.txns && Validated(s'.txns[t].phase, r)
      ensures r in s'.rows && s'.rows[r].wts <= s'.txns[t].startTs
    {
      if t == a.t {
        StillValidOwn(s, a, r);
      } else {
        StillValidOther(s, a, t, r);
      }
    }
  }

  lemma {:induction false} StillValidOther<V>(s: State<V>, a: Step<V>, t: TxnId, r: RowId)
    requires Enabled(s, a) && Structure(s) && StillValid(s) && t in s.txns && t != a.t && Validated(s.txns[t].phase, r)
    ensures r in Do(s, a).rows && Do(s, a).rows[r].wts <= s.txns[t].startTs
  {
    hide Structure, Enabled, Do, Validated;
    ValidatedHeld(s, t, r);
    RowsKept(s, a, r);
  }

  // ----- commits newer than the tag are still being written back -----

  lemma {:induction false} ToWriteKept<V>(s: State<V>, x: Txn<V>, a: Step<V>, r: RowId)
    requires TxnEnabled(s, x, a) && PhaseWf(x, s.rows.Keys) && ToWrite(x, r) && r in x.wset
    requires !(a.Stamp? && r == Target(x))
    ensures ToWrite(TxnAfter(s, x, a), r)
  {
    var p := x.phase;
    if a.WriteBack? || a.Stamp? {
      StampedOut(p.order, p.left);
    }
  }

  /** A row being stamped has no other commit waiting to write it. */
  lemma {:induction false} StampIsNewest<V>(s: State<V>, t: TxnId, i: nat)
    requires Enabled(s, Stamp(t)) && Structure(s) && Recorded(s) && StillValid(s) && Pending(s)
    requires i < |s.history| && Target(s.txns[t]) in s.history[i].writes
    ensures s.history[i].endTs <= s.txns[t].phase.endTs
  {
    var r := Target(s.txns[t]);
    StampTarget(s, t);
    var j := WritingStamp(s, t);
    hide Structure, Recorded, StillValid, Enabled, PhaseWf;
    if s.txns[t].phase.endTs < s.history[i].endTs {
      assert s.history[i].tid in s.txns && ToWrite(s.txns[s.history[i].tid], r);
      ValidatedHeld(s, s.history[i].tid, r);
      ValidatedHeld(s, t, r);
    }
  }

  /** The row about to be stamped is validated, so its tag is older than the end timestamp. */
  lemma {:induction false} StampTarget<V>(s: State<V>, t: TxnId)
    requires Enabled(s, Stamp(t)) && Structure(s) && StillValid(s)
    ensures Validated(s.txns[t].phase, Target(s.txns[t]))
    ensures Target(s.txns[t]) in s.rows && s.rows[Target(s.txns[t])].wts < s.txns[t].phase.endTs
  {
    hide LatchesOwned, HoldersOwn;
    var x := s.txns[t];
    assert TxnWf(x, s.rows.Keys);
    StampedOut(x.phase.order, x.phase.left);
    assert Validated(x.phase, Target(x));
  }

  lemma {:induction false} PendingOne<V>(s: State<V>, a: Step<V>, i: nat, r: RowId)
    requires Enabled(s, a) && !a.TakeEnd? && Structure(s) && Recorded(s) && StillValid(s) && Pending(s)
    requires i < |s.history| && r in s.history[i].writes && r in s.rows
    requires r in Do(s, a).rows && Do(s, a).rows[r].wts < s.history[i].endTs
    ensures s.history[i].tid in Do(s, a).txns && ToWrite(Do(s, a).txns[s.history[i].tid], r)
  {
    hide Structure, StillValid;
    if a.Stamp? && Target(s.txns[a.t]) == r {
      StampIsNewest(s, a.t, i);
    } else {
      assert s.rows[r].wts == Do(s, a).rows[r].wts;
      assert Describes(s, s.history[i]);
      ToWriteFrame(s, a, s.history[i], r);
    }
  }

  lemma {:induction false} ToWriteFrame<V>(s: State<V>, a: Step<V>, c: Commit<V>, r: RowId)
    requires Enabled(s, a) && Structure(s) && Describes(s, c) && r in c.writes && ToWrite(s.txns[c.tid], r)
    requires !(a.Stamp? && Target(s.txns[a.t]) == r)
    ensures c.tid in Do(s, a).txns && ToWrite(Do(s, a).txns[c.tid], r)
  {
    if c.tid == a.t {
      assert TxnWf(s.txns[a.t], s.rows.Keys);
      ToWriteKept(s, s.txns[a.t], a, r);
    }
  }

  lemma {:induction false} NewCommitToWrite<V>(s: State<V>, t: TxnId)
    requires Enabled(s, TakeEnd(t)) && Structure(s)
    ensures forall r :: r in Writes(s.txns[t]) ==> ToWrite(Do(s, TakeEnd(t)).txns[t], r)
  {
    hide LatchesOwned, HoldersOwn;
    var x := s.txns[t];
    assert TxnWf(x, s.rows.Keys);
    assert x.phase.order[..|x.phase.order|] == x.phase.order;
  }

  lemma {:induction false} TakeEndPending<V>(s: State<V>, t: TxnId)
    requires Enabled(s, TakeEnd(t)) && Structure(s) && Recorded(s) && Pending(s)
    ensures Pending(Do(s, TakeEnd(t)))
  {
    hide Structure, ToWrite;
    var s' := Do(s, TakeEnd(t));
    var x := s.txns[t];
    NewCommitToWrite(s, t);
    forall i, r | && 0 <= i < |s'.history| && r in s'.history[i].writes && r in s'.rows
                  && s'.rows[r].wts < s'.history[i].endTs
      ensures s'.history[i].tid in s'.txns && ToWrite(s'.txns[s'.history[i].tid], r)
    {
      if i < |s.history| {
        assert Describes(s, s.history[i]);
      } else {
        assert s'.history[i] == CommitOf(t, x, s.counter);
      }
    }
  }

  lemma {:induction false} StepPending<V>(s: State<V>, a: Step<V>)
    requires Enabled(s, a) && Structure(s) && Recorded(s) && StillValid(s) && Pending(s)
    ensures Pending(Do(s, a))
  {
    hide Structure, Recorded, StillValid;
    var s' := Do(s, a);
    StepFrame(s, a);
    if a.TakeEnd? {
      TakeEndPending(s, a.t);
    } else {
      forall i, r | && 0 <= i < |s'.history| && r in s'.history[i].writes && r in s'.rows
                    && s'.rows[r].wts < s'.history[i].endTs
        ensures s'.history[i].tid in s'.txns && ToWrite(s'.txns[s'.history[i].tid], r)
      {
        PendingOne(s, a, i, r);
      }
    }
  }

  // ----- every row holds the version its tag names -----

  lemma {:induction false} HalfKept<V>(s: State<V>, a: Step<V>, r: RowId)
    requires Enabled(s, a) && Structure(s)
    requires !((a.WriteBack? || a.Stamp?) && Target(s.txns[a.t]) == r)
    ensures HalfWritten(Do(s, a), r) <==> HalfWritten(s, r)
    ensures HalfWritten(s, r) ==>
              && s.latch[r] != a.t && Do(s, a).latch[r] == s.latch[r]
              && Do(s, a).txns[s.latch[r]] == s.txns[s.latch[r]]
  {
    StepLatch(s, a, r);
    StepFrame(s, a);
    hide Holds;
    OwnNotHalf(s, a, r);
    assert r in s.latch ==> s.latch[r] in s.txns;
    hide Structure, Enabled, Do;
  }

  /** A transaction stands between the halves of a write only around its own steps on that row. */
  lemma {:induction false} OwnNotHalf<V>(s: State<V>, a: Step<V>, r: RowId)
    requires Enabled(s, a) && Structure(s)
    requires !((a.WriteBack? || a.Stamp?) && Target(s.txns[a.t]) == r)
    ensures a.t in s.txns && r in s.latch && s.latch[r] == a.t ==> !HalfWritten(s, r)
    ensures r in Do(s, a).latch && Do(s, a).latch[r] == a.t ==> !HalfWritten(Do(s, a), r)
  {
    if !a.Begin? {
      HalfOwn(s, s.txns[a.t], a, r);
      assert TxnWf(s.txns[a.t], s.rows.Keys);
      hide Structure;
    }
  }

  lemma {:induction false} HalfOwn<V>(s: State<V>, x: Txn<V>, a: Step<V>, r: RowId)
    requires TxnEnabled(s, x, a)
    ensures PhaseAfter(s, x, a).Writing? && PhaseAfter(s, x, a).half ==> a.WriteBack? && Target(TxnAfter(s, x, a)) == Target(x)
    ensures PhaseWf(x, s.rows.Keys) && x.phase.Writing? && x.phase.half ==> a.Stamp?
  {}

  lemma {:induction false} TaggedUntouched<V>(db: map<RowId, V>, s: State<V>, a: Step<V>, r: RowId)
    requires Enabled(s, a) && Structure(s) && r in s.rows && r in db && TaggedVersion(db, s, r)
    requires s.rows[r].wts < s.counter
    requires !((a.WriteBack? || a.Stamp?) && Target(s.txns[a.t]) == r)
    ensures r in Do(s, a).rows && TaggedVersion(db, Do(s, a), r)
  {
    hide Structure, VersionAt, HalfWritten, Do, Enabled;
    HalfKept(s, a, r);
    VersionKept(db, s, a, s.rows[r].wts + 1);
    RowUntouched(s, a, r);
  }

  lemma {:induction false} RowUntouched<V>(s: State<V>, a: Step<V>, r: RowId)
    requires Enabled(s, a) && r in s.rows
    requires !((a.WriteBack? || a.Stamp?) && Target(s.txns[a.t]) == r)
    ensures r in Do(s, a).rows && Do(s, a).rows[r] == s.rows[r]
  {}

  /** Versions at or below the counter never change. */
  lemma {:induction false} VersionKept<V>(db: map<RowId, V>, s: State<V>, a: Step<V>, ts: nat)
    requires Enabled(s, a) && ts <= s.counter
    ensures VersionAt(db, Do(s, a).history, ts) == VersionAt(db, s.history, ts)
  {
    if a.TakeEnd? {
      EndedBeforeAppend(s.history, CommitOf(a.t, s.txns[a.t], s.counter), ts);
    }
  }

  lemma {:induction false} WritingHolds<V>(s: State<V>, t: TxnId)
    requires Structure(s) && t in s.txns && s.txns[t].phase.Writing?
    requires 0 < s.txns[t].phase.left <= |s.txns[t].phase.order|
    ensures
      var r := Target(s.txns[t]);
      r in s.latch && s.latch[r] == t && r in s.rows && r in s.txns[t].local
    ensures s.txns[t].phase.half ==> Target(s.txns[t]) in s.txns[t].wset
  {
    var x := s.txns[t];
    assert TxnWf(x, s.rows.Keys);
    assert Target(x) in Held(x.phase);
    assert Holds(x, Target(x));
  }

  lemma {:induction false} CommittedVersion<V>(db: map<RowId, V>, s: State<V>, i: nat, r: RowId)
    requires EndStamps(s) && i < |s.history| && r in s.history[i].writes && r in db
    ensures VersionAt(db, s.history, s.history[i].endTs + 1)[r] == s.history[i].writes[r]
  {
    VersionOfWriter(db, s.history, i, r);
  }

  lemma {:induction false} WriteBackTagged<V>(db: map<RowId, V>, s: State<V>, t: TxnId, r: RowId)
    requires Enabled(s, WriteBack(t)) && r == Target(s.txns[t]) && r in db && TaggedVersion(db, s, r)
    requires r in s.latch && s.latch[r] == t && r in s.txns[t].local
    ensures r in Do(s, WriteBack(t)).rows && TaggedVersion(db, Do(s, WriteBack(t)), r)
  {
    hide VersionAt;
  }

  lemma {:induction false} StampTagged<V>(db: map<RowId, V>, s: State<V>, t: TxnId, r: RowId, i: nat)
    requires Enabled(s, Stamp(t)) && r == Target(s.txns[t]) && r in db && TaggedVersion(db, s, r)
    requires r in s.latch && s.latch[r] == t && r in s.txns[t].local && r in s.txns[t].wset
    requires i < |s.history| && s.history[i] == CommitOf(t, s.txns[t], s.txns[t].phase.endTs)
    requires VersionAt(db, s.history, s.history[i].endTs + 1)[r] == s.history[i].writes[r]
    ensures r in Do(s, Stamp(t)).rows && TaggedVersion(db, Do(s, Stamp(t)), r)
  {
    hide VersionAt;
  }

  lemma {:induction false} TaggedAfter<V>(db: map<RowId, V>, s: State<V>, a: Step<V>, r: RowId)
    requires Enabled(s, a) && Structure(s) && Recorded(s) && EndStamps(s)
    requires r in s.rows && r in db && TaggedVersion(db, s, r) && s.rows[r].wts < s.counter
    ensures r in Do(s, a).rows && TaggedVersion(db, Do(s, a), r)
  {
    hide Structure, Recorded, EndStamps, TaggedVersion, Do;
    if a.WriteBack? && Target(s.txns[a.t]) == r {
      WritingHolds(s, a.t);
      WriteBackTagged(db, s, a.t, r);
    } else if a.Stamp? && Target(s.txns[a.t]) == r {
      WritingHolds(s, a.t);
      var i := WritingStamp(s, a.t);
      CommittedVersion(db, s, i, r);
      StampTagged(db, s, a.t, r, i);
    } else {
      TaggedUntouched(db, s, a, r);
    }
  }

  lemma {:induction false} StepTagged<V>(db: map<RowId, V>, s: State<V>, a: Step<V>)
    requires Enabled(s, a) && Structure(s) && Recorded(s) && EndStamps(s) && RowStamps(s) && Tagged(db, s)
    ensures Tagged(db, Do(s, a))
  {
    hide Structure, Recorded, EndStamps, TaggedVersion, Do, Enabled;
    StepFrame(s, a);
    forall r | r in Do(s, a).rows ensures TaggedVersion(db, Do(s, a), r) {
      TaggedAfter(db, s, a, r);
    }
  }

  // ----- what transactions read -----

  lemma {:induction false} CopyHolds<V>(s: State<V>, t: TxnId)
    requires Structure(s) && t in s.txns && s.txns[t].phase.Accessing?
    ensures var r := s.txns[t].phase.row;
            r in s.latch && s.latch[r] == t && r !in s.txns[t].seen
  {
    var x := s.txns[t];
    assert TxnWf(x, s.rows.Keys);
    assert Holds(x, x.phase.row);
  }

  /** A step adds at most the row being copied to what its transaction has read. */
  lemma {:induction false} SeenAfter<V>(s: State<V>, x: Txn<V>, a: Step<V>, r: RowId)
    requires TxnEnabled(s, x, a) && r in AccessesAfter(s, x, a).seen
    ensures (r in x.seen && AccessesAfter(s, x, a).seen[r] == x.seen[r])
            || (a.Copy? && r == x.phase.row && s.rows[r].wts <= x.startTs && AccessesAfter(s, x, a).seen[r] == s.rows[r].data)
  {}

  lemma {:induction false} SnapshotOne<V>(db: map<RowId, V>, s: State<V>, a: Step<V>, t: TxnId, r: RowId)
    requires Enabled(s, a) && Inv(db, s)
    requires t in Do(s, a).txns && r in Do(s, a).txns[t].seen
    ensures r in db && Do(s, a).txns[t].seen[r] == VersionAt(db, s.history, Do(s, a).txns[t].startTs)[r]
  {
    hide Structure, Recorded, EndStamps, StartStamps, RowStamps, Tagged, Pending, StillValid, ReadsCurrent, VersionAt;
    StepFrame(s, a);
    if t == a.t && !a.Begin? {
      var x := s.txns[t];
      StartKept(s, x, a);
      SeenAfter(s, x, a, r);
      if a.Copy? && r == x.phase.row {
        CopyHolds(s, t);
        if s.rows[r].wts <= x.startTs {
          CopyIsSnapshot(db, s, t, r);
        }
      }
    }
  }

  lemma {:induction false} StartBelowCounter<V>(s: State<V>, a: Step<V>, t: TxnId)
    requires Enabled(s, a) && StartStamps(s) && t in Do(s, a).txns
    ensures Do(s, a).txns[t].startTs <= s.counter
  {
    StepFrame(s, a);
    if t == a.t && !a.Begin? {
      StartKept(s, s.txns[t], a);
    }
  }

  lemma {:induction false} StepSnapshotReads<V>(db: map<RowId, V>, s: State<V>, a: Step<V>)
    requires Enabled(s, a) && Inv(db, s)
    ensures SnapshotReads(db, Do(s, a))
  {
    hide Inv, Do, VersionAt, Enabled;
    var s' := Do(s, a);
    forall t, r | t in s'.txns && r in s'.txns[t].seen
      ensures r in db && s'.txns[t].seen[r] == VersionAt(db, s'.history, s'.txns[t].startTs)[r]
    {
      SnapshotOne(db, s, a, t, r);
      InvStartStamps(db, s);
      StartBelowCounter(s, a, t);
      VersionKept(db, s, a, s'.txns[t].startTs);
    }
  }

  lemma {:induction false} InvStartStamps<V>(db: map<RowId, V>, s: State<V>)
    requires Inv(db, s)
    ensures StartStamps(s)
  {}

  /** At the moment a committer draws its end timestamp, everything it read is current. */
  lemma {:induction false} TakeEndReadsCurrent<V>(db: map<RowId, V>, s: State<V>, t: TxnId, r: RowId)
    requires Enabled(s, TakeEnd(t)) && Inv(db, s) && r in s.txns[t].seen
    ensures r in db && s.txns[t].seen[r] == Install(db, s.history)[r]
  {
    hide Structure, Recorded, EndStamps, StartStamps, RowStamps, Tagged, Pending, ReadsCurrent, VersionAt;
    AllValidated(s, t, r);
    ValidatedHeld(s, t, r);
    CopyIsSnapshot(db, s, t, r);
  }

  lemma {:induction false} AllValidated<V>(s: State<V>, t: TxnId, r: RowId)
    requires Enabled(s, TakeEnd(t)) && Structure(s) && r in s.txns[t].seen
    ensures Validated(s.txns[t].phase, r)
  {
    var x := s.txns[t];
    assert TxnWf(x, s.rows.Keys);
    assert x.phase.order[..|x.phase.order|] == x.phase.order;
  }

  lemma {:induction false} StepReadsCurrent<V>(db: map<RowId, V>, s: State<V>, a: Step<V>)
    requires Enabled(s, a) && Inv(db, s)
    ensures ReadsCurrent(db, Do(s, a).history)
  {
    hide Structure, Recorded, EndStamps, StartStamps, RowStamps, Tagged, Pending, StillValid, SnapshotReads, Install;
    if a.TakeEnd? {
      var h := s.history;
      var h' := Do(s, a).history;
      var c := CommitOf(a.t, s.txns[a.t], s.counter);
      assert h' == h + [c];
      forall r | r in c.seen ensures r in db && c.seen[r] == Install(db, h)[r] {
        TakeEndReadsCurrent(db, s, a.t, r);
      }
      ReadsCurrentAppend(db, h, c);
    }
  }

  lemma {:induction false} ReadsCurrentAppend<V>(db: map<RowId, V>, h: seq<Commit<V>>, c: Commit<V>)
    requires ReadsCurrent(db, h) && forall r :: r in c.seen ==> r in db && c.seen[r] == Install(db, h)[r]
    ensures ReadsCurrent(db, h + [c])
  {
    hide Install;
    var h' := h + [c];
    forall i, r | 0 <= i < |h'| && r in h'[i].seen
      ensures r in db && h'[i].seen[r] == Install(db, h'[..i])[r]
    {
      assert h'[..i] == h[..i];
      if i == |h| {
        assert h[..i] == h;
      } else {
        assert h'[i] == h[i];
      }
    }
  }

  // ----- the whole invariant, over whole runs -----

  lemma {:induction false} StepInv<V>(db: map<RowId, V>, s: State<V>, a: Step<V>)
    requires Enabled(s, a) && Inv(db, s)
    ensures Inv(db, Do(s, a))
  {
    hide Do, Enabled, Structure, Recorded, EndStamps, StartStamps, RowStamps, Tagged, Pending, StillValid, SnapshotReads, ReadsCurrent;
    StepStructure(s, a);
    StepRecorded(s, a);
    StepEndStamps(s, a);
    StepStartStamps(s, a);
    StepRowStamps(s, a);
    StepStillValid(s, a);
    StepTagged(db, s, a);
    StepPending(s, a);
    StepSnapshotReads(db, s, a);
    StepReadsCurrent(db, s, a);
  }

  /** Every state of every run satisfies the invariant. */
  lemma {:induction false} RunKeepsInv<V>(db: map<RowId, V>, s: State<V>, steps: seq<Step<V>>, s': State<V>)
    requires Inv(db, s) && Runs(s, steps, s')
    ensures Inv(db, s')
    decreases |steps|
  {
    hide Inv, Do, Enabled;
    if steps != [] {
      StepInv(db, s, steps[0]);
      RunKeepsInv(db, Do(s, steps[0]), steps[1..], s');
    }
  }

  lemma {:induction false} ReachableInv<V>(db: map<RowId, V>, steps: seq<Step<V>>, s: State<V>)
    requires Runs(Init(db), steps, s)
    ensures Inv(db, s)
  {
    hide Inv, Runs;
    InitInv(db);
    RunKeepsInv(db, Init(db), steps, s);
  }
}
