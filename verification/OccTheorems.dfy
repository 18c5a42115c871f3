/** What the engine guarantees over every run of every set of transactions. */
module OccTheorems {
  import opened RowOrder
  import opened OccModel
  import opened OccSerial
  import opened OccStructure
  import opened OccVersions
  import opened OccPreserve
  import opened OccOps

  // ----- serializability -----

  /** Replaying one transaction on a database that agrees with its first copies is legal and
      amounts to installing its write set. */
  lemma {:induction false} ReplayOne<V>(base: map<RowId, V>, x: Txn<V>)
    requires OpsOk(x) && AccessSetWf(x)
    requires x.seen.Keys <= base.Keys && forall r :: r in x.seen ==> base[r] == x.seen[r]
    ensures Legal(base, x.ops)
    ensures Exec(base, x.ops) == base + Writes(x)
  {
    hide Legal, Exec;
    LegalFrame(x.seen, base, x.ops);
    OverlayWrites(base, x);
  }

  lemma {:induction false} OverlayWrites<V>(base: map<RowId, V>, x: Txn<V>)
    requires x.local.Keys <= base.Keys && x.wset <= x.local.Keys
    requires forall r :: r in x.local && r !in x.wset ==> x.local[r] == base[r]
    ensures base + x.local == base + Writes(x)
  {}

  lemma {:induction false} SerialPrefix<V>(db: map<RowId, V>, s: State<V>, n: nat)
    requires Inv(db, s) && AllOpsOk(s) && n <= |s.history|
    ensures SerialLegal(db, s.history[..n])
    ensures Replay(db, s.history[..n]) == Install(db, s.history[..n])
  {
    hide Inv, AllOpsOk, Legal, Exec, OpsOk;
    if n > 0 {
      SerialPrefix(db, s, n - 1);
      var c := s.history[n - 1];
      assert s.history[..n][..n - 1] == s.history[..n - 1];
      CommitDescribed(db, s, n - 1);
      ReplayOne(Install(db, s.history[..n - 1]), s.txns[c.tid]);
    }
  }

  lemma {:induction false} CommitDescribed<V>(db: map<RowId, V>, s: State<V>, i: nat)
    requires Inv(db, s) && AllOpsOk(s) && i < |s.history|
    ensures
      var c := s.history[i];
      && c.tid in s.txns && OpsOk(s.txns[c.tid]) && AccessSetWf(s.txns[c.tid])
      && c.seen == s.txns[c.tid].seen && c.writes == Writes(s.txns[c.tid]) && c.ops == s.txns[c.tid].ops
      && c.seen.Keys <= Install(db, s.history[..i]).Keys
      && forall r :: r in c.seen ==> Install(db, s.history[..i])[r] == c.seen[r]
  {
    hide Tagged, Pending, StillValid, SnapshotReads, EndStamps, StartStamps, RowStamps, Install;
    var c := s.history[i];
    assert Describes(s, c);
    assert TxnWf(s.txns[c.tid], s.rows.Keys);
    forall r | r in c.seen ensures r in db && Install(db, s.history[..i])[r] == c.seen[r] {
      assert r in s.history[i].seen;
    }
  }

  /** A row that no committer is writing back holds the latest version. */
  lemma {:induction false} QuietRow<V>(db: map<RowId, V>, s: State<V>, r: RowId)
    requires Inv(db, s) && r in db
    requires r in s.latch ==> !s.txns[s.latch[r]].phase.Writing?
    ensures r in s.rows && s.rows[r].data == Install(db, s.history)[r]
  {
    hide Recorded, EndStamps, StartStamps, RowStamps, StillValid, SnapshotReads, ReadsCurrent, VersionAt;
    assert TaggedVersion(db, s, r);
    forall i | 0 <= i < |s.history| && r in s.history[i].writes
      ensures s.history[i].endTs < s.rows[r].wts + 1
    {
      if s.rows[r].wts < s.history[i].endTs {
        ValidatedHeld(s, s.history[i].tid, r);
      }
    }
    LastVersion(db, s.history, s.rows[r].wts + 1, r);
  }

  /** Serializability.  In every interleaving, the committed transactions run one after
      another in end-timestamp order read exactly what they returned, and every row that is
      not being written back equals the outcome of that serial execution. */
  lemma {:induction false} Serializable<V>(db: map<RowId, V>, steps: seq<Step<V>>, s: State<V>)
    requires Runs(Init(db), steps, s) && UniqueKeys(db.Keys)
    ensures EndOrdered(s.history)
    ensures SerialLegal(db, s.history)
    ensures s.rows.Keys == db.Keys == Replay(db, s.history).Keys
    ensures forall r :: r in db && (r in s.latch && s.latch[r] in s.txns ==> !s.txns[s.latch[r]].phase.Writing?) ==>
              s.rows[r].data == Replay(db, s.history)[r]
  {
    ReachableInv(db, steps, s);
    ReachableOps(db, steps, s);
    assert s.history[..|s.history|] == s.history;
    SerialPrefix(db, s, |s.history|);
    InstallKeys(db, s, |s.history|);
    hide Recorded, StartStamps, RowStamps, StillValid, SnapshotReads, ReadsCurrent, Pending, Runs, Install;
    forall r | r in db && (r in s.latch && s.latch[r] in s.txns ==> !s.txns[s.latch[r]].phase.Writing?)
      ensures s.rows[r].data == Replay(db, s.history)[r]
    {
      QuietRow(db, s, r);
    }
  }

  lemma {:induction false} InstallKeys<V>(db: map<RowId, V>, s: State<V>, n: nat)
    requires Inv(db, s) && n <= |s.history|
    ensures Install(db, s.history[..n]).Keys == db.Keys
  {
    if n > 0 {
      InstallKeys(db, s, n - 1);
      var c := s.history[n - 1];
      assert s.history[..n][..n - 1] == s.history[..n - 1];
      hide EndStamps, StartStamps, RowStamps, StillValid, SnapshotReads, ReadsCurrent, Pending;
      assert Describes(s, c);
      assert TxnWf(s.txns[c.tid], s.rows.Keys);
      assert c.writes.Keys <= db.Keys;
    }
  }

  // ----- when serializability fails -----

  /** Two rows with one primary key are enough for a single transaction to break
      serializability: it writes the first and is handed that copy when it reads the second. */
  ghost function SharedKeyRun<V>(r1: RowId, r2: RowId, v: V): seq<Step<V>> {
    [Begin(0), Want(0, r1, true), Lock(0), Copy(0), Unlock(0), WriteLocal(0, r1, v), ReadLocal(0, r2)]
    + [BeginCommit(0, [r1]), Latch(0), Check(0), TakeEnd(0)]
  }

  lemma {:induction false} SharedKeyBreaks<V>(db: map<RowId, V>, r1: RowId, r2: RowId, v: V) returns (s: State<V>)
    requires r1 in db && r2 in db && r1 != r2 && r1.key == r2.key && db[r2] != v
    ensures Runs(Init(db), SharedKeyRun(r1, r2, v), s)
    ensures !SerialLegal(db, s.history)
  {
    var m := SharedKeyBody(db, r1, r2, v);
    var x := m.txns[0];
    assert CommitOrder(x, [r1]);
    var m1 := Do(m, BeginCommit(0, [r1]));
    var m2 := Do(m1, Latch(0));
    var m3 := Do(m2, Check(0));
    s := Do(m3, TakeEnd(0));
    FourSteps(m, BeginCommit(0, [r1]), m1, Latch(0), m2, Check(0), m3, TakeEnd(0), s);
    RunsAppend(Init(db),
               [Begin(0), Want(0, r1, true), Lock(0), Copy(0), Unlock(0), WriteLocal(0, r1, v), ReadLocal(0, r2)],
               m, [BeginCommit(0, [r1]), Latch(0), Check(0), TakeEnd(0)], s);
    hide Runs, Do;
    assert s.history == [CommitOf(0, x, 2)];
    MisreadIllegal(db, r1, r2, v);
    assert s.history[..0] == [];
    assert !Legal(Replay(db, []), s.history[0].ops);
  }

  lemma {:induction false} MisreadIllegal<V>(db: map<RowId, V>, r1: RowId, r2: RowId, v: V)
    requires r1 in db && r2 in db && r1 != r2 && db[r2] != v
    ensures !Legal(db, [Write(r1, v), Read(r2, v)])
  {
    var ops := [Write(r1, v), Read(r2, v)];
    assert ops[1..] == [Read(r2, v)];
    assert !Legal(db[r1 := v], ops[1..]);
  }

  lemma {:induction false} FourSteps<V>(
      m: State<V>, a: Step<V>, m1: State<V>, b: Step<V>, m2: State<V>, c: Step<V>, m3: State<V>, d: Step<V>, m4: State<V>)
    requires Enabled(m, a) && m1 == Do(m, a) && Enabled(m1, b) && m2 == Do(m1, b)
    requires Enabled(m2, c) && m3 == Do(m2, c) && Enabled(m3, d) && m4 == Do(m3, d)
    ensures Runs(m, [a, b, c, d], m4)
  {
    hide Do, Enabled;
    assert [a, b, c, d][1..] == [b, c, d];
    assert [b, c, d][1..] == [c, d];
    assert [c, d][1..] == [d];
    assert Runs(m3, [d], m4);
    assert Runs(m2, [c, d], m4);
    assert Runs(m1, [b, c, d], m4);
  }

  /** The first access of `r1` in that run. */
  lemma {:induction false} SharedKeyOpen<V>(db: map<RowId, V>, r1: RowId) returns (m: State<V>)
    requires r1 in db
    ensures Runs(Init(db), [Begin(0), Want(0, r1, true), Lock(0), Copy(0)], m)
    ensures m.counter == 2 && m.rows == Init(db).rows && m.latch == map[r1 := 0] && m.history == []
    ensures m.txns == map[0 := Txn(1, map[r1 := db[r1]], map[r1 := db[r1]], {r1}, map[r1.key := r1], [], Leaving(r1))]
  {
    var i := Init(db);
    var m1 := Do(i, Begin(0));
    assert m1.txns == map[0 := Txn(1, map[], map[], {}, map[], [], Active)];
    var m2 := Do(m1, Want(0, r1, true));
    assert m2.txns == map[0 := Txn(1, map[], map[], {}, map[], [], Wanting(r1, true))];
    var m3 := Do(m2, Lock(0));
    assert m3.txns == map[0 := Txn(1, map[], map[], {}, map[], [], Accessing(r1, true))];
    m := Do(m3, Copy(0));
    var x := TxnAfter(m3, m3.txns[0], Copy(0));
    assert x == Txn(1, map[r1 := db[r1]], map[r1 := db[r1]], {r1}, map[r1.key := r1], [], Leaving(r1));
    assert m.txns == m3.txns[0 := x];
    FourSteps(i, Begin(0), m1, Want(0, r1, true), m2, Lock(0), m3, Copy(0), m);
  }

  /** The client's part of that run, up to the commit request. */
  lemma {:induction false} SharedKeyBody<V>(db: map<RowId, V>, r1: RowId, r2: RowId, v: V) returns (m: State<V>)
    requires r1 in db && r2 in db && r1 != r2 && r1.key == r2.key
    ensures Runs(Init(db),
                 [Begin(0), Want(0, r1, true), Lock(0), Copy(0), Unlock(0), WriteLocal(0, r1, v), ReadLocal(0, r2)], m)
    ensures m.counter == 2 && m.latch == map[] && m.history == [] && 0 in m.txns && r1 in m.rows && m.rows[r1].wts == 0
    ensures
      var x := m.txns[0];
      x.phase.Active? && x.startTs == 1 && x.local.Keys == {r1} && x.ops == [Write(r1, v), Read(r2, v)]
  {
    var m4 := SharedKeyOpen(db, r1);
    m := SharedKeyUse(m4, r1, r2, v);
    RunsAppend(Init(db), [Begin(0), Want(0, r1, true), Lock(0), Copy(0)], m4,
               [Unlock(0), WriteLocal(0, r1, v), ReadLocal(0, r2)], m);
    hide Runs;
    assert [Begin(0), Want(0, r1, true), Lock(0), Copy(0)] + [Unlock(0), WriteLocal(0, r1, v), ReadLocal(0, r2)]
        == [Begin(0), Want(0, r1, true), Lock(0), Copy(0), Unlock(0), WriteLocal(0, r1, v), ReadLocal(0, r2)];
  }

  lemma {:induction false} SharedKeyUse<V>(m4: State<V>, r1: RowId, r2: RowId, v: V) returns (m: State<V>)
    requires r1 in m4.rows && r2 in m4.rows && r1.key == r2.key && m4.latch == map[r1 := 0] && 0 in m4.txns
    requires m4.txns[0].local.Keys == {r1} && m4.txns[0].pos == map[r1.key := r1]
    requires m4.txns[0].phase == Leaving(r1) && m4.txns[0].ops == []
    ensures Runs(m4, [Unlock(0), WriteLocal(0, r1, v), ReadLocal(0, r2)], m)
    ensures m.counter == m4.counter && m.latch == map[] && m.history == m4.history && m.rows == m4.rows && 0 in m.txns
    ensures
      var x := m.txns[0];
      && x.phase.Active? && x.startTs == m4.txns[0].startTs && x.local.Keys == {r1}
      && x.ops == [Write(r1, v), Read(r2, v)]
  {
    var m5 := Do(m4, Unlock(0));
    var m6 := Do(m5, WriteLocal(0, r1, v));
    m := Do(m6, ReadLocal(0, r2));
    ThreeSteps(m4, Unlock(0), m5, WriteLocal(0, r1, v), m6, ReadLocal(0, r2), m);
  }

  lemma {:induction false} ThreeSteps<V>(m: State<V>, a: Step<V>, m1: State<V>, b: Step<V>, m2: State<V>, c: Step<V>, m3: State<V>)
    requires Enabled(m, a) && m1 == Do(m, a) && Enabled(m1, b) && m2 == Do(m1, b)
    requires Enabled(m2, c) && m3 == Do(m2, c)
    ensures Runs(m, [a, b, c], m3)
  {
    hide Do, Enabled;
    assert [a, b, c][1..] == [b, c];
    assert [b, c][1..] == [c];
    assert Runs(m2, [c], m3);
    assert Runs(m1, [b, c], m3);
  }

  /** Exactly when every run is serializable: no two rows of the database share a primary key. */
  lemma {:induction false} SerializableIffUniqueKeys<V>(db: map<RowId, V>, v1: V, v2: V)
    requires v1 != v2
    ensures UniqueKeys(db.Keys) <==>
            (forall steps: seq<Step<V>>, s: State<V> :: Runs(Init(db), steps, s) ==> SerialLegal(db, s.history))
  {
    hide Runs, SerialLegal;
    if UniqueKeys(db.Keys) {
      forall steps: seq<Step<V>>, s: State<V> | Runs(Init(db), steps, s)
        ensures SerialLegal(db, s.history)
      {
        Serializable(db, steps, s);
      }
    } else {
      var r1, r2 :| r1 in db && r2 in db && r1.key == r2.key && r1 != r2;
      var v := if db[r2] == v1 then v2 else v1;
      var s := SharedKeyBreaks(db, r1, r2, v);
    }
  }

  // ----- snapshot reads -----

  /** Every transaction, committed or not, in every phase, reads from one snapshot: the
      version produced by exactly the commits that ended before it started. */
  lemma {:induction false} SnapshotForEveryone<V>(db: map<RowId, V>, steps: seq<Step<V>>, s: State<V>, t: TxnId)
    requires Runs(Init(db), steps, s) && t in s.txns
    ensures forall r :: r in s.txns[t].seen ==>
              r in db && s.txns[t].seen[r] == VersionAt(db, s.history, s.txns[t].startTs)[r]
    ensures UniqueKeys(db.Keys) ==> Legal(VersionAt(db, s.history, s.txns[t].startTs), s.txns[t].ops)
  {
    ReachableInv(db, steps, s);
    hide Recorded, EndStamps, StartStamps, RowStamps, Tagged, Pending, StillValid, ReadsCurrent, VersionAt, Runs, Structure;
    if UniqueKeys(db.Keys) {
      ReachableOps(db, steps, s);
      assert OpsOk(s.txns[t]);
      LegalFrame(s.txns[t].seen, VersionAt(db, s.history, s.txns[t].startTs), s.txns[t].ops);
    }
  }

  /** The snapshot of a transaction that starts now contains every commit made so far, so the
      serial order respects real time. */
  lemma {:induction false} BeginSeesAllCommits<V>(db: map<RowId, V>, steps: seq<Step<V>>, s: State<V>, t: TxnId)
    requires Runs(Init(db), steps, s) && t !in s.txns
    ensures EndedBefore(s.history, Do(s, Begin(t)).txns[t].startTs) == s.history
  {
    ReachableInv(db, steps, s);
    hide Recorded, StartStamps, RowStamps, Tagged, Pending, StillValid, ReadsCurrent, SnapshotReads, Structure, Runs;
    EndedBeforeAll(s.history, s.counter);
  }

  // ----- timestamps -----

  /** The assertion `ts > wts` in `Row_occ::write` never fires. */
  lemma {:induction false} StampIsNewer<V>(db: map<RowId, V>, steps: seq<Step<V>>, s: State<V>, t: TxnId)
    requires Runs(Init(db), steps, s) && t in s.txns
    requires s.txns[t].phase.Writing? && 0 < s.txns[t].phase.left <= |s.txns[t].phase.order|
    ensures Target(s.txns[t]) in s.rows
    ensures s.txns[t].phase.endTs > s.rows[Target(s.txns[t])].wts
  {
    ReachableInv(db, steps, s);
    hide Recorded, EndStamps, StartStamps, RowStamps, Tagged, Pending, ReadsCurrent, SnapshotReads, Runs;
    var x := s.txns[t];
    assert TxnWf(x, s.rows.Keys);
    StampedOut(x.phase.order, x.phase.left);
    assert Validated(x.phase, Target(x));
  }

  /** A step changes a row only if it belongs to a committer that holds the row's latch and
      has the row marked WR; the row then takes the committer's copy and, last, its end
      timestamp.  Write timestamps never go back. */
  lemma {:induction false} OnlyCommittersWrite<V>(db: map<RowId, V>, steps: seq<Step<V>>, s: State<V>, a: Step<V>, r: RowId)
    requires Runs(Init(db), steps, s) && Enabled(s, a) && r in s.rows
    ensures r in Do(s, a).rows && s.rows[r].wts <= Do(s, a).rows[r].wts
    ensures Do(s, a).rows[r] != s.rows[r] ==> CommitterWrites(s, a.t, r, Do(s, a).rows[r])
  {
    ReachableInv(db, steps, s);
    hide Inv, Runs, Do, Enabled;
    if a.WriteBack? || a.Stamp? {
      WriterPhase(s, a);
      WriterStep(db, s, a);
      StampIsNewer(db, steps, s, a.t);
      WrittenRow(s, a, r);
    } else {
      RowUntouched(s, a, r);
    }
  }

  ghost predicate CommitterWrites<V>(s: State<V>, t: TxnId, r: RowId, v: Versioned<V>) {
    && r in s.latch && s.latch[r] == t && t in s.txns
    && var x := s.txns[t];
       && x.phase.Writing? && HasCommit(s.history, t)
       && r in x.wset && r in x.local && v.data == x.local[r]
       && r in s.rows && (v.wts != s.rows[r].wts ==> v.wts == x.phase.endTs && s.rows[r].data == x.local[r])
  }

  lemma {:induction false} WriterPhase<V>(s: State<V>, a: Step<V>)
    requires Enabled(s, a) && (a.WriteBack? || a.Stamp?)
    ensures a.t in s.txns && s.txns[a.t].phase.Writing? && 0 < s.txns[a.t].phase.left <= |s.txns[a.t].phase.order|
  {}

  lemma {:induction false} WrittenRow<V>(s: State<V>, a: Step<V>, r: RowId)
    requires Enabled(s, a) && (a.WriteBack? || a.Stamp?) && r in s.rows && WriterHolds(s, a)
    requires s.txns[a.t].phase.endTs > s.rows[Target(s.txns[a.t])].wts
    ensures r in Do(s, a).rows && s.rows[r].wts <= Do(s, a).rows[r].wts
    ensures Do(s, a).rows[r] != s.rows[r] ==> CommitterWrites(s, a.t, r, Do(s, a).rows[r])
  {}

  ghost predicate WriterHolds<V>(s: State<V>, a: Step<V>)
    requires Enabled(s, a) && (a.WriteBack? || a.Stamp?)
  {
    var x := s.txns[a.t];
    var r := Target(x);
    && r in s.latch && s.latch[r] == a.t && r in x.local && HasCommit(s.history, a.t)
    && (a.Stamp? ==> r in x.wset && s.rows[r].data == x.local[r])
  }

  lemma {:induction false} WriterStep<V>(db: map<RowId, V>, s: State<V>, a: Step<V>)
    requires Inv(db, s) && Enabled(s, a) && (a.WriteBack? || a.Stamp?)
    ensures WriterHolds(s, a)
  {
    hide Structure, Recorded, EndStamps, StartStamps, RowStamps, Pending, StillValid, ReadsCurrent, SnapshotReads, Tagged;
    WritingHolds(s, a.t);
    var i := WritingStamp(s, a.t);
    if a.Stamp? {
      HalfData(db, s, a.t, Target(s.txns[a.t]));
    }
  }

  lemma {:induction false} HalfData<V>(db: map<RowId, V>, s: State<V>, t: TxnId, r: RowId)
    requires Tagged(db, s) && r in s.rows && r in s.latch && s.latch[r] == t && t in s.txns
    requires s.txns[t].phase.Writing? && s.txns[t].phase.half && 0 < s.txns[t].phase.left <= |s.txns[t].phase.order|
    requires Target(s.txns[t]) == r && r in s.txns[t].local
    ensures s.rows[r].data == s.txns[t].local[r]
  {
    hide VersionAt;
    assert TaggedVersion(db, s, r);
  }

  // ----- all or nothing -----

  /** Once the write-back is over, all of a commit's writes are in place or overwritten by
      later commits; a transaction that did not commit appears nowhere in the history. */
  lemma {:induction false} AllOrNothing<V>(db: map<RowId, V>, steps: seq<Step<V>>, s: State<V>, t: TxnId)
    requires Runs(Init(db), steps, s) && t in s.txns
    ensures CommittedPhase(s.txns[t].phase) <==> HasCommit(s.history, t)
    ensures forall i, r ::
              (&& 0 <= i < |s.history| && s.history[i].tid == t && r in s.history[i].writes
               && !s.txns[t].phase.Writing?) ==>
                r in s.rows && s.rows[r].wts >= s.history[i].endTs
    ensures forall i :: 0 <= i < |s.history| && s.history[i].tid == t ==> s.history[i].writes == Writes(s.txns[t])
  {
    ReachableInv(db, steps, s);
    hide EndStamps, StartStamps, RowStamps, StillValid, ReadsCurrent, SnapshotReads, Tagged, Runs;
    hide TxnsWf, LatchesOwned, HoldersOwn, Pending;
    forall i | 0 <= i < |s.history| && s.history[i].tid == t
      ensures CommittedPhase(s.txns[t].phase) && s.history[i].writes == Writes(s.txns[t])
    {
      assert Describes(s, s.history[i]);
    }
    forall i, r | && 0 <= i < |s.history| && s.history[i].tid == t && r in s.history[i].writes
                  && !s.txns[t].phase.Writing?
      ensures r in s.rows && s.rows[r].wts >= s.history[i].endTs
    {
      WritesInPlace(s, t, i, r);
    }
  }

  lemma {:induction false} WritesInPlace<V>(s: State<V>, t: TxnId, i: nat, r: RowId)
    requires TxnsWf(s) && Recorded(s) && Pending(s) && t in s.txns && !s.txns[t].phase.Writing?
    requires i < |s.history| && s.history[i].tid == t && r in s.history[i].writes
    ensures r in s.rows && s.rows[r].wts >= s.history[i].endTs
  {
    assert Describes(s, s.history[i]);
    assert TxnWf(s.txns[t], s.rows.Keys);
    hide PhaseWf;
    assert !ToWrite(s.txns[t], r);
  }
}
