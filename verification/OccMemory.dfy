/** Shared memory as one thread sees it: between any two of its actions, the other
    transactions may take any number of steps. */
module OccMemory {
  import opened RowOrder
  import opened OccModel
  import opened OccStructure
  import opened OccVersions
  import opened OccPreserve
  import opened OccProgress

  /** The state after `steps`, none of them by `t`; the steps must be possible. */
  predicate Interferes<V>(s: State<V>, steps: seq<Step<V>>, t: TxnId)
    decreases |steps|
  {
    if steps == [] then true
    else steps[0].t != t && Enabled(s, steps[0]) && Interferes(Do(s, steps[0]), steps[1..], t)
  }

  function After<V>(s: State<V>, steps: seq<Step<V>>, t: TxnId): State<V>
    requires Interferes(s, steps, t)
    decreases |steps|
  {
    if steps == [] then s else After(Do(s, steps[0]), steps[1..], t)
  }

  lemma {:induction false} InterferenceRuns<V>(s: State<V>, steps: seq<Step<V>>, t: TxnId)
    requires Interferes(s, steps, t)
    ensures Runs(s, steps, After(s, steps, t))
    decreases |steps|
  {
    hide Do, Enabled;
    if steps != [] {
      InterferenceRuns(Do(s, steps[0]), steps[1..], t);
    }
  }

  lemma {:induction false} RunsInterfere<V>(s: State<V>, steps: seq<Step<V>>, t: TxnId, s': State<V>)
    requires Runs(s, steps, s') && Others(steps, t)
    ensures Interferes(s, steps, t) && After(s, steps, t) == s'
    decreases |steps|
  {
    hide Do, Enabled;
    if steps != [] {
      RunsInterfere(Do(s, steps[0]), steps[1..], t, s');
    }
  }

  /** What interference leaves alone: the transaction itself, its latches, the rows under
      its latches, and the set of rows. */
  ghost predicate Undisturbed<V>(s: State<V>, t: TxnId, s': State<V>) {
    && (t in s.txns <==> t in s'.txns)
    && (t in s.txns ==> s'.txns[t] == s.txns[t])
    && s'.rows.Keys == s.rows.Keys
    && (forall r :: r in s.latch && s.latch[r] == t && r in s.rows ==> r in s'.latch && s'.latch[r] == t && s'.rows[r] == s.rows[r])
    && s.counter <= s'.counter
  }

  lemma {:induction false} OthersStep<V>(s: State<V>, a: Step<V>, t: TxnId)
    requires Structure(s) && Enabled(s, a) && a.t != t
    ensures Undisturbed(s, t, Do(s, a))
  {
    StepFrame(s, a);
    forall r | r in s.latch && s.latch[r] == t && r in s.rows
      ensures r in Do(s, a).latch && Do(s, a).latch[r] == t && Do(s, a).rows[r] == s.rows[r]
    {
      StepLatch(s, a, r);
      RowsKept(s, a, r);
    }
  }

  lemma {:induction false} InterferenceFrame<V>(db: map<RowId, V>, s: State<V>, steps: seq<Step<V>>, t: TxnId)
    requires Inv(db, s) && Interferes(s, steps, t)
    ensures Inv(db, After(s, steps, t)) && Undisturbed(s, t, After(s, steps, t))
    decreases |steps|
  {
    if steps != [] {
      InvStructure(db, s);
      var m := Do(s, steps[0]);
      hide Inv, Do, Enabled, Structure, Undisturbed;
      OthersStep(s, steps[0], t);
      StepInv(db, s, steps[0]);
      InterferenceFrame(db, m, steps[1..], t);
      UndisturbedTwice(s, t, m, After(s, steps, t));
    } else {
      hide Inv;
    }
  }

  lemma {:induction false} UndisturbedTwice<V>(s: State<V>, t: TxnId, m: State<V>, s': State<V>)
    requires Undisturbed(s, t, m) && Undisturbed(m, t, s')
    ensures Undisturbed(s, t, s')
  {}

  lemma {:induction false} InvStructure<V>(db: map<RowId, V>, s: State<V>)
    requires Inv(db, s)
    ensures Structure(s)
  {}

  /** The memory shared by all transactions.  `trace` records every step taken since the
      engine was started on database `db`. */
  class Memory<V(==)> {
    var s: State<V>
    ghost const db: map<RowId, V>
    ghost var trace: seq<Step<V>>

    ghost predicate Valid()
      reads this
    {
      Inv(db, s) && Runs(Init(db), trace, s)
    }

    constructor (rows: map<RowId, V>)
      ensures Valid() && s == Init(rows) && db == rows
    {
      s := Init(rows);
      db := rows;
      trace := [];
      InitInv(rows);
    }

    /** The other transactions run for a while. */
    method Yield(t: TxnId)
      requires Valid()
      modifies this
      ensures Valid() && old(trace) <= trace && Undisturbed(old(s), t, s)
    {
      assert Interferes(s, [], t);
      var steps :| Interferes(s, steps, t);
      Take(t, steps);
    }

    /** The other transactions run until nobody holds the latch `t` wants. */
    method YieldUntilFree(t: TxnId)
      requires Valid() && t in s.txns && Waiting(s.txns[t].phase)
      modifies this
      ensures Valid() && old(trace) <= trace && Undisturbed(old(s), t, s)
      ensures Wanted(s.txns[t].phase) !in s.latch
    {
      ghost var path, free := Freed(t);
      var steps :| Interferes(s, steps, t) && Wanted(s.txns[t].phase) !in After(s, steps, t).latch;
      Take(t, steps);
    }

    lemma {:induction false} Freed(t: TxnId) returns (path: seq<Step<V>>, free: State<V>)
      requires Valid() && t in s.txns && Waiting(s.txns[t].phase)
      ensures Interferes(s, path, t) && Wanted(s.txns[t].phase) !in After(s, path, t).latch
    {
      InvStructure(db, s);
      hide Inv, Runs, Structure, Wanted, Waiting;
      path, free := LatchComesFree(s, t);
      RunsInterfere(s, path, t, free);
    }

    method Take(t: TxnId, steps: seq<Step<V>>)
      requires Valid() && Interferes(s, steps, t)
      modifies this
      ensures Valid() && trace == old(trace) + steps
      ensures s == After(old(s), steps, t) && Undisturbed(old(s), t, s)
    {
      hide Inv, Interferes, Runs, Undisturbed;
      InterferenceFrame(db, s, steps, t);
      InterferenceRuns(s, steps, t);
      RunsAppend(Init(db), trace, s, steps, After(s, steps, t));
      s := After(s, steps, t);
      trace := trace + steps;
    }

    /** One step of a transaction, taken right now. */
    method Act(a: Step<V>)
      requires Valid() && Enabled(s, a)
      modifies this
      ensures Valid() && trace == old(trace) + [a] && s == Do(old(s), a)
    {
      hide Inv, Enabled, Do, Runs;
      StepInv(db, s, a);
      OneStep(s, a);
      RunsAppend(Init(db), trace, s, [a], Do(s, a));
      s := Do(s, a);
      trace := trace + [a];
    }
  }

  lemma {:induction false} OneStep<V>(s: State<V>, a: Step<V>)
    requires Enabled(s, a)
    ensures Runs(s, [a], Do(s, a))
  {
    hide Enabled, Do;
    assert [a][1..] == [];
  }
}
