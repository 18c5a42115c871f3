/** Deadlock freedom.

    Committers latch in strictly increasing row order and an access holds no other latch,
    so chains of waiting transactions climb in that order and must end. */
module OccProgress {
  import opened RowOrder
  import opened OccModel
  import opened OccStructure

  /** Inside an engine call: the client is waiting for it to return. */
  predicate Busy(p: Phase) {
    !p.Active? && !p.Finished?
  }

  /** About to block on a row latch. */
  predicate Waiting(p: Phase) {
    p.Wanting? || (p.Latching? && p.done < |p.order|)
  }

  function Wanted(p: Phase): RowId
    requires Waiting(p)
  {
    if p.Wanting? then p.row else p.order[p.done]
  }

  predicate Blocked<V>(s: State<V>, t: TxnId) {
    t in s.txns && Waiting(s.txns[t].phase) && Wanted(s.txns[t].phase) in s.latch
  }

  predicate WaitsFor<V>(s: State<V>, t: TxnId, u: TxnId) {
    Blocked(s, t) && s.latch[Wanted(s.txns[t].phase)] == u
  }

  /** The one engine step a busy transaction takes next. */
  function NextStep<V>(t: TxnId, p: Phase): Step<V>
    requires Busy(p)
  {
    match p
    case Wanting(_, _) => Lock(t)
    case Accessing(_, _) => Copy(t)
    case Leaving(_) => Unlock(t)
    case Latching(order, done) => if done < |order| then Latch(t) else TakeEnd(t)
    case Checking(_, _) => Check(t)
    case Writing(_, _, left, half) => if left == 0 then EndWrite(t) else if half then Stamp(t) else WriteBack(t)
    case Releasing(_, next, upto, _) => if next < upto then Release(t) else Finish(t)
  }

  /** The engine steps a transaction still has to take before its call returns. */
  function Work(p: Phase): int {
    match p
    case Active => 0
    case Finished(_) => 0
    case Wanting(_, _) => 3
    case Accessing(_, _) => 2
    case Leaving(_) => 1
    case Latching(order, done) => 2 * (|order| - done) + 3 * |order| + 3
    case Checking(order, done) => 2 * (|order| - done) + 3 * |order| + 2
    case Writing(order, _, left, half) => 2 * left + |order| + 2 - if half then 1 else 0
    case Releasing(_, next, upto, _) => upto - next + 1
  }

  // ----- waiting chains climb -----

  /** If `t` waits for `u` and `u` waits too, then `u` wants a later row. */
  lemma {:induction false} WaitsClimb<V>(s: State<V>, t: TxnId, u: TxnId)
    requires Structure(s) && WaitsFor(s, t, u) && u in s.txns && Waiting(s.txns[u].phase)
    ensures Before(Wanted(s.txns[t].phase), Wanted(s.txns[u].phase))
  {
    var r := Wanted(s.txns[t].phase);
    var p := s.txns[u].phase;
    assert Holds(s.txns[u], r);
    HeldBelowWanted(s, u, r);
  }

  /** A waiting transaction holds only rows before the one it wants. */
  lemma {:induction false} HeldBelowWanted<V>(s: State<V>, u: TxnId, r: RowId)
    requires TxnsWf(s) && u in s.txns && Waiting(s.txns[u].phase) && r in Held(s.txns[u].phase)
    ensures Before(r, Wanted(s.txns[u].phase))
  {
    var p := s.txns[u].phase;
    assert TxnWf(s.txns[u], s.rows.Keys);
    var i :| 0 <= i < p.done && p.order[i] == r;
    assert Before(p.order[i], p.order[p.done]);
  }

  ghost predicate WaitPath<V>(s: State<V>, path: seq<TxnId>) {
    forall i :: 0 <= i < |path| - 1 ==> WaitsFor(s, path[i], path[i + 1])
  }

  lemma {:induction false} PathClimbs<V>(s: State<V>, path: seq<TxnId>)
    requires Structure(s) && WaitPath(s, path) && |path| >= 2
    requires path[|path| - 1] in s.txns && Waiting(s.txns[path[|path| - 1]].phase)
    ensures path[0] in s.txns && Waiting(s.txns[path[0]].phase)
    ensures Before(Wanted(s.txns[path[0]].phase), Wanted(s.txns[path[|path| - 1]].phase))
  {
    var n := |path|;
    hide Structure, Wanted, Waiting;
    assert WaitsFor(s, path[n - 2], path[n - 1]);
    WaitsClimb(s, path[n - 2], path[n - 1]);
    if n > 2 {
      assert WaitPath(s, path[..n - 1]);
      PathClimbs(s, path[..n - 1]);
      BeforeTransitive(Wanted(s.txns[path[0]].phase), Wanted(s.txns[path[n - 2]].phase), Wanted(s.txns[path[n - 1]].phase));
    }
  }

  /** The waits-for relation has no cycle in any reachable state. */
  lemma {:induction false} NoWaitCycle<V>(db: map<RowId, V>, steps: seq<Step<V>>, s: State<V>, path: seq<TxnId>)
    requires Runs(Init(db), steps, s)
    requires WaitPath(s, path) && |path| >= 2
    ensures path[0] != path[|path| - 1]
  {
    ReachableStructure(db, steps, s);
    assert WaitsFor(s, path[0], path[1]);
    if path[0] == path[|path| - 1] {
      PathClimbs(s, path);
      BeforeIrreflexive(Wanted(s.txns[path[0]].phase));
    }
  }

  lemma {:induction false} RunKeepsStructure<V>(s: State<V>, steps: seq<Step<V>>, s': State<V>)
    requires Structure(s) && Runs(s, steps, s')
    ensures Structure(s')
    decreases |steps|
  {
    hide Structure, Do, Enabled;
    if steps != [] {
      StepStructure(s, steps[0]);
      RunKeepsStructure(Do(s, steps[0]), steps[1..], s');
    }
  }

  lemma {:induction false} ReachableStructure<V>(db: map<RowId, V>, steps: seq<Step<V>>, s: State<V>)
    requires Runs(Init(db), steps, s)
    ensures Structure(s)
  {
    InitStructure(db);
    RunKeepsStructure(Init(db), steps, s);
  }

  // ----- somebody can always move -----

  lemma {:induction false} UnblockedMoves<V>(s: State<V>, t: TxnId)
    requires Structure(s) && t in s.txns && Busy(s.txns[t].phase) && !Blocked(s, t)
    ensures Enabled(s, NextStep(t, s.txns[t].phase))
  {
    assert TxnWf(s.txns[t], s.rows.Keys);
  }

  ghost function LatchedAfter(latch: map<RowId, TxnId>, w: RowId): set<RowId> {
    set r | r in latch && Before(w, r)
  }

  lemma {:induction false} FewerAfter(latch: map<RowId, TxnId>, w: RowId, v: RowId)
    requires Before(w, v) && v in latch
    ensures LatchedAfter(latch, v) < LatchedAfter(latch, w)
  {
    forall r | r in LatchedAfter(latch, v) ensures r in LatchedAfter(latch, w) {
      BeforeTransitive(w, v, r);
    }
    BeforeIrreflexive(v);
    assert v in LatchedAfter(latch, w);
  }

  /** At the end of every waiting chain stands a busy transaction that can move, and it holds
      a row at or after the one wanted at the start of the chain. */
  lemma {:induction false} ChainEnd<V>(s: State<V>, t: TxnId) returns (u: TxnId, r: RowId)
    requires Structure(s) && Blocked(s, t)
    ensures u in s.txns && Busy(s.txns[u].phase) && !Blocked(s, u)
    ensures r in Held(s.txns[u].phase)
    ensures r == Wanted(s.txns[t].phase) || Before(Wanted(s.txns[t].phase), r)
    decreases LatchedAfter(s.latch, Wanted(s.txns[t].phase))
  {
    var w := Wanted(s.txns[t].phase);
    u, r := s.latch[w], w;
    assert Holds(s.txns[u], w);
    if Blocked(s, u) {
      WaitsClimb(s, t, u);
      FewerAfter(s.latch, w, Wanted(s.txns[u].phase));
      var v := Wanted(s.txns[u].phase);
      u, r := ChainEnd(s, u);
      if r != v {
        BeforeTransitive(w, v, r);
      }
    }
  }

  /** Whatever a blocked transaction waits for, some other busy transaction can move. */
  lemma {:induction false} BlockedByMover<V>(s: State<V>, t: TxnId) returns (u: TxnId)
    requires Structure(s) && Blocked(s, t)
    ensures u != t && u in s.txns && Busy(s.txns[u].phase) && Enabled(s, NextStep(u, s.txns[u].phase))
  {
    var r: RowId;
    u, r := ChainEnd(s, t);
    UnblockedMoves(s, u);
  }

  /** Deadlock freedom: while any transaction is inside an engine call, some such
      transaction can take its next step. */
  lemma {:induction false} DeadlockFree<V>(db: map<RowId, V>, steps: seq<Step<V>>, s: State<V>, t: TxnId)
    requires Runs(Init(db), steps, s) && t in s.txns && Busy(s.txns[t].phase)
    ensures exists u :: u in s.txns && Busy(s.txns[u].phase) && Enabled(s, NextStep(u, s.txns[u].phase))
  {
    ReachableStructure(db, steps, s);
    hide Structure, Runs, Enabled;
    if Blocked(s, t) {
      var u := BlockedByMover(s, t);
    } else {
      UnblockedMoves(s, t);
    }
  }

  // ----- and every engine call can be driven to its end -----

  ghost function SumWork<V>(txns: map<TxnId, Txn<V>>, ids: set<TxnId>): int
    requires ids <= txns.Keys
  {
    if ids == {} then 0
    else
      var t :| t in ids;
      Work(txns[t].phase) + SumWork(txns, ids - {t})
  }

  lemma {:induction false} SumWorkSplit<V>(txns: map<TxnId, Txn<V>>, ids: set<TxnId>, t: TxnId)
    requires ids <= txns.Keys && t in ids
    ensures SumWork(txns, ids) == Work(txns[t].phase) + SumWork(txns, ids - {t})
    decreases ids
  {
    var p :| p in ids && SumWork(txns, ids) == Work(txns[p].phase) + SumWork(txns, ids - {p});
    if p != t {
      SumWorkSplit(txns, ids - {p}, t);
      SumWorkSplit(txns, ids - {t}, p);
      assert ids - {p} - {t} == ids - {t} - {p};
    }
  }

  lemma {:induction false} SumWorkSame<V>(txns: map<TxnId, Txn<V>>, txns': map<TxnId, Txn<V>>, ids: set<TxnId>)
    requires ids <= txns.Keys && ids <= txns'.Keys
    requires forall t :: t in ids ==> txns[t] == txns'[t]
    ensures SumWork(txns, ids) == SumWork(txns', ids)
    decreases ids
  {
    if ids != {} {
      var t :| t in ids;
      SumWorkSplit(txns, ids, t);
      SumWorkSplit(txns', ids, t);
      SumWorkSame(txns, txns', ids - {t});
    }
  }

  lemma {:induction false} SumWorkNonNegative<V>(s: State<V>, ids: set<TxnId>)
    requires TxnsWf(s) && ids <= s.txns.Keys
    ensures SumWork(s.txns, ids) >= 0
    decreases ids
  {
    if ids != {} {
      var t :| t in ids;
      SumWorkSplit(s.txns, ids, t);
      assert TxnWf(s.txns[t], s.rows.Keys);
      SumWorkNonNegative(s, ids - {t});
    }
  }

  /** All the engine steps still to be taken by the calls in progress. */
  ghost function TotalWork<V>(s: State<V>): int {
    SumWork(s.txns, s.txns.Keys)
  }

  lemma {:induction false} OwnWorkDrops<V>(s: State<V>, x: Txn<V>, t: TxnId)
    requires PhaseWf(x, s.rows.Keys) && Busy(x.phase) && TxnEnabled(s, x, NextStep(t, x.phase))
    ensures Work(PhaseAfter(s, x, NextStep(t, x.phase))) < Work(x.phase)
  {}

  /** Every engine step brings the calls in progress closer to their end. */
  lemma {:induction false} WorkDrops<V>(s: State<V>, u: TxnId)
    requires Structure(s) && u in s.txns && Busy(s.txns[u].phase) && Enabled(s, NextStep(u, s.txns[u].phase))
    ensures 0 <= TotalWork(Do(s, NextStep(u, s.txns[u].phase))) < TotalWork(s)
  {
    var a: Step<V> := NextStep(u, s.txns[u].phase);
    var s' := Do(s, a);
    StepFrame(s, a);
    StepStructure(s, a);
    assert TxnWf(s.txns[u], s.rows.Keys);
    OwnWorkDrops(s, s.txns[u], u);
    assert Work(s'.txns[u].phase) < Work(s.txns[u].phase);
    hide Work, Enabled, Do, LatchesOwned, HoldersOwn, TxnsWf;
    SumWorkNonNegative(s', s'.txns.Keys);
    SumDrops(s.txns, s'.txns, u);
  }

  lemma {:induction false} SumDrops<V>(txns: map<TxnId, Txn<V>>, txns': map<TxnId, Txn<V>>, u: TxnId)
    requires u in txns && u in txns' && txns' == txns[u := txns'[u]] && Work(txns'[u].phase) < Work(txns[u].phase)
    ensures SumWork(txns', txns'.Keys) < SumWork(txns, txns.Keys)
  {
    hide Work;
    assert txns'.Keys == txns.Keys;
    SumWorkSplit(txns, txns.Keys, u);
    SumWorkSplit(txns', txns.Keys, u);
    SumWorkSame(txns, txns', txns.Keys - {u});
  }

  predicate Others<V>(steps: seq<Step<V>>, t: TxnId) {
    forall i :: 0 <= i < |steps| ==> steps[i].t != t
  }

  /** One engine step by `u`, with everything the drivers below need to know about it. */
  lemma {:induction false} Drive<V>(s: State<V>, u: TxnId) returns (a: Step<V>)
    requires Structure(s) && u in s.txns && Busy(s.txns[u].phase) && Enabled(s, NextStep(u, s.txns[u].phase))
    ensures Enabled(s, a) && a.t == u && Structure(Do(s, a))
    ensures 0 <= TotalWork(Do(s, a)) < TotalWork(s)
    ensures u in Do(s, a).txns && Do(s, a).txns == s.txns[u := Do(s, a).txns[u]]
  {
    a := NextStep(u, s.txns[u].phase);
    hide Structure, Enabled, Do, TotalWork;
    StepFrame(s, a);
    StepStructure(s, a);
    WorkDrops(s, u);
  }

  lemma {:induction false} ConsRun<V>(s: State<V>, a: Step<V>, rest: seq<Step<V>>, s': State<V>)
    requires Enabled(s, a) && Runs(Do(s, a), rest, s')
    ensures Runs(s, [a] + rest, s')
  {
    hide Enabled, Do;
    assert ([a] + rest)[1..] == rest;
  }

  /** A blocked transaction is never stuck: without any step of its own, the others can
      finish enough of their calls to free the latch it wants. */
  lemma {:induction false} LatchComesFree<V>(s: State<V>, t: TxnId) returns (steps: seq<Step<V>>, s': State<V>)
    requires Structure(s) && t in s.txns && Waiting(s.txns[t].phase)
    ensures Runs(s, steps, s') && Others(steps, t)
    ensures t in s'.txns && s'.txns[t] == s.txns[t] && Wanted(s.txns[t].phase) !in s'.latch
    decreases TotalWork(s)
  {
    hide Structure, Enabled, Do, TotalWork, Waiting, Wanted;
    if !Blocked(s, t) {
      steps, s' := [], s;
    } else {
      hide Runs;
      var u := BlockedByMover(s, t);
      var a := Drive(s, u);
      var rest;
      rest, s' := LatchComesFree(Do(s, a), t);
      steps := [a] + rest;
      ConsRun(s, a, rest, s');
    }
  }

  lemma {:induction false} SomeMover<V>(s: State<V>, t: TxnId) returns (u: TxnId)
    requires Structure(s) && t in s.txns && Busy(s.txns[t].phase)
    ensures u in s.txns && Busy(s.txns[u].phase) && Enabled(s, NextStep(u, s.txns[u].phase))
  {
    hide Structure, Enabled;
    u := t;
    if Blocked(s, t) {
      u := BlockedByMover(s, t);
    } else {
      UnblockedMoves(s, t);
    }
  }

  /** From every state of every run, engine steps alone lead to a state in which every call
      has returned and no latch is held. */
  lemma {:induction false} Quiesce<V>(s: State<V>) returns (steps: seq<Step<V>>, s': State<V>)
    requires Structure(s)
    ensures Runs(s, steps, s') && s'.latch == map[]
    ensures forall t :: t in s'.txns ==> !Busy(s'.txns[t].phase)
    ensures s'.txns.Keys == s.txns.Keys
    decreases TotalWork(s)
  {
    if t :| t in s.txns && Busy(s.txns[t].phase) {
      hide Structure, Enabled, Do, TotalWork, Runs, Busy;
      var u := SomeMover(s, t);
      var a := Drive(s, u);
      var rest;
      rest, s' := Quiesce(Do(s, a));
      steps := [a] + rest;
      ConsRun(s, a, rest, s');
    } else {
      steps, s' := [], s;
      IdleHoldsNothing(s);
    }
  }

  lemma {:induction false} IdleHoldsNothing<V>(s: State<V>)
    requires LatchesOwned(s) && forall t :: t in s.txns ==> !Busy(s.txns[t].phase)
    ensures s.latch == map[]
  {
    assert forall t :: t in s.txns ==> Held(s.txns[t].phase) == {};
  }
}
