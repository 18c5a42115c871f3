/** The structural invariant: who holds which latch, and what each phase means.

    It holds in every reachable state, with no assumption on the rows. */
module OccStructure {
  import opened RowOrder
  import opened OccModel

  function Elements(rows: seq<RowId>): set<RowId> {
    set r | r in rows
  }

  /** The rows whose latches a transaction holds in a phase. */
  function Held(p: Phase): set<RowId> {
    match p
    case Accessing(row, _) => {row}
    case Leaving(row) => {row}
    case Latching(order, done) => if done <= |order| then Elements(order[..done]) else {}
    case Checking(order, done) => if done < |order| then Elements(order[..done + 1]) else {}
    case Writing(order, _, _, _) => Elements(order)
    case Releasing(order, next, upto, _) => if next <= upto <= |order| then Elements(order[next..upto]) else {}
    case _ => {}
  }

  predicate Holds<V>(x: Txn<V>, r: RowId) {
    r in Held(x.phase)
  }

  ghost predicate PhaseWf<V>(x: Txn<V>, rows: set<RowId>) {
    match x.phase
    case Wanting(row, _) => row in rows && row.key !in x.pos
    case Accessing(row, _) => row in rows && row.key !in x.pos
    case Leaving(row) => row in rows
    case Latching(order, done) => CommitOrder(x, order) && done <= |order|
    case Checking(order, done) => CommitOrder(x, order) && done < |order|
    case Writing(order, e, left, half) =>
      CommitOrder(x, order) && x.startTs < e && left <= |order| && (half ==> left > 0 && order[left - 1] in x.wset)
    case Releasing(order, next, upto, c) =>
      CommitOrder(x, order) && next <= upto <= |order| && (c ==> upto == |order|)
    case _ => true
  }

  /** `pos` indexes the access set exactly, so recorded primary keys are distinct. */
  ghost predicate AccessSetWf<V>(x: Txn<V>) {
    && x.seen.Keys == x.local.Keys
    && x.wset <= x.local.Keys
    && (forall k :: k in x.pos ==> x.pos[k] in x.local && x.pos[k].key == k)
    && (forall r :: r in x.local ==> r.key in x.pos && x.pos[r.key] == r)
  }

  ghost predicate TxnWf<V>(x: Txn<V>, rows: set<RowId>) {
    && AccessSetWf(x)
    && x.local.Keys <= rows
    && PhaseWf(x, rows)
  }

  ghost predicate LatchesOwned<V>(s: State<V>) {
    forall r :: r in s.latch ==> s.latch[r] in s.txns && Holds(s.txns[s.latch[r]], r)
  }

  ghost predicate HoldersOwn<V>(s: State<V>) {
    forall t, r :: t in s.txns && Holds(s.txns[t], r) ==> r in s.latch && s.latch[r] == t
  }

  ghost predicate TxnsWf<V>(s: State<V>) {
    forall t :: t in s.txns ==> TxnWf(s.txns[t], s.rows.Keys) && s.txns[t].startTs < s.counter
  }

  ghost predicate Structure<V>(s: State<V>) {
    && TxnsWf(s)
    && LatchesOwned(s)
    && HoldersOwn(s)
  }

  lemma {:induction false} InitStructure<V>(db: map<RowId, V>)
    ensures Structure(Init(db))
  {}

  // ----- each step keeps it -----

  /** What a step of `a.t` can change of transaction `a.t` and of nothing else. */
  lemma {:induction false} StepFrame<V>(s: State<V>, a: Step<V>)
    requires Enabled(s, a)
    ensures Do(s, a).rows.Keys == s.rows.Keys
    ensures s.counter <= Do(s, a).counter
    ensures a.t in Do(s, a).txns
    ensures Do(s, a).txns == s.txns[a.t := Do(s, a).txns[a.t]]
  {
    if !a.Begin? {
      assert RowsAfter(s, s.txns[a.t], a).Keys == s.rows.Keys;
    }
  }

  lemma {:induction false} AccessSetKept<V>(s: State<V>, x: Txn<V>, a: Step<V>)
    requires TxnEnabled(s, x, a) && TxnWf(x, s.rows.Keys)
    ensures AccessSetWf(AccessesAfter(s, x, a))
    ensures AccessesAfter(s, x, a).local.Keys <= s.rows.Keys
    ensures !a.Copy? ==> AccessesAfter(s, x, a).local.Keys == x.local.Keys && AccessesAfter(s, x, a).pos == x.pos
  {
    var y := AccessesAfter(s, x, a);
    match a
    case Copy(_) =>
      if s.rows[x.phase.row].wts <= x.startTs {
        assert y.seen.Keys == x.seen.Keys + {x.phase.row};
        assert y.local.Keys == x.local.Keys + {x.phase.row};
      }
    case WriteLocal(_, row, _) =>
      assert y.local.Keys == x.local.Keys;
    case _ =>
  }

  lemma {:induction false} PhaseKept<V>(s: State<V>, x: Txn<V>, a: Step<V>)
    requires TxnEnabled(s, x, a) && TxnWf(x, s.rows.Keys) && x.startTs < s.counter
    ensures PhaseWf(TxnAfter(s, x, a), s.rows.Keys)
  {
    AccessSetKept(s, x, a);
  }

  /** How a step changes the latches its transaction holds. */
  lemma {:induction false} StepHeld<V>(s: State<V>, x: Txn<V>, a: Step<V>)
    requires TxnEnabled(s, x, a) && PhaseWf(x, s.rows.Keys)
    ensures a.Lock? ==> Held(PhaseAfter(s, x, a)) == Held(x.phase) + {x.phase.row}
    ensures a.Unlock? ==> x.phase.row in Held(x.phase) && Held(PhaseAfter(s, x, a)) == Held(x.phase) - {x.phase.row}
    ensures a.Latch? ==> Held(PhaseAfter(s, x, a)) == Held(x.phase) + {x.phase.order[x.phase.done]}
    ensures a.Release? ==>
              var r := x.phase.order[x.phase.next];
              r in Held(x.phase) && Held(PhaseAfter(s, x, a)) == Held(x.phase) - {r}
    ensures !(a.Lock? || a.Unlock? || a.Latch? || a.Release?) ==> Held(PhaseAfter(s, x, a)) == Held(x.phase)
  {
    var p := x.phase;
    hide StrictlySorted;
    match a
    case Latch(_) =>
      assert p.order[..p.done + 1] == p.order[..p.done] + [p.order[p.done]];
    case Release(_) =>
      ReleasedOnce(p.order, p.next, p.upto);
    case Check(_) => HandOver(s, x, a);
    case TakeEnd(_) => HandOver(s, x, a);
    case EndWrite(_) => HandOver(s, x, a);
    case _ =>
  }

  /** The steps from one part of the commit to the next keep all latches. */
  lemma {:induction false} HandOver<V>(s: State<V>, x: Txn<V>, a: Step<V>)
    requires TxnEnabled(s, x, a) && PhaseWf(x, s.rows.Keys) && (a.Check? || a.TakeEnd? || a.EndWrite?)
    ensures Held(PhaseAfter(s, x, a)) == Held(x.phase)
  {
    hide CommitOrder;
    var p := x.phase;
    assert p.order[..|p.order|] == p.order == p.order[0..|p.order|];
    if a.Check? {
      assert p.order[0..p.done + 1] == p.order[..p.done + 1];
    }
  }

  lemma {:induction false} ReleasedOnce(order: seq<RowId>, next: nat, upto: nat)
    requires StrictlySorted(order) && next < upto <= |order|
    ensures order[next] in Elements(order[next..upto])
    ensures Elements(order[next + 1..upto]) == Elements(order[next..upto]) - {order[next]}
  {
    assert order[next..upto] == [order[next]] + order[next + 1..upto];
    if order[next] in order[next + 1..upto] {
      var j :| 0 <= j < upto - next - 1 && order[next + 1..upto][j] == order[next];
      SortedDistinct(order, next, next + 1 + j);
    }
  }

  /** A move of transaction `t`, seen from the latch of row `r`: only `t` gains or loses it. */
  ghost predicate LatchMove<V>(s: State<V>, t: TxnId, s': State<V>, r: RowId)
    requires t in s'.txns
  {
    && (Holds(s'.txns[t], r) <==> r in s'.latch && s'.latch[r] == t)
    && (r in s.latch && s.latch[r] != t ==> r in s'.latch && s'.latch[r] == s.latch[r])
    && (r in s'.latch && s'.latch[r] != t ==> r in s.latch && s'.latch[r] == s.latch[r])
  }

  lemma {:induction false} StepLatch<V>(s: State<V>, a: Step<V>, r: RowId)
    requires Enabled(s, a) && Structure(s)
    ensures LatchMove(s, a.t, Do(s, a), r)
  {
    if a.Begin? {
      hide TxnsWf, HoldersOwn;
      var y := Do(s, a).txns[a.t];
      assert Held(y.phase) == {};
      hide Held;
      assert r in s.latch ==> s.latch[r] in s.txns;
    } else {
      var x := s.txns[a.t];
      assert TxnWf(x, s.rows.Keys);
      hide TxnsWf, Held, LatchMove, Enabled, Do, PhaseWf, AccessSetWf;
      assert Holds(x, r) <==> r in s.latch && s.latch[r] == a.t;
      forall q | q in Held(x.phase) ensures q in s.latch && s.latch[q] == a.t {
        assert Holds(x, q);
      }
      OwnLatchMove(s, x, a, r);
    }
  }

  lemma {:induction false} OwnLatchMove<V>(s: State<V>, x: Txn<V>, a: Step<V>, r: RowId)
    requires Enabled(s, a) && !a.Begin? && x == s.txns[a.t] && PhaseWf(x, s.rows.Keys)
    requires forall q :: q in Held(x.phase) ==> q in s.latch && s.latch[q] == a.t
    requires r in s.latch && s.latch[r] == a.t ==> r in Held(x.phase)
    ensures LatchMove(s, a.t, Do(s, a), r)
  {
    StepHeld(s, x, a);
    hide PhaseWf, Held, PhaseAfter, AccessesAfter, RowsAfter;
    assert Do(s, a).txns[a.t].phase == PhaseAfter(s, x, a);
    assert Do(s, a).latch == LatchAfter(s, x, a);
    hide Do;
  }

  lemma {:induction false} StepTxnsWf<V>(s: State<V>, a: Step<V>)
    requires Enabled(s, a) && TxnsWf(s)
    ensures TxnsWf(Do(s, a))
  {
    var s' := Do(s, a);
    StepFrame(s, a);
    if !a.Begin? {
      assert TxnWf(s.txns[a.t], s.rows.Keys);
      AccessSetKept(s, s.txns[a.t], a);
      PhaseKept(s, s.txns[a.t], a);
    }
    assert TxnWf(s'.txns[a.t], s'.rows.Keys);
    forall t | t in s'.txns && t != a.t
      ensures TxnWf(s'.txns[t], s'.rows.Keys) && s'.txns[t].startTs < s'.counter
    {
      assert TxnWf(s.txns[t], s.rows.Keys);
    }
  }

  lemma {:induction false} OwnershipKept<V>(s: State<V>, t: TxnId, s': State<V>)
    requires LatchesOwned(s) && HoldersOwn(s)
    requires t in s'.txns && s'.txns == s.txns[t := s'.txns[t]]
    requires forall r :: LatchMove(s, t, s', r)
    ensures LatchesOwned(s') && HoldersOwn(s')
  {
    forall r | r in s'.latch
      ensures s'.latch[r] in s'.txns && Holds(s'.txns[s'.latch[r]], r)
    {
      assert LatchMove(s, t, s', r);
    }
    forall u, r | u in s'.txns && Holds(s'.txns[u], r)
      ensures r in s'.latch && s'.latch[r] == u
    {
      assert LatchMove(s, t, s', r);
    }
  }

  lemma {:induction false} StepStructure<V>(s: State<V>, a: Step<V>)
    requires Enabled(s, a) && Structure(s)
    ensures Structure(Do(s, a))
  {
    StepFrame(s, a);
    StepTxnsWf(s, a);
    forall r ensures LatchMove(s, a.t, Do(s, a), r) {
      StepLatch(s, a, r);
    }
    OwnershipKept(s, a.t, Do(s, a));
  }
}
