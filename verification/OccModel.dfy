/** The optimistic transaction engine as a small-step system.

    Any number of transactions run interleaved.  Every step is one indivisible action on
    shared memory, a private action of one transaction, or both.  The shared memory is the
    timestamp counter, the rows (data and write timestamp) and the per-row latches.
    `history` is an auxiliary record of the transactions that have drawn an end timestamp. */
module OccModel {
  import opened RowOrder

  type TxnId = nat

  datatype Op<V> = Read(row: RowId, value: V) | Write(row: RowId, value: V)

  datatype Versioned<V> = Versioned(data: V, wts: nat)

  datatype Phase =
    | Active
      // inside Row_occ::access
    | Wanting(row: RowId, wr: bool)
    | Accessing(row: RowId, wr: bool)
    | Leaving(row: RowId)
      // inside OptCC::validate; `done` rows of `order` are latched and validated
    | Latching(order: seq<RowId>, done: nat)
    | Checking(order: seq<RowId>, done: nat)
      // inside cleanup(RCOK); rows order[..left] are still to be written back, and when
      // `half` the data of order[left - 1] has been copied but its wts not yet set
    | Writing(order: seq<RowId>, endTs: nat, left: nat, half: bool)
      // latches order[next..upto] are still to be released
    | Releasing(order: seq<RowId>, next: nat, upto: nat, committed: bool)
    | Finished(committed: bool)

  /** A transaction: its access set (`seen` holds the first copy of each row, `local` the
      private copy, `wset` the rows marked WR), `pos` the map from primary key to recorded
      row, and `ops` the operations the client has completed with their values. */
  datatype Txn<V> = Txn(
    startTs: nat,
    seen: map<RowId, V>,
    local: map<RowId, V>,
    wset: set<RowId>,
    pos: map<nat, RowId>,
    ops: seq<Op<V>>,
    phase: Phase)

  datatype Commit<V> = Commit(
    tid: TxnId,
    startTs: nat,
    endTs: nat,
    seen: map<RowId, V>,
    writes: map<RowId, V>,
    ops: seq<Op<V>>)

  datatype State<V> = State(
    counter: nat,
    rows: map<RowId, Versioned<V>>,
    latch: map<RowId, TxnId>,
    txns: map<TxnId, Txn<V>>,
    history: seq<Commit<V>>)

  datatype Step<V> =
    | Begin(t: TxnId)
    | Want(t: TxnId, row: RowId, wr: bool)
    | Lock(t: TxnId)
    | Copy(t: TxnId)
    | Unlock(t: TxnId)
    | ReadLocal(t: TxnId, row: RowId)
    | WriteLocal(t: TxnId, row: RowId, value: V)
    | Upgrade(t: TxnId, row: RowId)
    | UserAbort(t: TxnId)
    | BeginCommit(t: TxnId, order: seq<RowId>)
    | Latch(t: TxnId)
    | Check(t: TxnId)
    | TakeEnd(t: TxnId)
    | WriteBack(t: TxnId)
    | Stamp(t: TxnId)
    | EndWrite(t: TxnId)
    | Release(t: TxnId)
    | Finish(t: TxnId)

  /** Before any transaction: `Manager::init` sets the counter to 1, `Row_occ::init` sets wts to 0. */
  function Init<V>(db: map<RowId, V>): State<V> {
    State(1, map r | r in db :: Versioned(db[r], 0), map[], map[], [])
  }

  predicate CommitOrder<V>(x: Txn<V>, order: seq<RowId>) {
    && StrictlySorted(order)
    && (forall r :: r in order ==> r in x.local)
    && (forall r :: r in x.local ==> r in order)
  }

  function Writes<V>(x: Txn<V>): map<RowId, V> {
    map r | r in x.local && r in x.wset :: x.local[r]
  }

  function CommitOf<V>(t: TxnId, x: Txn<V>, endTs: nat): Commit<V> {
    Commit(t, x.startTs, endTs, x.seen, Writes(x), x.ops)
  }

  predicate Enabled<V>(s: State<V>, a: Step<V>) {
    if a.Begin? then a.t !in s.txns
    else a.t in s.txns && TxnEnabled(s, s.txns[a.t], a)
  }

  predicate TxnEnabled<V>(s: State<V>, x: Txn<V>, a: Step<V>) {
    match a
    case Begin(_) => false
    case Want(_, row, _) => x.phase.Active? && row in s.rows && row.key !in x.pos
    case Lock(_) => x.phase.Wanting? && x.phase.row !in s.latch
    case Copy(_) => x.phase.Accessing? && x.phase.row in s.rows
    case Unlock(_) => x.phase.Leaving?
    case ReadLocal(_, row) =>
      x.phase.Active? && row in s.rows && row.key in x.pos && x.pos[row.key] in x.local
    case WriteLocal(_, row, _) =>
      x.phase.Active? && row in s.rows && row.key in x.pos && x.pos[row.key] in x.local
    case Upgrade(_, row) =>
      x.phase.Active? && row in s.rows && row.key in x.pos && x.pos[row.key] in x.local
    case UserAbort(_) => x.phase.Active?
    case BeginCommit(_, order) => x.phase.Active? && CommitOrder(x, order)
    case Latch(_) =>
      x.phase.Latching? && x.phase.done < |x.phase.order| && x.phase.order[x.phase.done] !in s.latch
    case Check(_) =>
      x.phase.Checking? && x.phase.done < |x.phase.order| && x.phase.order[x.phase.done] in s.rows
    case TakeEnd(_) => x.phase.Latching? && x.phase.done == |x.phase.order|
    case WriteBack(_) =>
      && x.phase.Writing? && 0 < x.phase.left <= |x.phase.order| && !x.phase.half
      && x.phase.order[x.phase.left - 1] in s.rows && x.phase.order[x.phase.left - 1] in x.local
    case Stamp(_) =>
      && x.phase.Writing? && 0 < x.phase.left <= |x.phase.order| && x.phase.half
      && x.phase.order[x.phase.left - 1] in s.rows
    case EndWrite(_) => x.phase.Writing? && x.phase.left == 0
    case Release(_) => x.phase.Releasing? && x.phase.next < x.phase.upto <= |x.phase.order|
    case Finish(_) => x.phase.Releasing? && x.phase.next == x.phase.upto
  }

  function Do<V>(s: State<V>, a: Step<V>): State<V>
    requires Enabled(s, a)
  {
    if a.Begin? then
      s.(txns := s.txns[a.t := Txn(s.counter, map[], map[], {}, map[], [], Active)],
         counter := s.counter + 1)
    else
      var x := s.txns[a.t];
      State(if a.TakeEnd? then s.counter + 1 else s.counter,
            RowsAfter(s, x, a),
            LatchAfter(s, x, a),
            s.txns[a.t := TxnAfter(s, x, a)],
            if a.TakeEnd? then s.history + [CommitOf(a.t, x, s.counter)] else s.history)
  }

  function TxnAfter<V>(s: State<V>, x: Txn<V>, a: Step<V>): Txn<V>
    requires TxnEnabled(s, x, a)
  {
    AccessesAfter(s, x, a).(phase := PhaseAfter(s, x, a))
  }

  /** The row a committer in phase Writing is working on: cleanup goes from last to first. */
  function Target<V>(x: Txn<V>): RowId
    requires x.phase.Writing? && 0 < x.phase.left <= |x.phase.order|
  {
    x.phase.order[x.phase.left - 1]
  }

  function PhaseAfter<V>(s: State<V>, x: Txn<V>, a: Step<V>): Phase
    requires TxnEnabled(s, x, a)
  {
    var p := x.phase;
    match a
    case Want(_, row, wr) => Wanting(row, wr)
    case Lock(_) => Accessing(p.row, p.wr)
    case Copy(_) => Leaving(p.row)
    case Unlock(_) => Active
    case UserAbort(_) => Finished(false)
    case BeginCommit(_, order) => Latching(order, 0)
    case Latch(_) => Checking(p.order, p.done)
    case Check(_) =>
      if x.startTs < s.rows[p.order[p.done]].wts then Releasing(p.order, 0, p.done + 1, false)
      else Latching(p.order, p.done + 1)
    case TakeEnd(_) => Writing(p.order, s.counter, |p.order|, false)
    case WriteBack(_) => if Target(x) in x.wset then p.(half := true) else p.(left := p.left - 1)
    case Stamp(_) => p.(left := p.left - 1, half := false)
    case EndWrite(_) => Releasing(p.order, 0, |p.order|, true)
    case Release(_) => p.(next := p.next + 1)
    case Finish(_) => Finished(p.committed)
    case _ => p
  }

  /** `txn_man::get_row`: the first access copies the row or is refused; a recorded primary
      key is answered from the access set. */
  function AccessesAfter<V>(s: State<V>, x: Txn<V>, a: Step<V>): Txn<V>
    requires TxnEnabled(s, x, a)
  {
    match a
    case Copy(_) =>
      var r := x.phase.row;
      if x.startTs < s.rows[r].wts then x
      else x.(seen := x.seen[r := s.rows[r].data],
              local := x.local[r := s.rows[r].data],
              wset := if x.phase.wr then x.wset + {r} else x.wset,
              pos := x.pos[r.key := r])
    case ReadLocal(_, row) => x.(ops := x.ops + [Read(row, x.local[x.pos[row.key]])])
    case WriteLocal(_, row, v) =>
      x.(local := x.local[x.pos[row.key] := v],
         wset := x.wset + {x.pos[row.key]},
         ops := x.ops + [Write(row, v)])
    case Upgrade(_, row) => x.(wset := x.wset + {x.pos[row.key]})
    case _ => x
  }

  function LatchAfter<V>(s: State<V>, x: Txn<V>, a: Step<V>): map<RowId, TxnId>
    requires TxnEnabled(s, x, a)
  {
    match a
    case Lock(t) => s.latch[x.phase.row := t]
    case Unlock(_) => s.latch - {x.phase.row}
    case Latch(t) => s.latch[x.phase.order[x.phase.done] := t]
    case Release(_) => s.latch - {x.phase.order[x.phase.next]}
    case _ => s.latch
  }

  /** `Row_occ::write`: copy the data, then set the write timestamp. */
  function RowsAfter<V>(s: State<V>, x: Txn<V>, a: Step<V>): map<RowId, Versioned<V>>
    requires TxnEnabled(s, x, a)
  {
    match a
    case WriteBack(_) =>
      var r := Target(x);
      if r in x.wset then s.rows[r := Versioned(x.local[r], s.rows[r].wts)] else s.rows
    case Stamp(_) =>
      var r := Target(x);
      s.rows[r := Versioned(s.rows[r].data, x.phase.endTs)]
    case _ => s.rows
  }

  /** `steps` is a run of the system that leads from `s` to `s'`. */
  predicate Runs<V(==)>(s: State<V>, steps: seq<Step<V>>, s': State<V>)
    decreases |steps|
  {
    if steps == [] then s == s'
    else Enabled(s, steps[0]) && Runs(Do(s, steps[0]), steps[1..], s')
  }

  lemma {:induction false} RunsAppend<V>(s: State<V>, p: seq<Step<V>>, m: State<V>, q: seq<Step<V>>, e: State<V>)
    requires Runs(s, p, m) && Runs(m, q, e)
    ensures Runs(s, p + q, e)
    decreases |p|
  {
    if p == [] {
      assert p + q == q;
    } else {
      RunsAppend(Do(s, p[0]), p[1..], m, q, e);
      assert (p + q)[1..] == p[1..] + q;
    }
  }
}
