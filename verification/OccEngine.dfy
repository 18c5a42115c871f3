/** The guarantees of the step system, stated of the imperative engine: whatever mix of
    `TxnMan` calls and interference produced a memory, its trace is a run. */
module OccEngine {
  import opened RowOrder
  import opened OccModel
  import opened OccSerial
  import opened OccVersions
  import opened OccOps
  import opened OccTheorems
  import opened OccLostUpdate
  import opened OccCauses
  import opened OccMemory
  import opened OccRowApi
  import opened OccTxnMan

  /** The committed transactions of a memory are serializable in end timestamp order, and
      every row not being written holds the replay's final value. */
  lemma {:induction false} EngineSerializable<V>(mem: Memory<V>)
    requires mem.Valid() && UniqueKeys(mem.db.Keys)
    ensures SerialLegal(mem.db, mem.s.history)
    ensures mem.s.rows.Keys == mem.db.Keys == Replay(mem.db, mem.s.history).Keys
    ensures forall r :: r in mem.db && r !in mem.s.latch ==> mem.s.rows[r].data == Replay(mem.db, mem.s.history)[r]
  {
    hide Inv, Runs, SerialLegal, Replay, UniqueKeys;
    Serializable(mem.db, mem.trace, mem.s);
  }

  /** The fate of a finished transaction is recorded: it committed exactly the operations its
      client completed, or it is nowhere in the history. */
  lemma {:induction false} FinishedFate<V>(mem: Memory<V>, t: TxnId)
    requires mem.Valid() && t in mem.s.txns && mem.s.txns[t].phase.Finished?
    ensures mem.s.txns[t].phase.committed <==> HasCommit(mem.s.history, t)
    ensures forall i :: 0 <= i < |mem.s.history| && mem.s.history[i].tid == t ==>
              mem.s.history[i].ops == mem.s.txns[t].ops && mem.s.history[i].writes == Writes(mem.s.txns[t])
  {
    RecordedNow(mem.db, mem.s);
    hide Inv, Runs;
    assert forall i :: 0 <= i < |mem.s.history| ==> Describes(mem.s, mem.s.history[i]);
  }

  /** What transaction `t` did to row `r`, if it committed. */
  ghost predicate CommittedUpdate<V>(h: seq<Commit<V>>, t: TxnId, r: RowId, f: V -> V) {
    exists i :: 0 <= i < |h| && h[i].tid == t && Updates(h[i].ops, r, f)
  }

  lemma {:induction false} UpdateOps<V>(r: RowId, v: V, f: V -> V)
    ensures Updates([] + [Read(r, v)] + [Write(r, f(v))], r, f)
  {
    var ops := [] + [Read(r, v)] + [Write(r, f(v))];
    assert ops[1..] == [Write(r, f(v))] && ops[1..][1..] == [];
    assert OnRow(ops[1..], r) == [Write(r, f(v))];
    assert OnRow(ops, r) == [Read(r, v), Write(r, f(v))];
  }

  /** The stress client's transaction: start, read a row, write `f` of it, commit; abort when
      the read is refused.  Under any interference it commits one update of the kind
      `NoLostUpdates` counts, or leaves no trace in the history; and it fails only because
      another commit has written the row since it began. */
  method UpdateRow<V(==)>(mem: Memory<V>, t: TxnId, r: RowId, f: V -> V) returns (committed: bool)
    requires mem.Valid() && t !in mem.s.txns && r in mem.db
    modifies mem
    ensures mem.Valid() && old(mem.trace) <= mem.trace
    ensures committed <==> HasCommit(mem.s.history, t)
    ensures committed ==> CommittedUpdate(mem.s.history, t, r, f)
    ensures t in mem.s.txns && mem.s.txns[t].startTs >= old(mem.s.counter)
    ensures !committed ==> WrittenAfter(mem.s.history, r, mem.s.txns[t].startTs)
  {
    hide Inv, Runs, HasCommit, Updates, CommittedUpdate, WrittenAfter, TxnMan.Represents, TxnMan.Allocated;
    var txn := new TxnMan(mem, t);
    RowsAreDb(mem);
    var v;
    committed, v := Attempt(txn, r, f);
    FinishedFate(mem, t);
    if committed {
      UpdateOps(r, v.value, f);
      CommitListed(mem.s.history, t, mem.s.txns[t].ops, r, f);
    }
  }

  /** The client's calls on a transaction just begun. */
  method Attempt<V(==)>(txn: TxnMan<V>, r: RowId, f: V -> V) returns (committed: bool, v: Option<V>)
    requires txn.Valid() && r in txn.mem.s.rows && txn.rowCnt == 0 && txn.recordPos == map[]
    requires txn.mem.s.txns[txn.tid] == Txn(txn.startTs, map[], map[], {}, map[], [], Active)
    modifies txn, txn.mem, txn.accesses, txn.accesses[..]
    ensures txn.mem.Valid() && old(txn.mem.trace) <= txn.mem.trace && txn.tid in txn.mem.s.txns
    ensures txn.mem.s.txns[txn.tid].phase == Finished(committed)
    ensures txn.mem.s.txns[txn.tid].startTs == txn.startTs
    ensures !committed ==> WrittenAfter(txn.mem.s.history, r, txn.startTs)
    ensures committed ==> v.Some? && txn.mem.s.txns[txn.tid].ops == [] + [Read(r, v.value)] + [Write(r, f(v.value))]
  {
    hide Inv, Runs, WrittenAfter, VersionAt, TxnMan.Represents, TxnMan.Allocated;
    v := txn.ReadValue(r);
    committed := false;
    if v.None? {
      txn.Abort();
      return;
    }
    // a row already read is never refused to a write
    var ok := txn.WriteValue(r, f(v.value));
    assert ok;
    assert txn.mem.s.txns[txn.tid].local.Keys == {r};
    committed := txn.Validate();
  }

  lemma {:induction false} CommitListed<V>(h: seq<Commit<V>>, t: TxnId, ops: seq<Op<V>>, r: RowId, f: V -> V)
    requires HasCommit(h, t) && Updates(ops, r, f)
    requires forall i :: 0 <= i < |h| && h[i].tid == t ==> h[i].ops == ops
    ensures CommittedUpdate(h, t, r, f)
  {
    hide Updates;
    var i :| 0 <= i < |h| && h[i].tid == t;
    assert h[i].ops == ops;
  }

  lemma {:induction false} RowsAreDb<V>(mem: Memory<V>)
    requires mem.Valid()
    ensures mem.s.rows.Keys == mem.db.Keys
  {}
}
