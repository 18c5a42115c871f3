/** The row manager (`Row_occ`) and the timestamp source (`Manager::get_ts`) as a thread
    calls them, with interference before every action on shared memory. */
module OccRowApi {
  import opened RowOrder
  import opened OccModel
  import opened OccStructure
  import opened OccVersions
  import opened OccProgress
  import opened OccSerial
  import opened OccTheorems
  import opened OccCauses
  import opened OccMemory

  datatype Option<+T> = None | Some(value: T)

  lemma {:induction false} OwnWf<V>(db: map<RowId, V>, s: State<V>, t: TxnId)
    requires Inv(db, s) && t in s.txns
    ensures TxnWf(s.txns[t], s.rows.Keys)
  {
    hide Inv, LatchesOwned, HoldersOwn;
    InvStructure(db, s);
  }

  /** The first access of a row, once the copy has been let through. */
  function Copied<V>(x: Txn<V>, r: RowId, wr: bool, v: V): Txn<V> {
    x.(seen := x.seen[r := v],
       local := x.local[r := v],
       wset := if wr then x.wset + {r} else x.wset,
       pos := x.pos[r.key := r])
  }

  /** The history only grows along a trace. */
  lemma {:induction false} Grew<V>(mem: Memory<V>, p: seq<Step<V>>, m: State<V>)
    requires mem.Valid() && Runs(Init(mem.db), p, m) && p <= mem.trace
    ensures m.history <= mem.s.history
  {
    hide Inv, Runs;
    HistoryGrows(Init(mem.db), p, m, mem.trace, mem.s);
  }

  /** What a thread learns from an access of row `r`: `None` only when some commit newer than
      its start has written the row, and then always; otherwise its snapshot's version. */
  ghost predicate Answer<V>(db: map<RowId, V>, before: seq<Commit<V>>, after: seq<Commit<V>>, ts: nat, r: RowId, copy: Option<V>) {
    match copy
    case None => WrittenAfter(after, r, ts)
    case Some(v) => !WrittenAfter(before, r, ts) && r in db && v == VersionAt(db, after, ts)[r]
  }

  lemma {:induction false} AnswerEarlier<V>(
      db: map<RowId, V>, h: seq<Commit<V>>, before: seq<Commit<V>>, after: seq<Commit<V>>, ts: nat, r: RowId, copy: Option<V>)
    requires h <= before && Answer(db, before, after, ts, r, copy)
    ensures Answer(db, h, after, ts, r, copy)
  {
    hide VersionAt, WrittenAfter;
    if WrittenAfter(h, r, ts) {
      WrittenGrows(h, before, r, ts);
    }
  }

  /** `Row_occ::access`: lock, compare timestamps, copy, unlock. */
  method AccessRow<V(==)>(mem: Memory<V>, t: TxnId, r: RowId, wr: bool) returns (copy: Option<V>)
    requires mem.Valid() && t in mem.s.txns && mem.s.txns[t].phase.Active?
    requires r in mem.s.rows && r.key !in mem.s.txns[t].pos
    modifies mem
    ensures mem.Valid() && old(mem.trace) <= mem.trace && t in mem.s.txns && mem.s.rows.Keys == old(mem.s.rows.Keys)
    ensures mem.s.txns[t] ==
            if copy.Some? then Copied(old(mem.s.txns[t]), r, wr, copy.value) else old(mem.s.txns[t])
    ensures Answer(mem.db, old(mem.s.history), mem.s.history, mem.s.txns[t].startTs, r, copy)
  {
    hide Inv, Runs, Answer;
    ghost var m, p := mem.s, mem.trace;
    ghost var x := mem.s.txns[t];
    mem.Yield(t);
    mem.Act(Want(t, r, wr));
    mem.YieldUntilFree(t);
    mem.Act(Lock(t));
    assert mem.s.txns[t] == x.(phase := Accessing(r, wr));
    ghost var m1 := mem.s;
    Grew(mem, p, m);
    copy := CopyAndUnlock(mem, t, r, wr);
    AnswerEarlier(mem.db, m.history, m1.history, mem.s.history, x.startTs, r, copy);
  }

  method CopyAndUnlock<V(==)>(mem: Memory<V>, t: TxnId, r: RowId, wr: bool) returns (copy: Option<V>)
    requires mem.Valid() && t in mem.s.txns && mem.s.txns[t].phase == Accessing(r, wr) && r in mem.s.rows
    modifies mem
    ensures mem.Valid() && old(mem.trace) <= mem.trace && t in mem.s.txns && mem.s.rows.Keys == old(mem.s.rows.Keys)
    ensures mem.s.txns[t] ==
            (if copy.Some? then Copied(old(mem.s.txns[t]), r, wr, copy.value) else old(mem.s.txns[t])).(phase := Active)
    ensures Answer(mem.db, old(mem.s.history), mem.s.history, mem.s.txns[t].startTs, r, copy)
  {
    hide Inv, Runs, Answer;
    ghost var m0, p0 := mem.s, mem.trace;
    mem.Yield(t);
    Grew(mem, p0, m0);
    ghost var m, p := mem.s, mem.trace;
    if mem.s.txns[t].startTs < mem.s.rows[r].wts {
      copy := None;
    } else {
      copy := Some(mem.s.rows[r].data);
    }
    mem.Act(Copy(t));
    mem.Yield(t);
    mem.Act(Unlock(t));
    CopyAnswers(mem, p, m, t, copy);
    AnswerEarlier(mem.db, m0.history, m.history, mem.s.history, m.txns[t].startTs, r, copy);
  }

  /** The copy step at `m`, judged by the history of any later moment. */
  lemma {:induction false} CopyAnswers<V>(mem: Memory<V>, p: seq<Step<V>>, m: State<V>, t: TxnId, copy: Option<V>)
    requires mem.Valid() && Runs(Init(mem.db), p, m) && p <= mem.trace && Enabled(m, Copy(t))
    requires var x := m.txns[t]; var r := x.phase.row;
             && copy == (if x.startTs < m.rows[r].wts then None else Some(m.rows[r].data))
             && t in mem.s.txns && mem.s.txns[t].startTs == x.startTs
             && (copy.Some? ==> r in mem.s.txns[t].seen && mem.s.txns[t].seen[r] == copy.value)
    ensures Answer(mem.db, m.history, mem.s.history, m.txns[t].startTs, m.txns[t].phase.row, copy)
  {
    hide Inv, Runs, VersionAt, WrittenAfter;
    var x := m.txns[t];
    AccessIff(mem.db, p, m, t);
    Grew(mem, p, m);
    assert Do(m, Copy(t)).txns[t] == TxnAfter(m, x, Copy(t));
    SnapshotForEveryone(mem.db, mem.trace, mem.s, t);
    if copy.None? {
      WrittenGrows(m.history, mem.s.history, x.phase.row, x.startTs);
    }
  }

  /** `Row_occ::latch`, called on the next row of the commit order. */
  method LatchRow<V(==)>(mem: Memory<V>, t: TxnId)
    requires mem.Valid() && t in mem.s.txns
    requires mem.s.txns[t].phase.Latching? && mem.s.txns[t].phase.done < |mem.s.txns[t].phase.order|
    modifies mem
    ensures mem.Valid() && old(mem.trace) <= mem.trace && t in mem.s.txns && mem.s.rows.Keys == old(mem.s.rows.Keys)
    ensures mem.s.txns[t] ==
            var x := old(mem.s.txns[t]); x.(phase := Checking(x.phase.order, x.phase.done))
  {
    hide Inv, Runs;
    mem.YieldUntilFree(t);
    mem.Act(Latch(t));
  }

  /** `Row_occ::validate`: false when the row was written after `ts`. */
  method ValidateRow<V(==)>(mem: Memory<V>, t: TxnId, r: RowId, ts: nat) returns (ok: bool)
    requires mem.Valid() && t in mem.s.txns && mem.s.txns[t].phase.Checking? && ts == mem.s.txns[t].startTs
    requires mem.s.txns[t].phase.done < |mem.s.txns[t].phase.order| && mem.s.txns[t].phase.order[mem.s.txns[t].phase.done] == r
    modifies mem
    ensures mem.Valid() && old(mem.trace) <= mem.trace && t in mem.s.txns && mem.s.rows.Keys == old(mem.s.rows.Keys)
    ensures r in mem.s.rows && (ok <==> mem.s.rows[r].wts <= ts)
    ensures mem.s.txns[t] ==
            var x := old(mem.s.txns[t]);
            x.(phase := if ok then Latching(x.phase.order, x.phase.done + 1)
                        else Releasing(x.phase.order, 0, x.phase.done + 1, false))
  {
    hide Inv, Runs;
    mem.Yield(t);
    OrderedRow(mem.db, mem.s, t, mem.s.txns[t].phase.done);
    ok := !(ts < mem.s.rows[r].wts);
    mem.Act(Check(t));
  }

  /** `Manager::get_ts`, called by a committer that holds and has validated all its rows. */
  method GetEndTs<V(==)>(mem: Memory<V>, t: TxnId) returns (ts: nat)
    requires mem.Valid() && t in mem.s.txns
    requires mem.s.txns[t].phase.Latching? && mem.s.txns[t].phase.done == |mem.s.txns[t].phase.order|
    modifies mem
    ensures mem.Valid() && old(mem.trace) <= mem.trace && t in mem.s.txns && mem.s.rows.Keys == old(mem.s.rows.Keys)
    ensures old(mem.s.counter) <= ts && mem.s.counter == ts + 1
    ensures mem.s.txns[t] ==
            var x := old(mem.s.txns[t]); x.(phase := Writing(x.phase.order, ts, |x.phase.order|, false))
  {
    hide Inv, Runs;
    mem.Yield(t);
    ts := mem.s.counter;
    mem.Act(TakeEnd(t));
  }

  /** `Row_occ::write`: copy the data, then set the write timestamp. */
  method WriteRow<V(==)>(mem: Memory<V>, t: TxnId, r: RowId, data: V, ts: nat)
    requires mem.Valid() && t in mem.s.txns && mem.s.txns[t].phase.Writing?
    requires !mem.s.txns[t].phase.half && 0 < mem.s.txns[t].phase.left <= |mem.s.txns[t].phase.order|
    requires Target(mem.s.txns[t]) == r && mem.s.txns[t].phase.endTs == ts
    requires r in mem.s.txns[t].wset && r in mem.s.txns[t].local && mem.s.txns[t].local[r] == data
    modifies mem
    ensures mem.Valid() && old(mem.trace) <= mem.trace && t in mem.s.txns && mem.s.rows.Keys == old(mem.s.rows.Keys)
    ensures r in mem.s.rows && mem.s.rows[r] == Versioned(data, ts)
    ensures mem.s.txns[t] ==
            var x := old(mem.s.txns[t]); x.(phase := x.phase.(left := x.phase.left - 1))
  {
    hide Inv, Runs;
    OrderedRow(mem.db, mem.s, t, mem.s.txns[t].phase.left - 1);
    TargetLatched(mem.db, mem.s, t);
    mem.Yield(t);
    mem.Act(WriteBack(t));
    assert r in mem.s.latch && mem.s.latch[r] == t && mem.s.rows[r].data == data;
    mem.Yield(t);
    mem.Act(Stamp(t));
  }

  lemma {:induction false} TargetLatched<V>(db: map<RowId, V>, s: State<V>, t: TxnId)
    requires Inv(db, s) && t in s.txns && s.txns[t].phase.Writing?
    requires 0 < s.txns[t].phase.left <= |s.txns[t].phase.order|
    ensures var r := Target(s.txns[t]); r in s.latch && s.latch[r] == t
  {
    hide Inv, LatchesOwned, TxnsWf;
    InvStructure(db, s);
    assert Holds(s.txns[t], Target(s.txns[t]));
  }

  lemma {:induction false} OrderedRow<V>(db: map<RowId, V>, s: State<V>, t: TxnId, i: nat)
    requires Inv(db, s) && t in s.txns && (s.txns[t].phase.Checking? || s.txns[t].phase.Writing?)
    requires i < |s.txns[t].phase.order|
    ensures s.txns[t].phase.order[i] in s.rows && s.txns[t].phase.order[i] in s.txns[t].local
  {
    hide Inv;
    OwnWf(db, s, t);
  }

  /** `Row_occ::release`. */
  method ReleaseRow<V(==)>(mem: Memory<V>, t: TxnId, r: RowId)
    requires mem.Valid() && t in mem.s.txns && mem.s.txns[t].phase.Releasing?
    requires mem.s.txns[t].phase.next < mem.s.txns[t].phase.upto <= |mem.s.txns[t].phase.order|
    requires mem.s.txns[t].phase.order[mem.s.txns[t].phase.next] == r
    modifies mem
    ensures mem.Valid() && old(mem.trace) <= mem.trace && t in mem.s.txns && mem.s.rows.Keys == old(mem.s.rows.Keys)
    ensures r !in mem.s.latch
    ensures mem.s.txns[t] ==
            var x := old(mem.s.txns[t]); x.(phase := x.phase.(next := x.phase.next + 1))
  {
    hide Inv, Runs;
    mem.Yield(t);
    mem.Act(Release(t));
  }

  /** A step that touches only the transaction itself. */
  method PrivateStep<V(==)>(mem: Memory<V>, a: Step<V>)
    requires mem.Valid() && Enabled(mem.s, a)
    requires a.ReadLocal? || a.WriteLocal? || a.Upgrade? || a.UserAbort? || a.BeginCommit? || a.EndWrite? || a.Finish?
             || (a.WriteBack? && Target(mem.s.txns[a.t]) !in mem.s.txns[a.t].wset)
    modifies mem
    ensures mem.Valid() && old(mem.trace) <= mem.trace && a.t in mem.s.txns
    ensures mem.s.rows == old(mem.s.rows) && mem.s.latch == old(mem.s.latch) && mem.s.history == old(mem.s.history)
    ensures mem.s.txns[a.t] == TxnAfter(old(mem.s), old(mem.s.txns[a.t]), a)
  {
    hide Inv, Runs;
    mem.Act(a);
  }
}
