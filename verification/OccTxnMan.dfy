/** `txn_man` as imperative code over the shared memory.

    The object's fields are proved to stay in step with the transaction of the same id in
    the small-step system, under arbitrary interference, so everything proved about runs of
    that system holds of this code. */
module OccTxnMan {
  import opened RowOrder
  import opened OccModel
  import opened OccStructure
  import opened OccVersions
  import opened OccProgress
  import opened OccSerial
  import opened OccTheorems
  import opened OccCauses
  import opened OccMemory
  import opened OccRowApi
  import opened OccSort

  const MAX_ROW_PER_TXN: nat := 64

  /** The value of an access slot. */
  datatype Slot<V> = Slot(row: RowId, wr: bool, data: Option<V>)

  function CountWr<V>(slots: seq<Slot<V>>): nat {
    if slots == [] then 0 else CountWr(slots[..|slots| - 1]) + if slots[|slots| - 1].wr then 1 else 0
  }

  /** The slot holds what transaction `x` has recorded for its row. */
  ghost predicate SlotOf<V>(x: Txn<V>, a: Slot<V>) {
    && a.row in x.local && a.data == Some(x.local[a.row])
    && (a.wr <==> a.row in x.wset)
  }

  /** `record_pos` indexes the slots exactly. */
  ghost predicate Indexed<V>(slots: seq<Slot<V>>, pos: map<nat, nat>) {
    && (forall i :: 0 <= i < |slots| ==> slots[i].row.key in pos && pos[slots[i].row.key] == i)
    && (forall k :: k in pos ==> pos[k] < |slots| && slots[pos[k]].row.key == k)
  }

  /** The slots are the access set of `x`. */
  ghost predicate Matches<V>(x: Txn<V>, slots: seq<Slot<V>>, pos: map<nat, nat>) {
    && (forall i :: 0 <= i < |slots| ==> SlotOf(x, slots[i]))
    && Indexed(slots, pos)
    && (forall r :: r in x.local ==> r.key in pos && slots[pos[r.key]].row == r)
  }

  lemma {:induction false} CountSet<V>(slots: seq<Slot<V>>, i: nat)
    requires i < |slots| && !slots[i].wr
    ensures CountWr(slots[i := slots[i].(wr := true)]) == CountWr(slots) + 1
  {
    var n := |slots| - 1;
    var slots' := slots[i := slots[i].(wr := true)];
    if i == n {
      assert slots'[..n] == slots[..n];
    } else {
      CountSet(slots[..n], i);
      assert slots'[..n] == slots[..n][i := slots[i].(wr := true)];
    }
  }

  lemma {:induction false} CountStore<V>(slots: seq<Slot<V>>, i: nat, d: Option<V>)
    requires i < |slots|
    ensures CountWr(slots[i := slots[i].(data := d)]) == CountWr(slots)
  {
    var n := |slots| - 1;
    var slots' := slots[i := slots[i].(data := d)];
    if i == n {
      assert slots'[..n] == slots[..n];
    } else {
      CountStore(slots[..n], i, d);
      assert slots'[..n] == slots[..n][i := slots[i].(data := d)];
    }
  }

  lemma {:induction false} CountAppend<V>(slots: seq<Slot<V>>, a: Slot<V>)
    ensures CountWr(slots + [a]) == CountWr(slots) + if a.wr then 1 else 0
  {
    assert (slots + [a])[..|slots|] == slots;
  }

  /** `record_pos` agrees with the transaction's own index. */
  lemma {:induction false} MatchedKey<V>(x: Txn<V>, slots: seq<Slot<V>>, pos: map<nat, nat>, key: nat)
    requires Matches(x, slots, pos) && AccessSetWf(x)
    ensures key in pos <==> key in x.pos
    ensures key in pos ==> slots[pos[key]].row == x.pos[key]
  {
    if key in pos {
      assert SlotOf(x, slots[pos[key]]);
    }
  }

  lemma {:induction false} MatchesMark<V>(x: Txn<V>, slots: seq<Slot<V>>, pos: map<nat, nat>, i: nat)
    requires Matches(x, slots, pos) && i < |slots|
    ensures Matches(x.(wset := x.wset + {slots[i].row}), slots[i := slots[i].(wr := true)], pos)
  {
    var y := x.(wset := x.wset + {slots[i].row});
    var slots' := slots[i := slots[i].(wr := true)];
    forall j | 0 <= j < |slots'| ensures SlotOf(y, slots'[j]) {
      assert SlotOf(x, slots[j]);
    }
  }

  lemma {:induction false} MatchesStore<V>(x: Txn<V>, slots: seq<Slot<V>>, pos: map<nat, nat>, i: nat, v: V)
    requires Matches(x, slots, pos) && i < |slots| && slots[i].wr
    ensures Matches(x.(local := x.local[slots[i].row := v]), slots[i := slots[i].(data := Some(v))], pos)
  {
    var y := x.(local := x.local[slots[i].row := v]);
    var slots' := slots[i := slots[i].(data := Some(v))];
    assert SlotOf(x, slots[i]);
    forall j | 0 <= j < |slots'| ensures SlotOf(y, slots'[j]) {
      assert SlotOf(x, slots[j]);
    }
  }

  lemma {:induction false} MatchesRecord<V>(x: Txn<V>, slots: seq<Slot<V>>, pos: map<nat, nat>, r: RowId, wr: bool, v: V)
    requires Matches(x, slots, pos) && AccessSetWf(x) && r.key !in pos
    ensures Matches(Copied(x, r, wr, v), slots + [Slot(r, wr, Some(v))], pos[r.key := |slots|])
  {
    var y := Copied(x, r, wr, v);
    var slots' := slots + [Slot(r, wr, Some(v))];
    assert r !in x.local;
    forall j | 0 <= j < |slots'| ensures SlotOf(y, slots'[j]) {
      if j < |slots| {
        assert SlotOf(x, slots[j]);
      }
    }
  }

  class TxnMan<V(==)> {
    const mem: Memory<V>
    const tid: TxnId
    const startTs: nat
    var endTs: nat
    var rowCnt: nat
    var wrCnt: nat
    var lockCnt: nat
    const accesses: array<Access?<V>>
    var numAlloc: nat
    var recordPos: map<nat, nat>

    /** Allocated slots form a prefix of the array; the access set is a prefix of those. */
    ghost predicate Allocated()
      reads this, accesses
    {
      && accesses.Length == MAX_ROW_PER_TXN
      && rowCnt <= numAlloc <= MAX_ROW_PER_TXN
      && InUse(accesses, numAlloc)
      && (forall i :: numAlloc <= i < MAX_ROW_PER_TXN ==> accesses[i] == null)
    }

    /** The values of the slots in use. */
    ghost function Slots(): (slots: seq<Slot<V>>)
      requires Allocated()
      reads this, accesses, accesses[..]
      ensures |slots| == rowCnt
      ensures forall i :: 0 <= i < rowCnt ==> slots[i] == Slot(accesses[i].row, accesses[i].wr, accesses[i].data)
    {
      seq(rowCnt, i requires 0 <= i < rowCnt && Allocated() reads this, accesses, accesses[..] =>
        Slot(accesses[i].row, accesses[i].wr, accesses[i].data))
    }

    ghost predicate Represents(x: Txn<V>)
      reads this, accesses, accesses[..]
    {
      && Allocated()
      && x.startTs == startTs
      && Matches(x, Slots(), recordPos)
      && wrCnt == CountWr(Slots())
    }

    ghost predicate Valid()
      reads this, mem, accesses, accesses[..]
    {
      && mem.Valid() && tid in mem.s.txns && mem.s.txns[tid].phase.Active?
      && Represents(mem.s.txns[tid])
    }

    /** `begin_txn`: draw the start timestamp; `txn_man::init`: empty access set. */
    constructor (m: Memory<V>, t: TxnId)
      requires m.Valid() && t !in m.s.txns
      modifies m
      ensures mem == m && tid == t && Valid() && fresh(accesses) && rowCnt == 0 && recordPos == map[]
      ensures forall i :: 0 <= i < accesses.Length ==> accesses[i] == null
      ensures old(m.trace) <= m.trace && old(m.s.counter) <= startTs < m.s.counter
      ensures m.s.txns[t] == Txn(startTs, map[], map[], {}, map[], [], Active)
    {
      hide Inv, Runs;
      m.Yield(t);
      mem := m;
      tid := t;
      startTs := m.s.counter;
      m.Act(Begin(t));
      rowCnt, wrCnt, lockCnt, numAlloc, endTs := 0, 0, 0, 0, 0;
      accesses := new Access?<V>[MAX_ROW_PER_TXN](_ => null);
      recordPos := map[];
    }

    /** Turn slot `i` from RD to WR. */
    method MarkWr(ghost x: Txn<V>, i: nat, acc: Access<V>)
      requires Represents(x) && i < rowCnt && accesses[i] == acc
      modifies this`wrCnt, acc`wr
      ensures Represents(x.(wset := x.wset + {acc.row}))
    {
      hide CountWr, Matches;
      ghost var slots := Slots();
      MatchesMark(x, slots, recordPos, i);
      if acc.wr {
        assert slots[i := slots[i].(wr := true)] == slots;
      } else {
        CountSet(slots, i);
        acc.wr := true;
        wrCnt := wrCnt + 1;
        assert Slots() == slots[i := slots[i].(wr := true)];
      }
    }

    lemma {:induction false} HitSlot(x: Txn<V>, key: nat)
      requires Represents(x) && AccessSetWf(x) && key in recordPos
      ensures key in x.pos && recordPos[key] < rowCnt && accesses[recordPos[key]].row == x.pos[key]
    {
      hide CountWr;
      MatchedKey(x, Slots(), recordPos, key);
    }

    /** `txn_man::get_row` on a primary key already recorded. */
    method Hit(row: RowId, wr: bool) returns (acc: Access<V>)
      requires Valid() && row in mem.s.rows && row.key in recordPos
      modifies this, mem, accesses[..]
      ensures Valid() && old(mem.trace) <= mem.trace
      ensures accesses[..] == old(accesses[..]) && recordPos == old(recordPos) && rowCnt == old(rowCnt)
      ensures row.key in old(mem.s.txns[tid]).pos && recordPos[row.key] < rowCnt && acc == accesses[recordPos[row.key]]
      ensures mem.s.txns[tid] == UpgradedIf(old(mem.s.txns[tid]), wr, row.key)
      ensures mem.s.rows == old(mem.s.rows)
    {
      hide Inv, Runs, CountWr, Matches;
      ghost var x := mem.s.txns[tid];
      OwnWf(mem.db, mem.s, tid);
      HitSlot(x, row.key);
      var i := recordPos[row.key];
      acc := accesses[i];
      if wr {
        MarkWr(x, i, acc);
        PrivateStep(mem, Upgrade(tid, row));
      }
    }

    /** Make sure slot `rowCnt` exists. */
    method Allocate(ghost x: Txn<V>)
      requires Represents(x) && rowCnt < MAX_ROW_PER_TXN
      modifies this`numAlloc, accesses
      ensures Represents(x) && rowCnt < numAlloc
      ensures forall i :: 0 <= i < accesses.Length ==> accesses[i] == old(accesses[i]) || fresh(accesses[i])
    {
      hide CountWr, Matches;
      if accesses[rowCnt] == null {
        ghost var slots := Slots();
        var slot := new Access<V>();
        accesses[rowCnt] := slot;
        numAlloc := numAlloc + 1;
        assert Slots() == slots;
      }
    }

    /** Record a freshly copied row in slot `rowCnt`. */
    method Record(ghost x: Txn<V>, row: RowId, wr: bool, v: V, acc: Access<V>)
      requires Represents(x) && rowCnt < numAlloc && accesses[rowCnt] == acc
      requires AccessSetWf(x) && row.key !in recordPos
      modifies this`rowCnt, this`wrCnt, this`recordPos, acc
      ensures Represents(Copied(x, row, wr, v)) && rowCnt == old(rowCnt) + 1
      ensures acc.row == row && acc.data == Some(v) && recordPos == old(recordPos)[row.key := old(rowCnt)]
    {
      hide CountWr, Matches;
      ghost var slots := Slots();
      MatchesRecord(x, slots, recordPos, row, wr, v);
      CountAppend(slots, Slot(row, wr, Some(v)));
      acc.wr := wr;
      acc.row := row;
      acc.data := Some(v);
      recordPos := recordPos[row.key := rowCnt];
      rowCnt := rowCnt + 1;
      if wr {
        wrCnt := wrCnt + 1;
      }
      assert Slots() == slots + [Slot(row, wr, Some(v))];
    }

    /** `txn_man::get_row` on a new primary key.  The caller must stay within
        MAX_ROW_PER_TXN rows: the source does not check. */
    method Miss(row: RowId, wr: bool) returns (acc: Access?<V>)
      requires Valid() && row in mem.s.rows && row.key !in recordPos && rowCnt < MAX_ROW_PER_TXN
      modifies this, mem, accesses, accesses[..]
      ensures Valid() && old(mem.trace) <= mem.trace && mem.s.rows.Keys == old(mem.s.rows.Keys)
      ensures row.key !in old(mem.s.txns[tid]).pos
      ensures acc == null ==> mem.s.txns[tid] == old(mem.s.txns[tid])
      ensures acc != null ==>
                && row.key in recordPos && recordPos[row.key] < rowCnt && acc == accesses[recordPos[row.key]]
                && acc.data.Some? && mem.s.txns[tid] == Copied(old(mem.s.txns[tid]), row, wr, acc.data.value)
      ensures forall i :: 0 <= i < accesses.Length ==> accesses[i] == old(accesses[i]) || fresh(accesses[i])
      ensures Answer(mem.db, old(mem.s.history), mem.s.history, startTs, row, if acc == null then None else acc.data)
    {
      hide Inv, Runs, CountWr, Answer;
      ghost var x := mem.s.txns[tid];
      OwnWf(mem.db, mem.s, tid);
      MatchedKey(x, Slots(), recordPos, row.key);
      hide Matches;
      Allocate(x);
      acc := accesses[rowCnt];
      var copy := AccessRow(mem, tid, row, wr);
      if copy.None? {
        acc := null;
      } else {
        Record(x, row, wr, copy.value, acc);
      }
    }

    /** `txn_man::get_row`: the slot of the local copy, or null when the access was refused. */
    method GetRow(row: RowId, wr: bool) returns (acc: Access?<V>)
      requires Valid() && row in mem.s.rows
      requires row.key !in recordPos ==> rowCnt < MAX_ROW_PER_TXN
      modifies this, mem, accesses, accesses[..]
      ensures Valid() && old(mem.trace) <= mem.trace && mem.s.rows.Keys == old(mem.s.rows.Keys)
      ensures forall i :: 0 <= i < accesses.Length ==> accesses[i] == old(accesses[i]) || fresh(accesses[i])
      ensures acc == null ==> row.key !in old(mem.s.txns[tid]).pos && mem.s.txns[tid] == old(mem.s.txns[tid])
      ensures acc != null ==>
                && row.key in recordPos && recordPos[row.key] < rowCnt && acc == accesses[recordPos[row.key]]
                && if row.key in old(mem.s.txns[tid]).pos then
                     mem.s.txns[tid] == UpgradedIf(old(mem.s.txns[tid]), wr, row.key)
                   else
                     acc.data.Some? && mem.s.txns[tid] == Copied(old(mem.s.txns[tid]), row, wr, acc.data.value)
      ensures row.key !in old(mem.s.txns[tid]).pos ==>
                Answer(mem.db, old(mem.s.history), mem.s.history, startTs, row, if acc == null then None else acc.data)
    {
      hide Inv, Runs, CountWr, Matches, InUse, Answer;
      if row.key in recordPos {
        acc := Hit(row, wr);
      } else {
        acc := Miss(row, wr);
      }
    }

    /** What a client reads: the local copy.  Only a row seen for the first time can be
        refused. */
    method ReadValue(row: RowId) returns (v: Option<V>)
      requires Valid() && row in mem.s.rows
      requires row.key !in recordPos ==> rowCnt < MAX_ROW_PER_TXN
      modifies this, mem, accesses, accesses[..]
      ensures Valid() && old(mem.trace) <= mem.trace && mem.s.rows.Keys == old(mem.s.rows.Keys)
      ensures v.None? ==> mem.s.txns[tid] == old(mem.s.txns[tid]) && row.key !in old(mem.s.txns[tid]).pos
      ensures row.key !in old(mem.s.txns[tid]).pos ==>
                Answer(mem.db, old(mem.s.history), mem.s.history, startTs, row, v)
      ensures row.key in old(mem.s.txns[tid]).pos ==>
                var x := old(mem.s.txns[tid]);
                x.pos[row.key] in x.local && v == Some(x.local[x.pos[row.key]])
      ensures v.Some? ==>
                && row.key in recordPos
                && var x := old(mem.s.txns[tid]);
                   mem.s.txns[tid] ==
                   (if row.key in x.pos then x else Copied(x, row, false, v.value)).(ops := x.ops + [Read(row, v.value)])
      ensures forall i :: 0 <= i < accesses.Length ==> accesses[i] == old(accesses[i]) || fresh(accesses[i])
    {
      hide Inv, Runs, CountWr, Matches, InUse;
      var acc := GetRow(row, false);
      if acc == null {
        return None;
      }
      HitData(mem.s.txns[tid], row.key);
      v := acc.data;
      PrivateStep(mem, ReadLocal(tid, row));
      OpsIrrelevant(mem.s.txns[tid]);
    }

    lemma {:induction false} HitData(x: Txn<V>, key: nat)
      requires Valid() && x == mem.s.txns[tid] && key in recordPos
      ensures key in x.pos && x.pos[key] in x.local && recordPos[key] < rowCnt
      ensures accesses[recordPos[key]].data == Some(x.local[x.pos[key]])
      ensures accesses[recordPos[key]].row == x.pos[key]
      ensures accesses[recordPos[key]].wr <==> x.pos[key] in x.wset
    {
      hide Inv, Runs, CountWr;
      OwnWf(mem.db, mem.s, tid);
      HitSlot(x, key);
      assert SlotOf(x, Slots()[recordPos[key]]);
    }

    /** The slots do not depend on the operation log. */
    lemma {:induction false} OpsIrrelevant(y: Txn<V>)
      ensures forall ops :: Represents(y.(ops := ops)) <==> Represents(y)
    {
      hide CountWr;
      forall ops, a: Slot<V> ensures SlotOf(y.(ops := ops), a) <==> SlotOf(y, a) {}
    }

    /** What a client writes goes to the local copy, marked WR. */
    method WriteValue(row: RowId, v: V) returns (ok: bool)
      requires Valid() && row in mem.s.rows
      requires row.key !in recordPos ==> rowCnt < MAX_ROW_PER_TXN
      modifies this, mem, accesses, accesses[..]
      ensures Valid() && old(mem.trace) <= mem.trace && mem.s.rows.Keys == old(mem.s.rows.Keys)
      ensures !ok ==> mem.s.txns[tid] == old(mem.s.txns[tid]) && row.key !in old(mem.s.txns[tid]).pos
      ensures row.key !in old(mem.s.txns[tid]).pos ==>
                if ok then !WrittenAfter(old(mem.s.history), row, startTs) else WrittenAfter(mem.s.history, row, startTs)
      ensures ok ==>
                var x, y := old(mem.s.txns[tid]), mem.s.txns[tid];
                && row.key in y.pos && y.local.Keys == x.local.Keys + {y.pos[row.key]}
                && y.local[y.pos[row.key]] == v && y.wset == x.wset + {y.pos[row.key]}
                && (forall r :: r in x.local && r != y.pos[row.key] ==> y.local[r] == x.local[r])
                && y.pos == (if row.key in x.pos then x.pos else x.pos[row.key := row])
                && y.startTs == x.startTs && y.phase == x.phase
      ensures ok ==> mem.s.txns[tid].ops == old(mem.s.txns[tid]).ops + [Write(row, v)]
      ensures forall i :: 0 <= i < accesses.Length ==> accesses[i] == old(accesses[i]) || fresh(accesses[i])
    {
      hide Inv, Runs, CountWr, Matches, InUse;
      var acc := GetRow(row, true);
      if acc == null {
        return false;
      }
      ghost var x := mem.s.txns[tid];
      HitData(x, row.key);
      Store(x, recordPos[row.key], acc, v);
      PrivateStep(mem, WriteLocal(tid, row, v));
      OpsIrrelevant(mem.s.txns[tid]);
      assert x.wset + {x.pos[row.key]} == x.wset;
      ok := true;
    }

    method Store(ghost x: Txn<V>, i: nat, acc: Access<V>, v: V)
      requires Represents(x) && i < rowCnt && accesses[i] == acc && acc.wr
      modifies acc`data
      ensures Represents(x.(local := x.local[acc.row := v]))
    {
      hide CountWr, Matches;
      ghost var slots := Slots();
      MatchesStore(x, slots, recordPos, i, v);
      CountStore(slots, i, Some(v));
      acc.data := Some(v);
      assert Slots() == slots[i := slots[i].(data := Some(v))];
    }

    // ----- commit -----

    /** The rows of the first `n` slots. */
    function Rows(n: nat): (order: seq<RowId>)
      requires Allocated() && n <= numAlloc
      reads this, accesses, accesses[..]
      ensures |order| == n && forall i :: 0 <= i < n ==> order[i] == accesses[i].row
    {
      seq(n, i requires 0 <= i < n && n <= numAlloc && Allocated() reads this, accesses, accesses[..] => accesses[i].row)
    }

    /** The first `n` slots hold the local copies and marks of `x`. */
    ghost predicate Loaded(x: Txn<V>, n: nat)
      requires Allocated() && n <= rowCnt
      reads this, accesses, accesses[..]
    {
      forall i :: 0 <= i < n ==> SlotOf(x, Slot(accesses[i].row, accesses[i].wr, accesses[i].data))
    }

    /** The local copies in slots `lo` to `hi` are gone. */
    ghost predicate Dropped(lo: nat, hi: nat)
      requires Allocated() && hi <= numAlloc
      reads this, accesses, accesses[..]
    {
      forall i :: lo <= i < hi ==> accesses[i].data == None
    }

    ghost function Objects(): seq<Access?<V>>
      reads this, accesses
    {
      accesses[..]
    }

    /** Sorting moves the slots around; `perm` says where each one came from and `dest` where
        each one went. */
    method SortArray() returns (ghost perm: seq<nat>, ghost dest: seq<nat>)
      requires Allocated()
      modifies accesses
      ensures Allocated() && multiset(Objects()) == multiset(old(Objects()))
      ensures |perm| == rowCnt &&
              forall i {:trigger perm[i]} :: 0 <= i < rowCnt ==> perm[i] < rowCnt && Objects()[i] == old(Objects())[perm[i]]
      ensures forall i, j :: 0 <= i < j < rowCnt ==> perm[i] != perm[j]
      ensures |dest| == rowCnt &&
              forall j {:trigger dest[j]} :: 0 <= j < rowCnt ==> dest[j] < rowCnt && Objects()[dest[j]] == old(Objects())[j]
      ensures forall i, j :: 0 <= i < j < rowCnt ==> AtMost(accesses[i].row, accesses[j].row)
    {
      hide OutOfOrder, AtMost;
      var n := rowCnt;
      ghost var before := accesses[..];
      assert forall i :: 0 <= i < n ==> before[..n][i] == accesses[i];
      Sort(accesses, numAlloc, n);
      assert before == before[..n] + before[n..] && accesses[..] == accesses[..n] + accesses[n..];
      TailSame(before, accesses[..], n);
      perm, dest := Permutation(before[..n], accesses[..n]);
    }

    /** Sorting the slots gives the order in which the rows are latched. */
    method SortSlots(ghost x: Txn<V>)
      requires Represents(x)
      modifies accesses
      ensures Allocated() && multiset(Objects()) == multiset(old(Objects()))
      ensures Loaded(x, rowCnt) && CommitOrder(x, Rows(rowCnt))
    {
      hide CountWr, Matches, OutOfOrder, AtMost, SlotOf, CommitOrder;
      ghost var slots := Slots();
      ghost var perm, dest := SortArray();
      ghost var sorted := Slots();
      forall j | 0 <= j < rowCnt ensures slots[j] in sorted {
        assert accesses[dest[j]] == Objects()[dest[j]] == old(accesses[j]);
        assert sorted[dest[j]] == slots[j];
      }
      forall i {:trigger perm[i]} | 0 <= i < rowCnt ensures sorted[i] == slots[perm[i]] {
        assert accesses[i] == Objects()[i] == old(accesses[perm[i]]);
      }
      PermutedSlots(x, slots, recordPos, sorted, perm);
      SortedOrder(x, slots, recordPos, sorted, perm);
      assert Rows(rowCnt) == RowsOf(sorted);
    }

    /** The latch-and-validate loop: latches rows in order until one fails validation. */
    method LatchAll(ghost x: Txn<V>) returns (ok: bool)
      requires mem.Valid() && Allocated() && tid in mem.s.txns && x.startTs == startTs
      requires mem.s.txns[tid] == x.(phase := Latching(Rows(rowCnt), 0))
      modifies this`lockCnt, mem
      ensures mem.Valid() && old(mem.trace) <= mem.trace && tid in mem.s.txns && lockCnt <= rowCnt
      ensures ok ==> lockCnt == rowCnt
      ensures mem.s.txns[tid] ==
              x.(phase := if ok then Latching(Rows(rowCnt), rowCnt) else Releasing(Rows(rowCnt), 0, lockCnt, false))
    {
      hide Inv, Runs;
      ghost var order := Rows(rowCnt);
      ok := true;
      lockCnt := 0;
      var i := 0;
      while i < rowCnt && ok
        invariant 0 <= i <= rowCnt && lockCnt == i
        invariant mem.Valid() && old(mem.trace) <= mem.trace && tid in mem.s.txns
        invariant mem.s.txns[tid] ==
                  x.(phase := if ok then Latching(order, i) else Releasing(order, 0, i, false))
      {
        lockCnt := lockCnt + 1;
        LatchRow(mem, tid);
        ok := ValidateRow(mem, tid, accesses[i].row, startTs);
        i := i + 1;
      }
      assert Rows(rowCnt) == order;
    }

    /** `cleanup(RCOK)`: write the WR rows back, last to first, and drop the local copies. */
    method WriteAll(ghost x: Txn<V>)
      requires mem.Valid() && Allocated() && tid in mem.s.txns && Loaded(x, rowCnt)
      requires mem.s.txns[tid] == x.(phase := Writing(Rows(rowCnt), endTs, rowCnt, false))
      modifies mem, accesses[..]
      ensures mem.Valid() && old(mem.trace) <= mem.trace && tid in mem.s.txns
      ensures Allocated() && Rows(rowCnt) == old(Rows(rowCnt))
      ensures mem.s.txns[tid] == x.(phase := Writing(Rows(rowCnt), endTs, 0, false))
      ensures Dropped(0, rowCnt)
    {
      hide Inv, Runs, SlotOf;
      ghost var order := Rows(rowCnt);
      var rid := rowCnt;
      while rid > 0
        invariant 0 <= rid <= rowCnt && Allocated() && Rows(rowCnt) == order && Loaded(x, rid)
        invariant mem.Valid() && old(mem.trace) <= mem.trace && tid in mem.s.txns
        invariant mem.s.txns[tid] == x.(phase := Writing(order, endTs, rid, false))
        invariant Dropped(rid, rowCnt)
      {
        rid := rid - 1;
        WriteOne(x, rid, accesses[rid]);
      }
    }

    method WriteOne(ghost x: Txn<V>, rid: nat, acc: Access<V>)
      requires mem.Valid() && Allocated() && tid in mem.s.txns && rid < rowCnt && Loaded(x, rid + 1) && accesses[rid] == acc
      requires mem.s.txns[tid] == x.(phase := Writing(Rows(rowCnt), endTs, rid + 1, false))
      modifies mem, acc`data
      ensures mem.Valid() && old(mem.trace) <= mem.trace && tid in mem.s.txns
      ensures Allocated() && Rows(rowCnt) == old(Rows(rowCnt)) && Loaded(x, rid)
      ensures mem.s.txns[tid] == x.(phase := Writing(Rows(rowCnt), endTs, rid, false))
      ensures acc.data == None
    {
      hide Inv, Runs;
      ghost var order := Rows(rowCnt);
      assert SlotOf(x, Slot(acc.row, acc.wr, acc.data));
      OrderedRow(mem.db, mem.s, tid, rid);
      if acc.wr {
        WriteRow(mem, tid, acc.row, acc.data.value, endTs);
      } else {
        PrivateStep(mem, WriteBack(tid));
      }
      acc.data := None;
      assert Rows(rowCnt) == order;
    }

    /** `cleanup(Abort)`: drop the local copies; shared memory is not touched. */
    method DropAll()
      requires Allocated()
      modifies accesses[..]
      ensures Allocated() && Rows(rowCnt) == old(Rows(rowCnt)) && Dropped(0, rowCnt)
    {
      var rid := rowCnt;
      ghost var order := Rows(rowCnt);
      while rid > 0
        invariant 0 <= rid <= rowCnt && Allocated() && Rows(rowCnt) == order && Dropped(rid, rowCnt)
      {
        rid := rid - 1;
        accesses[rid].data := None;
        assert Rows(rowCnt) == order;
      }
    }

    /** Release the latches taken, first to last. */
    method ReleaseAll(ghost x: Txn<V>, ghost committed: bool)
      requires mem.Valid() && Allocated() && tid in mem.s.txns && lockCnt <= numAlloc
      requires mem.s.txns[tid].phase.Releasing? && lockCnt <= |mem.s.txns[tid].phase.order|
      requires mem.s.txns[tid].phase.order[..lockCnt] == Rows(lockCnt)
      requires mem.s.txns[tid] == x.(phase := Releasing(mem.s.txns[tid].phase.order, 0, lockCnt, committed))
      modifies mem
      ensures mem.Valid() && old(mem.trace) <= mem.trace && tid in mem.s.txns
      ensures mem.s.txns[tid] == x.(phase := Finished(committed))
    {
      hide Inv, Runs;
      ghost var order := mem.s.txns[tid].phase.order;
      var i := 0;
      while i < lockCnt
        invariant 0 <= i <= lockCnt
        invariant mem.Valid() && old(mem.trace) <= mem.trace && tid in mem.s.txns
        invariant mem.s.txns[tid] == x.(phase := Releasing(order, i, lockCnt, committed))
      {
        assert order[i] == order[..lockCnt][i] == accesses[i].row;
        ReleaseRow(mem, tid, accesses[i].row);
        i := i + 1;
      }
      PrivateStep(mem, Finish(tid));
    }

    /** `txn_man::cleanup`: write back on commit, drop the copies, empty the access set. */
    method Cleanup(ghost x: Txn<V>, ghost order: seq<RowId>, ok: bool)
      requires mem.Valid() && Allocated() && tid in mem.s.txns && Rows(rowCnt) == order && Loaded(x, rowCnt)
      requires ok ==> mem.s.txns[tid] == x.(phase := Writing(order, endTs, |order|, false))
      modifies mem, accesses[..], this`rowCnt, this`wrCnt, this`recordPos
      ensures mem.Valid() && old(mem.trace) <= mem.trace && tid in mem.s.txns
      ensures Allocated() && |order| <= numAlloc && Rows(|order|) == order && Dropped(0, |order|)
      ensures rowCnt == 0 && wrCnt == 0 && recordPos == map[]
      ensures if ok then mem.s.txns[tid] == x.(phase := Writing(order, endTs, 0, false))
              else mem.s == old(mem.s)
    {
      hide Inv, Runs, SlotOf;
      if ok {
        WriteAll(x);
      } else {
        DropAll();
      }
      rowCnt, wrCnt, recordPos := 0, 0, map[];
      assert Rows(|order|) == order;
    }

    /** Latch and validate in order; on success draw the end timestamp. */
    method Decide(ghost x: Txn<V>, order: seq<RowId>) returns (ok: bool)
      requires mem.Valid() && Allocated() && tid in mem.s.txns && mem.s.txns[tid] == x && x.phase.Active?
      requires Rows(rowCnt) == order && CommitOrder(x, order) && x.startTs == startTs
      modifies this`lockCnt, this`endTs, mem
      ensures mem.Valid() && old(mem.trace) <= mem.trace && tid in mem.s.txns && lockCnt <= |order|
      ensures Rows(rowCnt) == order && (ok ==> lockCnt == |order|)
      ensures mem.s.txns[tid] ==
              x.(phase := if ok then Writing(order, endTs, |order|, false) else Releasing(order, 0, lockCnt, false))
    {
      hide Inv, Runs, CommitOrder;
      PrivateStep(mem, BeginCommit(tid, order));
      ok := LatchAll(x);
      assert Rows(rowCnt) == order;
      if ok {
        endTs := GetEndTs(mem, tid);
        assert Rows(rowCnt) == order;
      }
    }

    /** Clean up, then release the latches that were taken. */
    method Conclude(ghost x: Txn<V>, ghost order: seq<RowId>, ok: bool)
      requires mem.Valid() && Allocated() && tid in mem.s.txns && Rows(rowCnt) == order && Loaded(x, rowCnt)
      requires lockCnt <= |order| && (ok ==> lockCnt == |order|)
      requires mem.s.txns[tid] ==
               x.(phase := if ok then Writing(order, endTs, |order|, false) else Releasing(order, 0, lockCnt, false))
      modifies mem, accesses[..], this`rowCnt, this`wrCnt, this`recordPos
      ensures mem.Valid() && old(mem.trace) <= mem.trace && tid in mem.s.txns
      ensures mem.s.txns[tid] == x.(phase := Finished(ok))
      ensures Allocated() && rowCnt == 0 && wrCnt == 0 && recordPos == map[]
    {
      hide Inv, Runs, SlotOf;
      Cleanup(x, order, ok);
      if ok {
        PrivateStep(mem, EndWrite(tid));
      }
      assert order[..lockCnt] == Rows(lockCnt);
      ReleaseAll(x, ok);
    }

    /** `OptCC::validate`.  Under any interference the transaction ends committed or aborted
        with its access set unchanged in between, and the memory has followed a run of the
        small-step system.  It aborts only when another commit has overtaken it on one of its
        rows since it began, and never commits then. */
    method Validate() returns (committed: bool)
      requires Valid()
      modifies this, mem, accesses, accesses[..]
      ensures mem.Valid() && old(mem.trace) <= mem.trace && tid in mem.s.txns
      ensures mem.s.txns[tid] == old(mem.s.txns[tid]).(phase := Finished(committed))
      ensures Verdict(old(mem.s.history), mem.s.history, tid, old(mem.s.txns[tid]).local.Keys, startTs, committed)
      ensures forall r :: r in mem.s.latch ==> mem.s.latch[r] != tid
      ensures Allocated() && rowCnt == 0 && wrCnt == 0 && recordPos == map[]
    {
      hide Inv, Runs, CountWr, Matches, SlotOf, Verdict;
      ghost var m, p := mem.s, mem.trace;
      ghost var x := mem.s.txns[tid];
      SortSlots(x);
      SameElements(old(Objects()), Objects());
      assert forall i :: 0 <= i < accesses.Length ==> accesses[i] == Objects()[i];
      var order := Rows(rowCnt);
      committed := Decide(x, order);
      assert Loaded(x, rowCnt);
      ghost var m1, p1 := mem.s, mem.trace;
      Conclude(x, order, committed);
      FinishedHoldsNothing(mem.db, mem.s, tid);
      if committed {
        CommitJudged(mem, p, m, tid, x);
      } else {
        AbortJudged(mem, m, p1, m1, tid, x);
      }
    }

    /** `txn_man::finish(Abort)`: no shared row changes. */
    method Abort()
      requires Valid()
      modifies this, mem, accesses[..]
      ensures mem.Valid() && old(mem.trace) <= mem.trace && tid in mem.s.txns
      ensures mem.s.txns[tid] == old(mem.s.txns[tid]).(phase := Finished(false))
      ensures mem.s.rows == old(mem.s.rows) && mem.s.latch == old(mem.s.latch) && mem.s.history == old(mem.s.history)
      ensures Allocated() && rowCnt == 0 && wrCnt == 0 && recordPos == map[]
    {
      hide Inv, Runs, CountWr, Matches;
      ghost var x := mem.s.txns[tid];
      AllLoaded(x);
      Cleanup(x, Rows(rowCnt), false);
      PrivateStep(mem, UserAbort(tid));
    }

    /** `OptCC::get_rw_set`: the access set split by mark.  Both size assertions hold. */
    method GetRwSet() returns (rset: array<RowId>, wset: array<RowId>)
      requires Valid()
      ensures wset[..] == RowsMarked(Slots(), true)
      ensures rset[..] == RowsMarked(Slots(), false)
      ensures wset.Length == wrCnt && rset.Length == rowCnt - wrCnt
    {
      hide Inv, Runs, Matches, RowsMarked, CountWr;
      ghost var slots := Slots();
      MarkedCount(slots);
      MarkedNone(slots);
      wset := new RowId[wrCnt](_ => RowId("", 0));
      rset := new RowId[rowCnt - wrCnt](_ => RowId("", 0));
      var n, m, i := 0, 0, 0;
      while i < rowCnt
        invariant 0 <= i <= rowCnt
        invariant n == |RowsMarked(slots[..i], true)| <= wset.Length
        invariant m == |RowsMarked(slots[..i], false)| <= rset.Length
        invariant wset[..n] == RowsMarked(slots[..i], true)
        invariant rset[..m] == RowsMarked(slots[..i], false)
      {
        MarkedRoom(slots, i);
        MarkedStep(slots, i);
        if accesses[i].wr {
          wset[n] := accesses[i].row;
          n := n + 1;
        } else {
          rset[m] := accesses[i].row;
          m := m + 1;
        }
        i := i + 1;
      }
      assert slots[..rowCnt] == slots;
      assert n == wset.Length;
      assert m == rset.Length;
    }

    lemma {:induction false} AllLoaded(x: Txn<V>)
      requires Represents(x)
      ensures Loaded(x, rowCnt)
    {
      hide CountWr;
      forall i | 0 <= i < rowCnt ensures SlotOf(x, Slot(accesses[i].row, accesses[i].wr, accesses[i].data)) {
        assert SlotOf(x, Slots()[i]);
      }
    }
  }

  /** Why a transaction on `rows` that started at `ts` may commit or not. */
  ghost predicate Verdict<V>(before: seq<Commit<V>>, after: seq<Commit<V>>, t: TxnId, rows: set<RowId>, ts: nat, committed: bool) {
    if committed then
      exists j :: |before| <= j < |after| && after[j].tid == t && !Overtaken(after[..j], rows, ts)
    else
      Overtaken(after, rows, ts)
  }

  lemma {:induction false} CommitJudged<V>(mem: Memory<V>, p: seq<Step<V>>, m: State<V>, t: TxnId, x: Txn<V>)
    requires mem.Valid() && Inv(mem.db, m) && Runs(Init(mem.db), p, m) && p <= mem.trace
    requires t in m.txns && m.txns[t] == x && x.phase.Active?
    requires t in mem.s.txns && mem.s.txns[t] == x.(phase := Finished(true))
    ensures Verdict(m.history, mem.s.history, t, x.local.Keys, x.startTs, true)
  {
    Grew(mem, p, m);
    RecordedNow(mem.db, mem.s);
    RecordedNow(mem.db, m);
    OwnWf(mem.db, m, t);
    CommitsUnlessOvertaken(mem.db, mem.trace, mem.s);
    hide Inv, Runs, Overtaken;
    forall i | 0 <= i < |m.history| ensures mem.s.history[i].tid != t {
      assert mem.s.history[i] == m.history[i] && Describes(m, m.history[i]);
    }
    assert HasCommit(mem.s.history, t);
    var j :| 0 <= j < |mem.s.history| && mem.s.history[j].tid == t;
    assert Describes(mem.s, mem.s.history[j]);
  }

  lemma {:induction false} AbortJudged<V>(mem: Memory<V>, m: State<V>, p1: seq<Step<V>>, m1: State<V>, t: TxnId, x: Txn<V>)
    requires mem.Valid() && Runs(Init(mem.db), p1, m1) && p1 <= mem.trace
    requires t in m1.txns && m1.txns[t].phase.Releasing? && !m1.txns[t].phase.committed
    requires m1.txns[t].local == x.local && m1.txns[t].startTs == x.startTs
    ensures Verdict(m.history, mem.s.history, t, x.local.Keys, x.startTs, false)
  {
    hide Inv, Runs, Overtaken;
    Grew(mem, p1, m1);
    CommitsUnlessOvertaken(mem.db, p1, m1);
    OvertakenGrows(m1.history, mem.s.history, x.local.Keys, x.startTs);
  }

  lemma {:induction false} RecordedNow<V>(db: map<RowId, V>, s: State<V>)
    requires Inv(db, s)
    ensures Recorded(s)
  {
    hide Recorded;
  }

  lemma {:induction false} FinishedHoldsNothing<V>(db: map<RowId, V>, s: State<V>, t: TxnId)
    requires Inv(db, s) && t in s.txns && s.txns[t].phase.Finished?
    ensures forall r :: r in s.latch ==> s.latch[r] != t
  {
    hide Inv, TxnsWf, HoldersOwn;
    InvStructure(db, s);
  }

  /** The rows of the slots with the given mark, in slot order. */
  function RowsMarked<V>(slots: seq<Slot<V>>, wr: bool): seq<RowId> {
    if slots == [] then []
    else
      var a := slots[|slots| - 1];
      RowsMarked(slots[..|slots| - 1], wr) + if a.wr == wr then [a.row] else []
  }

  lemma {:induction false} MarkedCount<V>(slots: seq<Slot<V>>)
    ensures |RowsMarked(slots, true)| == CountWr(slots) <= |slots|
    ensures |RowsMarked(slots, false)| == |slots| - CountWr(slots)
  {
    if slots != [] {
      MarkedCount(slots[..|slots| - 1]);
    }
  }

  lemma {:induction false} MarkedNone<V>(slots: seq<Slot<V>>)
    ensures RowsMarked(slots[..0], true) == [] && RowsMarked(slots[..0], false) == []
  {}

  lemma {:induction false} MarkedStep<V>(slots: seq<Slot<V>>, i: nat)
    requires i < |slots|
    ensures RowsMarked(slots[..i + 1], slots[i].wr) == RowsMarked(slots[..i], slots[i].wr) + [slots[i].row]
    ensures RowsMarked(slots[..i + 1], !slots[i].wr) == RowsMarked(slots[..i], !slots[i].wr)
  {
    assert slots[..i + 1][..i] == slots[..i];
  }

  /** While slots remain, so does room for them. */
  lemma {:induction false} MarkedRoom<V>(slots: seq<Slot<V>>, i: nat)
    requires i < |slots|
    ensures |RowsMarked(slots[..i], slots[i].wr)| < |RowsMarked(slots, slots[i].wr)|
    ensures |RowsMarked(slots[..i], !slots[i].wr)| <= |RowsMarked(slots, !slots[i].wr)|
  {
    var n := |slots| - 1;
    if i < n {
      MarkedRoom(slots[..n], i);
      assert slots[..n][..i] == slots[..i];
    }
  }

  /** `OptCC::test_valid`: true exactly when the two row sets are disjoint. */
  method TestValid(set1: array<RowId>, set2: array<RowId>) returns (ok: bool)
    ensures ok <==> forall r :: r in set1[..] ==> r !in set2[..]
  {
    var i := 0;
    while i < set1.Length
      invariant 0 <= i <= set1.Length
      invariant forall k :: 0 <= k < i ==> set1[k] !in set2[..]
    {
      var j := 0;
      while j < set2.Length
        invariant 0 <= j <= set2.Length
        invariant set1[i] !in set2[..j]
      {
        if set1[i] == set2[j] {
          assert set1[i] in set1[..] && set2[j] in set2[..];
          return false;
        }
        j := j + 1;
      }
      assert set2[..j] == set2[..];
      i := i + 1;
    }
    ok := true;
  }

  /** Where each element of `b` comes from in its permutation `a`, and the other way round. */
  lemma {:induction false} Permutation<T>(a: seq<T>, b: seq<T>) returns (perm: seq<nat>, dest: seq<nat>)
    requires multiset(a) == multiset(b)
    requires forall i, j :: 0 <= i < j < |b| ==> b[i] != b[j]
    ensures |perm| == |b| == |a|
    ensures forall i :: 0 <= i < |b| ==> perm[i] < |a| && b[i] == a[perm[i]]
    ensures forall i, j :: 0 <= i < j < |b| ==> perm[i] != perm[j]
    ensures |dest| == |a| && forall j :: 0 <= j < |a| ==> dest[j] < |b| && a[j] == b[dest[j]]
  {
    assert |a| == |multiset(a)| == |multiset(b)| == |b|;
    forall i | 0 <= i < |b| ensures b[i] in a {
      assert b[i] in multiset(b);
    }
    forall j | 0 <= j < |a| ensures a[j] in b {
      assert a[j] in multiset(a);
    }
    perm := seq(|b|, i requires 0 <= i < |b| => var j :| 0 <= j < |a| && a[j] == b[i]; j);
    dest := seq(|a|, j requires 0 <= j < |a| => var i :| 0 <= i < |b| && b[i] == a[j]; i);
  }

  lemma {:induction false} TailSame<T>(a: seq<T>, b: seq<T>, n: nat)
    requires |a| == |b| && n <= |a| && a[n..] == b[n..]
    ensures forall i :: n <= i < |a| ==> a[i] == b[i]
  {
    assert forall i :: n <= i < |a| ==> a[n..][i - n] == a[i] && b[n..][i - n] == b[i];
  }

  lemma {:induction false} SameElements<T>(a: seq<T>, b: seq<T>)
    requires multiset(a) == multiset(b)
    ensures forall i :: 0 <= i < |b| ==> b[i] in a
  {
    forall i | 0 <= i < |b| ensures b[i] in a {
      assert b[i] in multiset(b);
    }
  }

  ghost function RowsOf<V>(slots: seq<Slot<V>>): (rows: seq<RowId>)
    ensures |rows| == |slots|
  {
    seq(|slots|, i requires 0 <= i < |slots| => slots[i].row)
  }

  lemma {:induction false} PermutedSlots<V>(x: Txn<V>, slots: seq<Slot<V>>, pos: map<nat, nat>, sorted: seq<Slot<V>>, perm: seq<nat>)
    requires Matches(x, slots, pos) && |sorted| == |perm| == |slots|
    requires forall i :: 0 <= i < |perm| ==> perm[i] < |slots| && sorted[i] == slots[perm[i]]
    ensures forall i :: 0 <= i < |sorted| ==> SlotOf(x, sorted[i])
  {
    forall i | 0 <= i < |sorted| ensures SlotOf(x, sorted[i]) {
      assert SlotOf(x, slots[perm[i]]);
    }
  }

  /** A sorted permutation of the slots lists the access set in strictly ascending order. */
  lemma {:induction false} SortedOrder<V>(x: Txn<V>, slots: seq<Slot<V>>, pos: map<nat, nat>, sorted: seq<Slot<V>>, perm: seq<nat>)
    requires Matches(x, slots, pos) && |sorted| == |perm| == |slots|
    requires forall i :: 0 <= i < |perm| ==> perm[i] < |slots| && sorted[i] == slots[perm[i]]
    requires forall i, j :: 0 <= i < j < |perm| ==> perm[i] != perm[j]
    requires forall j :: 0 <= j < |slots| ==> slots[j] in sorted
    requires forall i, j :: 0 <= i < j < |sorted| ==> AtMost(sorted[i].row, sorted[j].row)
    ensures CommitOrder(x, RowsOf(sorted))
  {
    var order := RowsOf(sorted);
    forall i, j {:trigger Before(order[i], order[j])} | 0 <= i < j < |order| ensures Before(order[i], order[j]) {
      assert slots[perm[i]].row.key in pos && slots[perm[j]].row.key in pos;
      BeforeTotal(order[i], order[j]);
    }
    hide AtMost, OutOfOrder;
    forall r | r in order ensures r in x.local {
      var i :| 0 <= i < |order| && order[i] == r;
      assert SlotOf(x, slots[perm[i]]);
    }
    forall r | r in x.local ensures r in order {
      var i :| 0 <= i < |sorted| && sorted[i] == slots[pos[r.key]];
      assert order[i] == r;
    }
  }

  function UpgradedIf<V>(x: Txn<V>, wr: bool, key: nat): Txn<V>
    requires key in x.pos
  {
    if wr then x.(wset := x.wset + {x.pos[key]}) else x
  }
}
