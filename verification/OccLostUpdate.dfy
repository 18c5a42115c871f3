/** No lost updates: read-modify-write transactions on a row never overwrite each other.

    The law is stated for any update function `f`; with `f` adding one it is the check that
    the stress client makes on sampled keys. */
module OccLostUpdate {
  import opened RowOrder
  import opened OccModel
  import opened OccSerial
  import opened OccOps
  import opened OccTheorems

  /** The operations on one row, in order. */
  ghost function OnRow<V>(ops: seq<Op<V>>, r: RowId): seq<Op<V>>
    decreases |ops|
  {
    if ops == [] then []
    else (if ops[0].row == r then [ops[0]] else []) + OnRow(ops[1..], r)
  }

  /** The transaction never writes `r`. */
  ghost predicate NeverWrites<V>(ops: seq<Op<V>>, r: RowId) {
    forall i :: 0 <= i < |OnRow(ops, r)| ==> OnRow(ops, r)[i].Read?
  }

  /** The transaction reads `r` once and writes `f` of what it read. */
  ghost predicate Updates<V>(ops: seq<Op<V>>, r: RowId, f: V -> V) {
    var on := OnRow(ops, r);
    |on| == 2 && on[0].Read? && on[1].Write? && on[1].value == f(on[0].value)
  }

  ghost function Iterate<V>(f: V -> V, n: nat, v: V): V {
    if n == 0 then v else f(Iterate(f, n - 1, v))
  }

  /** The number of commits that write `r`. */
  ghost function UpdateCount<V>(h: seq<Commit<V>>, r: RowId): nat {
    if h == [] then 0
    else UpdateCount(h[..|h| - 1], r) + if NeverWrites(h[|h| - 1].ops, r) then 0 else 1
  }

  /** The fate of one row depends only on the operations on that row. */
  lemma {:induction false} RowAlone<V>(db: map<RowId, V>, one: map<RowId, V>, ops: seq<Op<V>>, r: RowId)
    requires Legal(db, ops) && r in db && r in one && one[r] == db[r]
    ensures r in Exec(db, ops) && r in Exec(one, OnRow(ops, r))
    ensures Legal(one, OnRow(ops, r))
    ensures Exec(db, ops)[r] == Exec(one, OnRow(ops, r))[r]
    decreases |ops|
  {
    if ops != [] {
      var rest := OnRow(ops[1..], r);
      if ops[0].row == r {
        assert OnRow(ops, r) == [ops[0]] + rest;
        assert OnRow(ops, r)[1..] == rest;
      } else {
        assert OnRow(ops, r) == rest;
      }
      match ops[0]
      case Read(q, v) => RowAlone(db, one, ops[1..], r);
      case Write(q, v) => RowAlone(db[q := v], if q == r then one[q := v] else one, ops[1..], r);
    }
  }

  lemma {:induction false} ReadsKeep<V>(db: map<RowId, V>, ops: seq<Op<V>>)
    requires forall i :: 0 <= i < |ops| ==> ops[i].Read?
    ensures Exec(db, ops) == db
    decreases |ops|
  {
    if ops != [] {
      ReadsKeep(db, ops[1..]);
    }
  }

  /** One serial step: an update moves the row to `f` of its value, a reader leaves it. */
  lemma {:induction false} UpdateOne<V>(db: map<RowId, V>, ops: seq<Op<V>>, r: RowId, f: V -> V)
    requires Legal(db, ops) && r in db
    requires NeverWrites(ops, r) || Updates(ops, r, f)
    ensures r in Exec(db, ops)
    ensures Exec(db, ops)[r] == if NeverWrites(ops, r) then db[r] else f(db[r])
  {
    RowAlone(db, db, ops, r);
    var on := OnRow(ops, r);
    if NeverWrites(ops, r) {
      ReadsKeep(db, on);
    } else {
      OnRowIsOn(ops, r);
      assert on == [on[0], on[1]];
      assert on[1..] == [on[1]] && on[1..][1..] == [];
      assert db[r] == on[0].value;
      assert Exec(db, on) == Exec(db, on[1..]) == db[r := on[1].value];
    }
  }

  lemma {:induction false} OnRowIsOn<V>(ops: seq<Op<V>>, r: RowId)
    ensures forall i :: 0 <= i < |OnRow(ops, r)| ==> OnRow(ops, r)[i].row == r
    decreases |ops|
  {
    if ops != [] {
      OnRowIsOn(ops[1..], r);
    }
  }

  lemma {:induction false} SerialCount<V>(db: map<RowId, V>, h: seq<Commit<V>>, r: RowId, f: V -> V)
    requires SerialLegal(db, h) && r in db
    requires forall i :: 0 <= i < |h| ==> NeverWrites(h[i].ops, r) || Updates(h[i].ops, r, f)
    ensures r in Replay(db, h)
    ensures Replay(db, h)[r] == Iterate(f, UpdateCount(h, r), db[r])
  {
    if h != [] {
      SerialCount(db, h[..|h| - 1], r, f);
      UpdateOne(Replay(db, h[..|h| - 1]), h[|h| - 1].ops, r, f);
    }
  }

  /** No lost updates, for every run by any number of clients. */
  lemma {:induction false} NoLostUpdates<V>(db: map<RowId, V>, steps: seq<Step<V>>, s: State<V>, r: RowId, f: V -> V)
    requires Runs(Init(db), steps, s) && UniqueKeys(db.Keys) && r in db
    requires forall i :: 0 <= i < |s.history| ==>
               NeverWrites(s.history[i].ops, r) || Updates(s.history[i].ops, r, f)
    requires r in s.latch && s.latch[r] in s.txns ==> !s.txns[s.latch[r]].phase.Writing?
    ensures r in s.rows && s.rows[r].data == Iterate(f, UpdateCount(s.history, r), db[r])
  {
    hide Runs, SerialLegal, NeverWrites, Updates, UniqueKeys;
    Serializable(db, steps, s);
    SerialCount(db, s.history, r, f);
  }

  lemma {:induction false} IterateIncrement(n: nat, v: int)
    ensures Iterate((x: int) => x + 1, n, v) == v + n
  {
    if n > 0 {
      IterateIncrement(n - 1, v);
    }
  }

  /** With increments, the final value is the initial value plus the number of commits. */
  lemma {:induction false} CountersAddUp(db: map<RowId, int>, steps: seq<Step<int>>, s: State<int>, r: RowId)
    requires Runs(Init(db), steps, s) && UniqueKeys(db.Keys) && r in db
    requires forall i :: 0 <= i < |s.history| ==>
               NeverWrites(s.history[i].ops, r) || Updates(s.history[i].ops, r, (x: int) => x + 1)
    requires r in s.latch && s.latch[r] in s.txns ==> !s.txns[s.latch[r]].phase.Writing?
    ensures r in s.rows && s.rows[r].data == db[r] + UpdateCount(s.history, r)
  {
    hide Runs, NeverWrites, Updates, UniqueKeys;
    NoLostUpdates(db, steps, s, r, (x: int) => x + 1);
    IterateIncrement(UpdateCount(s.history, r), db[r]);
  }
}
