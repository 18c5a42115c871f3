/** The operations clients issue, and how the private copies account for them.

    `get_row` finds a recorded row by primary key alone, so this part needs that no two
    rows of the database share a primary key. */
module OccOps {
  import opened RowOrder
  import opened OccModel
  import opened OccSerial
  import opened OccStructure
  import opened OccVersions
  import opened OccPreserve

  ghost predicate UniqueKeys(rows: set<RowId>) {
    forall r, q :: r in rows && q in rows && r.key == q.key ==> r == q
  }

  /** Run alone on its first copies, the transaction reads what it returned and ends in its
      private copies; rows not marked WR keep their first copy. */
  ghost predicate OpsOk<V>(x: Txn<V>) {
    && Legal(x.seen, x.ops)
    && Exec(x.seen, x.ops) == x.local
    && forall r :: r in x.local && r !in x.wset ==> r in x.seen && x.local[r] == x.seen[r]
  }

  ghost predicate AllOpsOk<V>(s: State<V>) {
    forall t :: t in s.txns ==> OpsOk(s.txns[t])
  }

  lemma {:induction false} MarkOps<V>(x: Txn<V>, y: Txn<V>)
    requires OpsOk(x) && y.seen == x.seen && y.local == x.local && y.ops == x.ops && x.wset <= y.wset
    ensures OpsOk(y)
  {}

  lemma {:induction false} OpsAppend<V>(x: Txn<V>, o: Op<V>, y: Txn<V>)
    requires OpsOk(x) && o.row in x.local
    requires o.Read? ==> o.value == x.local[o.row]
    requires y.seen == x.seen && y.ops == x.ops + [o]
    requires y.local == if o.Read? then x.local else x.local[o.row := o.value]
    requires y.wset == if o.Read? then x.wset else x.wset + {o.row}
    ensures OpsOk(y)
  {
    LegalAppend(x.seen, x.ops, o);
    assert [o][1..] == [];
    assert Legal(x.local, [o]);
  }

  lemma {:induction false} CopyOps<V>(x: Txn<V>, r: RowId, v: V, y: Txn<V>)
    requires OpsOk(x) && AccessSetWf(x) && r !in x.seen
    requires y.seen == x.seen[r := v] && y.local == x.local[r := v] && y.ops == x.ops
    requires y.wset == x.wset || y.wset == x.wset + {r}
    ensures OpsOk(y)
  {
    LegalFrame(x.seen, y.seen, x.ops);
    assert y.seen + x.local == y.local;
  }

  lemma {:induction false} TxnOps<V>(s: State<V>, x: Txn<V>, a: Step<V>)
    requires TxnEnabled(s, x, a) && TxnWf(x, s.rows.Keys) && UniqueKeys(s.rows.Keys) && OpsOk(x)
    ensures OpsOk(AccessesAfter(s, x, a))
  {
    hide OpsOk;
    var y := AccessesAfter(s, x, a);
    if a.Copy? {
      assert x.phase.row !in x.seen;
      hide PhaseWf, UniqueKeys;
      if s.rows[x.phase.row].wts <= x.startTs {
        CopyOps(x, x.phase.row, s.rows[x.phase.row].data, y);
      }
    } else if a.ReadLocal? || a.WriteLocal? {
      RecordedRow(s, x, a.row);
      hide TxnWf, UniqueKeys;
      OpsAppend(x, if a.ReadLocal? then Read(a.row, x.local[a.row]) else Write(a.row, a.value), y);
    } else if a.Upgrade? {
      hide TxnWf, UniqueKeys;
      MarkOps(x, y);
    }
  }

  /** With unique primary keys, a hit in the access set is the row asked for. */
  lemma {:induction false} RecordedRow<V>(s: State<V>, x: Txn<V>, row: RowId)
    requires TxnWf(x, s.rows.Keys) && UniqueKeys(s.rows.Keys) && row in s.rows && row.key in x.pos
    ensures row in x.local && x.pos[row.key] == row
  {
    hide PhaseWf;
  }

  lemma {:induction false} StepOps<V>(s: State<V>, a: Step<V>)
    requires Enabled(s, a) && TxnsWf(s) && UniqueKeys(s.rows.Keys) && AllOpsOk(s)
    ensures AllOpsOk(Do(s, a))
  {
    OwnOps(s, a);
    StepFrame(s, a);
    hide Do, Enabled, OpsOk, TxnsWf, UniqueKeys;
    forall t | t in Do(s, a).txns ensures OpsOk(Do(s, a).txns[t]) {
      assert t != a.t ==> t in s.txns;
    }
  }

  lemma {:induction false} OwnOps<V>(s: State<V>, a: Step<V>)
    requires Enabled(s, a) && TxnsWf(s) && UniqueKeys(s.rows.Keys) && AllOpsOk(s)
    ensures a.t in Do(s, a).txns && OpsOk(Do(s, a).txns[a.t])
  {
    if a.Begin? {
      hide TxnsWf, AllOpsOk, UniqueKeys;
      assert Do(s, a).txns[a.t].ops == [];
    } else {
      var x := s.txns[a.t];
      assert TxnWf(x, s.rows.Keys) && OpsOk(x);
      hide OpsOk;
      hide TxnsWf, AllOpsOk, TxnWf, UniqueKeys, Legal, Exec, AccessesAfter, PhaseAfter, RowsAfter, LatchAfter;
      TxnOps(s, x, a);
    }
  }

  lemma {:induction false} RunKeepsOps<V>(s: State<V>, steps: seq<Step<V>>, s': State<V>)
    requires Structure(s) && UniqueKeys(s.rows.Keys) && AllOpsOk(s) && Runs(s, steps, s')
    ensures AllOpsOk(s')
    decreases |steps|
  {
    hide AllOpsOk, Do, Enabled, TxnsWf, LatchesOwned, HoldersOwn, UniqueKeys;
    if steps != [] {
      StepOps(s, steps[0]);
      StepStructure(s, steps[0]);
      StepFrame(s, steps[0]);
      RunKeepsOps(Do(s, steps[0]), steps[1..], s');
    }
  }

  lemma {:induction false} ReachableOps<V>(db: map<RowId, V>, steps: seq<Step<V>>, s: State<V>)
    requires Runs(Init(db), steps, s) && UniqueKeys(db.Keys)
    ensures AllOpsOk(s)
  {
    InitStructure(db);
    assert Init(db).rows.Keys == db.Keys;
    RunKeepsOps(Init(db), steps, s);
  }
}
