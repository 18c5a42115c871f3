/** The reference semantics: transactions executed one after another on a plain map.

    `Exec` runs one transaction's operations directly on the database, with no copies,
    latches or timestamps; `Legal` says that every read it recorded returns what is stored
    at that moment.  `Install` replays only the write sets of a commit history. */
module OccSerial {
  import opened RowOrder
  import opened OccModel

  ghost function Exec<V>(db: map<RowId, V>, ops: seq<Op<V>>): map<RowId, V>
    decreases |ops|
  {
    if ops == [] then db
    else match ops[0]
      case Read(_, _) => Exec(db, ops[1..])
      case Write(r, v) => Exec(db[r := v], ops[1..])
  }

  ghost predicate Legal<V>(db: map<RowId, V>, ops: seq<Op<V>>)
    decreases |ops|
  {
    if ops == [] then true
    else match ops[0]
      case Read(r, v) => r in db && db[r] == v && Legal(db, ops[1..])
      case Write(r, v) => r in db && Legal(db[r := v], ops[1..])
  }

  /** The database after the committed transactions ran serially, in history order. */
  ghost function Replay<V>(db: map<RowId, V>, h: seq<Commit<V>>): map<RowId, V> {
    if h == [] then db else Exec(Replay(db, h[..|h| - 1]), h[|h| - 1].ops)
  }

  /** Every committed transaction, run serially at its place in the history, reads exactly
      the values it returned to its client. */
  ghost predicate SerialLegal<V>(db: map<RowId, V>, h: seq<Commit<V>>) {
    if h == [] then true
    else SerialLegal(db, h[..|h| - 1]) && Legal(Replay(db, h[..|h| - 1]), h[|h| - 1].ops)
  }

  ghost function Install<V>(db: map<RowId, V>, h: seq<Commit<V>>): (r: map<RowId, V>)
    ensures db.Keys <= r.Keys
  {
    if h == [] then db else Install(db, h[..|h| - 1]) + h[|h| - 1].writes
  }

  /** The commits of `h` whose end timestamp is below `ts`. */
  ghost function EndedBefore<V>(h: seq<Commit<V>>, ts: nat): seq<Commit<V>> {
    if h == [] then []
    else
      var p := EndedBefore(h[..|h| - 1], ts);
      if h[|h| - 1].endTs < ts then p + [h[|h| - 1]] else p
  }

  /** The database version that the commits ended before `ts` produced. */
  ghost function VersionAt<V>(db: map<RowId, V>, h: seq<Commit<V>>, ts: nat): (r: map<RowId, V>)
    ensures db.Keys <= r.Keys
  {
    Install(db, EndedBefore(h, ts))
  }

  lemma {:induction false} LegalAppend<V>(db: map<RowId, V>, ops: seq<Op<V>>, o: Op<V>)
    ensures Exec(db, ops + [o]) == Exec(Exec(db, ops), [o])
    ensures Legal(db, ops + [o]) <==> Legal(db, ops) && Legal(Exec(db, ops), [o])
    decreases |ops|
  {
    if ops == [] {
      assert ops + [o] == [o];
    } else {
      assert (ops + [o])[1..] == ops[1..] + [o];
      match ops[0]
      case Read(_, _) => LegalAppend(db, ops[1..], o);
      case Write(r, v) => LegalAppend(db[r := v], ops[1..], o);
    }
  }

  /** A transaction that is legal on the rows it touched is legal on every database that
      agrees with them, and changes nothing else. */
  lemma {:induction false} LegalFrame<V>(seen: map<RowId, V>, db: map<RowId, V>, ops: seq<Op<V>>)
    requires Legal(seen, ops)
    requires seen.Keys <= db.Keys && forall r :: r in seen ==> db[r] == seen[r]
    ensures Legal(db, ops)
    ensures Exec(seen, ops).Keys == seen.Keys
    ensures Exec(db, ops) == db + Exec(seen, ops)
    decreases |ops|
  {
    if ops == [] {
      assert db == db + seen;
    } else {
      match ops[0]
      case Read(_, _) => LegalFrame(seen, db, ops[1..]);
      case Write(r, v) =>
        LegalFrame(seen[r := v], db[r := v], ops[1..]);
        assert seen[r := v].Keys == seen.Keys;
        assert db[r := v] + Exec(seen, ops) == db + Exec(seen, ops);
    }
  }

  lemma {:induction false} EndedBeforeAppend<V>(h: seq<Commit<V>>, c: Commit<V>, ts: nat)
    ensures EndedBefore(h + [c], ts) == if c.endTs < ts then EndedBefore(h, ts) + [c] else EndedBefore(h, ts)
  {
    assert (h + [c])[..|h|] == h;
  }

  lemma {:induction false} EndedBeforeAll<V>(h: seq<Commit<V>>, ts: nat)
    requires forall i :: 0 <= i < |h| ==> h[i].endTs < ts
    ensures EndedBefore(h, ts) == h
  {
    if h != [] {
      EndedBeforeAll(h[..|h| - 1], ts);
      assert h == h[..|h| - 1] + [h[|h| - 1]];
    }
  }

  /** Commits that do not write `r` do not change its version. */
  lemma {:induction false} VersionStable<V>(db: map<RowId, V>, h: seq<Commit<V>>, lo: nat, hi: nat, r: RowId)
    requires lo <= hi && r in db
    requires forall i :: 0 <= i < |h| && lo <= h[i].endTs < hi ==> r !in h[i].writes
    ensures VersionAt(db, h, lo)[r] == VersionAt(db, h, hi)[r]
  {
    if h != [] {
      var p := h[..|h| - 1];
      VersionStable(db, p, lo, hi, r);
      InstallLast(db, EndedBefore(p, lo), h[|h| - 1], r);
      InstallLast(db, EndedBefore(p, hi), h[|h| - 1], r);
    }
  }

  lemma {:induction false} InstallLast<V>(db: map<RowId, V>, h: seq<Commit<V>>, c: Commit<V>, r: RowId)
    requires r in db
    ensures Install(db, h + [c])[r] == if r in c.writes then c.writes[r] else Install(db, h)[r]
  {
    assert (h + [c])[..|h|] == h;
  }

  ghost predicate EndOrdered<V>(h: seq<Commit<V>>) {
    forall i, j :: 0 <= i < j < |h| ==> h[i].endTs < h[j].endTs
  }

  /** Just after its own end timestamp, the version of a row a commit wrote is what it wrote. */
  lemma {:induction false} VersionOfWriter<V>(db: map<RowId, V>, h: seq<Commit<V>>, i: nat, r: RowId)
    requires EndOrdered(h) && i < |h| && r in h[i].writes && r in db
    ensures VersionAt(db, h, h[i].endTs + 1)[r] == h[i].writes[r]
  {
    EndedPrefix(h, i);
    InstallLast(db, h[..i], h[i], r);
    assert h[..i + 1] == h[..i] + [h[i]];
  }

  /** The commits below `ts` are a prefix when timestamps on either side of it are. */
  lemma {:induction false} EndedSplit<V>(h: seq<Commit<V>>, ts: nat, n: nat)
    requires n <= |h| && (forall j :: 0 <= j < n ==> h[j].endTs < ts) && (forall j :: n <= j < |h| ==> h[j].endTs >= ts)
    ensures EndedBefore(h, ts) == h[..n]
  {
    if n == |h| {
      EndedBeforeAll(h, ts);
      assert h[..n] == h;
    } else {
      var p := h[..|h| - 1];
      EndedSplit(p, ts, n);
      assert p[..n] == h[..n];
    }
  }

  lemma {:induction false} EndedPrefix<V>(h: seq<Commit<V>>, i: nat)
    requires EndOrdered(h) && i < |h|
    ensures EndedBefore(h, h[i].endTs + 1) == h[..i + 1]
    ensures EndedBefore(h, h[i].endTs) == h[..i]
  {
    hide EndedBefore;
    EndedSplit(h, h[i].endTs + 1, i + 1);
    EndedSplit(h, h[i].endTs, i);
  }
}
