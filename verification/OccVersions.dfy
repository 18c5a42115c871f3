/** The data invariant: timestamps, the commit history, and the version each row holds.

    Its heart: a row's data is the version tagged by its `wts`, and a commit that wrote the
    row but is newer than that tag is still being written back under the row's latch. */
module OccVersions {
  import opened RowOrder
  import opened OccModel
  import opened OccSerial
  import opened OccStructure

  predicate CommittedPhase(p: Phase) {
    p.Writing? || (p.Releasing? && p.committed) || (p.Finished? && p.committed)
  }

  /** A commit record describes the transaction it names. */
  ghost predicate Describes<V>(s: State<V>, c: Commit<V>) {
    && c.tid in s.txns
    && var x := s.txns[c.tid];
       && CommittedPhase(x.phase)
       && c == CommitOf(c.tid, x, c.endTs)
       && (x.phase.Writing? ==> x.phase.endTs == c.endTs)
  }

  ghost predicate HasCommit<V>(h: seq<Commit<V>>, t: TxnId) {
    exists i :: 0 <= i < |h| && h[i].tid == t
  }

  ghost predicate Recorded<V>(s: State<V>) {
    && (forall i :: 0 <= i < |s.history| ==> Describes(s, s.history[i]))
    && (forall t :: t in s.txns && CommittedPhase(s.txns[t].phase) ==> HasCommit(s.history, t))
    && (forall i, j :: 0 <= i < j < |s.history| ==> s.history[i].tid != s.history[j].tid)
  }

  /** End timestamps increase along the history. */
  ghost predicate EndStamps<V>(s: State<V>) {
    && 0 < s.counter
    && EndOrdered(s.history)
    && (forall i :: 0 <= i < |s.history| ==> s.history[i].startTs < s.history[i].endTs < s.counter)
  }

  /** Start timestamps are drawn once, and never serve as end timestamps. */
  ghost predicate StartStamps<V>(s: State<V>) {
    && (forall t :: t in s.txns ==> 0 < s.txns[t].startTs < s.counter)
    && (forall t, u :: t in s.txns && u in s.txns && t != u ==> s.txns[t].startTs != s.txns[u].startTs)
    && (forall t, i :: t in s.txns && 0 <= i < |s.history| ==> s.txns[t].startTs != s.history[i].endTs)
  }

  ghost predicate RowStamps<V>(s: State<V>) {
    forall r :: r in s.rows ==> s.rows[r].wts < s.counter
  }

  ghost predicate Stamps<V>(s: State<V>) {
    EndStamps(s) && StartStamps(s) && RowStamps(s)
  }

  /** `r` has been validated by a committer and not yet written back. */
  predicate Validated(p: Phase, r: RowId) {
    match p
    case Latching(order, done) => done <= |order| && r in order[..done]
    case Checking(order, done) => done <= |order| && r in order[..done]
    case Writing(order, _, left, _) => left <= |order| && r in order[..left]
    case _ => false
  }

  ghost predicate StillValid<V>(s: State<V>) {
    forall t, r :: t in s.txns && Validated(s.txns[t].phase, r) ==>
      r in s.rows && s.rows[r].wts <= s.txns[t].startTs
  }

  /** Between the two halves of `Row_occ::write`. */
  ghost predicate HalfWritten<V>(s: State<V>, r: RowId) {
    && r in s.latch && s.latch[r] in s.txns
    && var x := s.txns[s.latch[r]];
       x.phase.Writing? && x.phase.half && 0 < x.phase.left <= |x.phase.order| && Target(x) == r
  }

  ghost predicate TaggedVersion<V>(db: map<RowId, V>, s: State<V>, r: RowId)
    requires r in s.rows && r in db
  {
    if HalfWritten(s, r) then
      var x := s.txns[s.latch[r]];
      r in x.local && s.rows[r].data == x.local[r]
    else
      s.rows[r].data == VersionAt(db, s.history, s.rows[r].wts + 1)[r]
  }

  ghost predicate Tagged<V>(db: map<RowId, V>, s: State<V>) {
    && s.rows.Keys == db.Keys
    && forall r :: r in s.rows ==> TaggedVersion(db, s, r)
  }

  ghost predicate ToWrite<V>(x: Txn<V>, r: RowId) {
    x.phase.Writing? && Validated(x.phase, r)
  }

  /** A commit newer than the row's tag is still going to write the row. */
  ghost predicate Pending<V>(s: State<V>) {
    forall i, r ::
      (&& 0 <= i < |s.history| && r in s.history[i].writes && r in s.rows
       && s.rows[r].wts < s.history[i].endTs) ==>
        s.history[i].tid in s.txns && ToWrite(s.txns[s.history[i].tid], r)
  }

  /** What a transaction first read is the database version at its start timestamp. */
  ghost predicate SnapshotReads<V>(db: map<RowId, V>, s: State<V>) {
    forall t, r :: t in s.txns && r in s.txns[t].seen ==>
      r in db && s.txns[t].seen[r] == VersionAt(db, s.history, s.txns[t].startTs)[r]
  }

  /** What a committed transaction first read is still current at its place in the history. */
  ghost predicate ReadsCurrent<V>(db: map<RowId, V>, h: seq<Commit<V>>) {
    forall i, r :: 0 <= i < |h| && r in h[i].seen ==>
      r in db && h[i].seen[r] == Install(db, h[..i])[r]
  }

  ghost predicate Inv<V>(db: map<RowId, V>, s: State<V>) {
    && Structure(s)
    && Recorded(s)
    && Stamps(s)
    && StillValid(s)
    && Tagged(db, s)
    && Pending(s)
    && SnapshotReads(db, s)
    && ReadsCurrent(db, s.history)
  }

  lemma {:induction false} InitInv<V>(db: map<RowId, V>)
    ensures Inv(db, Init(db))
  {
    var s := Init(db);
    forall r | r in s.rows ensures TaggedVersion(db, s, r) {
      assert VersionAt(db, s.history, 1) == db;
    }
  }

  // ----- facts about one state -----

  lemma {:induction false} ValidatedHeld<V>(s: State<V>, t: TxnId, r: RowId)
    requires Structure(s) && t in s.txns && Validated(s.txns[t].phase, r)
    ensures r in s.latch && s.latch[r] == t
  {
    var x := s.txns[t];
    assert TxnWf(x, s.rows.Keys);
    if x.phase.Checking? {
      assert x.phase.order[..x.phase.done + 1][..x.phase.done] == x.phase.order[..x.phase.done];
    }
    assert Holds(x, r);
  }

  /** If `t` holds the latch of `r` and is not writing it back, no commit that wrote `r` is
      newer than the row's tag. */
  lemma {:induction false} NothingNewer<V>(s: State<V>, t: TxnId, r: RowId)
    requires Structure(s) && Pending(s) && r in s.rows
    requires r in s.latch && s.latch[r] == t && t in s.txns && !s.txns[t].phase.Writing?
    ensures forall i :: 0 <= i < |s.history| && r in s.history[i].writes ==> s.history[i].endTs <= s.rows[r].wts
  {
    forall i | 0 <= i < |s.history| && r in s.history[i].writes
      ensures s.history[i].endTs <= s.rows[r].wts
    {
      if s.rows[r].wts < s.history[i].endTs {
        ValidatedHeld(s, s.history[i].tid, r);
      }
    }
  }

  /** With no writer of `r` after `w` or exactly at `b`, the versions just after `w`, at
      `b` and at the end of the history agree on `r`. */
  lemma {:induction false} VersionPinned<V>(db: map<RowId, V>, h: seq<Commit<V>>, w: nat, b: nat, r: RowId)
    requires r in db && w <= b
    requires forall i :: 0 <= i < |h| && r in h[i].writes ==> h[i].endTs <= w && h[i].endTs != b
    ensures VersionAt(db, h, w + 1)[r] == VersionAt(db, h, b)[r]
    ensures VersionAt(db, h, w + 1)[r] == Install(db, h)[r]
  {
    if w < b {
      VersionStable(db, h, w + 1, b, r);
    } else {
      VersionStable(db, h, b, w + 1, r);
    }
    LastVersion(db, h, w + 1, r);
  }

  lemma {:induction false} LastVersion<V>(db: map<RowId, V>, h: seq<Commit<V>>, ts: nat, r: RowId)
    requires r in db
    requires forall i :: 0 <= i < |h| && r in h[i].writes ==> h[i].endTs < ts
    ensures VersionAt(db, h, ts)[r] == Install(db, h)[r]
  {
    if h != [] {
      var p := h[..|h| - 1];
      LastVersion(db, p, ts, r);
      InstallLast(db, p, h[|h| - 1], r);
      InstallLast(db, EndedBefore(p, ts), h[|h| - 1], r);
      assert h == p + [h[|h| - 1]];
    }
  }

  /** An access that is let through copies the version at the start timestamp, which is
      also the latest one. */
  lemma {:induction false} CopyIsSnapshot<V>(db: map<RowId, V>, s: State<V>, t: TxnId, r: RowId)
    requires Inv(db, s) && t in s.txns && r in s.rows
    requires r in s.latch && s.latch[r] == t && !s.txns[t].phase.Writing?
    requires s.rows[r].wts <= s.txns[t].startTs
    ensures r in db
    ensures s.rows[r].data == VersionAt(db, s.history, s.txns[t].startTs)[r]
    ensures s.rows[r].data == Install(db, s.history)[r]
  {
    hide VersionAt, ReadsCurrent, SnapshotReads, Tagged, Pending, Structure, EndStamps, StartStamps, RowStamps, Recorded, StillValid;
    NothingNewer(s, t, r);
    StartIsFresh(s, t);
    TagOf(db, s, r);
    VersionPinned(db, s.history, s.rows[r].wts, s.txns[t].startTs, r);
  }

  lemma {:induction false} StartIsFresh<V>(s: State<V>, t: TxnId)
    requires StartStamps(s) && t in s.txns
    ensures forall i :: 0 <= i < |s.history| ==> s.history[i].endTs != s.txns[t].startTs
  {}

  lemma {:induction false} TagOf<V>(db: map<RowId, V>, s: State<V>, r: RowId)
    requires Tagged(db, s) && r in s.rows
    requires r in s.latch && s.latch[r] in s.txns && !s.txns[s.latch[r]].phase.Writing?
    ensures r in db && s.rows[r].data == VersionAt(db, s.history, s.rows[r].wts + 1)[r]
  {
    assert TaggedVersion(db, s, r);
  }
}
