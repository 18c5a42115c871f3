/** `txn_man::Read` and `txn_man::Write`: what one transaction sees of its own operations.

    Keys and values are byte strings kept in fixed buffers as C strings; rows are found by
    an arbitrary hash of the key.  Between two calls the shared store may change in any way
    that keeps its index: keys stay indexed, and an indexed row carries the hash it is
    indexed under. */
module LocalView {

  datatype Option<+T> = None | Some(value: T)

  const NUL: char := '\0'
  const KEY_SIZE: nat := 128
  const VALUE_SIZE: nat := 1024

  // ----- C strings -----

  /** The characters before the first NUL. */
  function CStr(s: string): (r: string)
    ensures |r| <= |s| && r == s[..|r|] && NUL !in r
    ensures |r| < |s| ==> s[|r|] == NUL
  {
    if s == [] || s[0] == NUL then []
    else [s[0]] + CStr(s[1..])
  }

  /** `s` cut to what a buffer of `n` bytes can hold next to its terminator. */
  function Cut(s: string, n: nat): (r: string)
    requires n > 0
    ensures r <= CStr(s) && |r| < n && (|r| == n - 1 || r == CStr(s))
  {
    var c := CStr(s);
    if |c| < n then c else c[..n - 1]
  }

  /** A zeroed buffer of `n` bytes after `strncpy(buf, s, n - 1)`. */
  function Buffer(s: string, n: nat): (b: string)
    requires n > 0
    ensures |b| == n
  {
    Cut(s, n) + seq(n - |Cut(s, n)|, _ => NUL)
  }

  lemma {:induction false} CStrIs(s: string, r: string)
    requires |r| < |s| && s[..|r|] == r && NUL !in r && s[|r|] == NUL
    ensures CStr(s) == r
  {
    var c := CStr(s);
    assert forall i :: 0 <= i < |r| ==> s[i] == r[i];
    assert forall i :: 0 <= i < |c| ==> s[i] == c[i];
  }

  lemma {:induction false} BufferHolds(s: string, n: nat)
    requires n > 0
    ensures CStr(Buffer(s, n)) == Cut(s, n) && NUL in Buffer(s, n)
  {
    var b := Buffer(s, n);
    assert b[|Cut(s, n)|] == NUL;
    CStrIs(b, Cut(s, n));
  }

  lemma {:induction false} NulFree(s: string)
    requires NUL !in s
    ensures CStr(s) == s
  {}

  // ----- the shared store and the transaction -----

  /** A row's buffer: the KEY and VALUE columns. */
  datatype Row = Row(key: string, value: string)

  datatype Shared = Shared(pk: nat, wts: nat, row: Row)

  datatype Store = Store(index: map<nat, nat>, rows: map<nat, Shared>)

  predicate Terminated(row: Row) {
    && |row.key| == KEY_SIZE && NUL in row.key
    && |row.value| == VALUE_SIZE && NUL in row.value
  }

  ghost predicate StoreOk(w: Store) {
    forall p :: p in w.index ==>
      w.index[p] in w.rows && w.rows[w.index[p]].pk == p && Terminated(w.rows[w.index[p]].row)
  }

  /** What other transactions may do to the store between two calls. */
  ghost predicate Evolves(w: Store, w': Store) {
    StoreOk(w') && w.index.Keys <= w'.index.Keys
  }

  /** The access set by primary key: `copies` the local copies, `first` the copies as first
      taken, `wr` the rows marked WR. */
  datatype Txn = Txn(startTs: nat, first: map<nat, Row>, copies: map<nat, Row>, wr: set<nat>)

  function Begin(startTs: nat): Txn {
    Txn(startTs, map[], map[], {})
  }

  /** `txn_man::get_row`: a recorded primary key is answered from the access set. */
  function GetRow(w: Store, t: Txn, ref: nat, wr: bool): (r: (Txn, Option<Row>))
    requires ref in w.rows
  {
    var p := w.rows[ref].pk;
    if p in t.copies then
      (t.(wr := if wr then t.wr + {p} else t.wr), Some(t.copies[p]))
    else if t.startTs < w.rows[ref].wts then
      (t, None)
    else
      (t.(first := t.first[p := w.rows[ref].row], copies := t.copies[p := w.rows[ref].row],
          wr := if wr then t.wr + {p} else t.wr),
       Some(w.rows[ref].row))
  }

  /** `txn_man::Read`. */
  function DoRead(h: string -> nat, w: Store, t: Txn, key: string): (r: (Txn, Option<string>))
    requires StoreOk(w)
  {
    if h(key) !in w.index then (t, None)
    else
      var (t', row) := GetRow(w, t, w.index[h(key)], false);
      (t', if row.None? || CStr(row.value.key) != CStr(key) then None else Some(CStr(row.value.value)))
  }

  /** `txn_man::Write`; `ref` is where a new row is put. */
  function DoWrite(h: string -> nat, w: Store, t: Txn, key: string, value: string, ref: nat): (r: (Store, Txn, bool))
    requires StoreOk(w) && ref !in w.rows
  {
    if h(key) !in w.index then Insert(w, t, h(key), Row(Buffer(key, KEY_SIZE), Buffer(value, VALUE_SIZE)), ref)
    else
      var (t', row) := GetRow(w, t, w.index[h(key)], true);
      if row.None? || CStr(row.value.key) != CStr(key) then (w, t', false)
      else (w, t'.(copies := t'.copies[h(key) := row.value.(value := Buffer(value, VALUE_SIZE))]), true)
  }

  /** The INSERT branch: fill the new row, copy it, fill the copy, publish the row. */
  function Insert(w: Store, t: Txn, p: nat, row: Row, ref: nat): (r: (Store, Txn, bool))
    requires ref !in w.rows
  {
    var filled := w.(rows := w.rows[ref := Shared(p, 0, row)]);
    var (t', copy) := GetRow(filled, t, ref, true);
    if copy.None? then (filled, t', false)
    else (filled.(index := w.index[p := ref]), t'.(copies := t'.copies[p := row]), true)
  }

  // ----- runs -----

  datatype Call = Read(key: string) | Write(key: string, value: string)

  /** A call, the store it finds, and where an insert would put its row. */
  datatype Round = Round(call: Call, store: Store, ref: nat)

  datatype Event = ReadDone(key: string, result: Option<string>) | WriteDone(key: string, value: string, ok: bool)

  /** What the call of a round returns, and the store and transaction it leaves. */
  function Perform(h: string -> nat, t: Txn, r: Round): (res: (Store, Txn, Event))
    requires StoreOk(r.store) && r.ref !in r.store.rows
  {
    match r.call
    case Read(k) =>
      var (t', v) := DoRead(h, r.store, t, k);
      (r.store, t', ReadDone(k, v))
    case Write(k, v) =>
      var (w', t', ok) := DoWrite(h, r.store, t, k, v, r.ref);
      (w', t', WriteDone(k, v, ok))
  }

  /** `trace` is what transaction `t` sees when its calls find the stores of `rounds`. */
  ghost predicate Plays(h: string -> nat, w: Store, t: Txn, rounds: seq<Round>, trace: seq<Event>, w': Store, t': Txn)
    decreases |rounds|
  {
    if rounds == [] then trace == [] && w' == w && t' == t
    else
      var n := |rounds| - 1;
      var r := rounds[n];
      && |trace| == |rounds|
      && exists wm: Store, tm: Txn ::
           && Plays(h, w, t, rounds[..n], trace[..n], wm, tm)
           && Evolves(wm, r.store) && r.ref !in r.store.rows
           && Perform(h, tm, r) == (w', t', trace[n])
  }

  // ----- what a trace promises -----

  predicate Succeeded(e: Event) {
    match e
    case ReadDone(_, result) => result.Some?
    case WriteDone(_, _, ok) => ok
  }

  function ValueOf(e: Event): string
    requires Succeeded(e)
  {
    match e
    case ReadDone(_, result) => result.value
    case WriteDone(_, value, _) => Cut(value, VALUE_SIZE)
  }

  /** The value the last successful call on `key` left or saw. */
  function Expected(trace: seq<Event>, key: string): Option<string> {
    if trace == [] then None
    else
      var e := trace[|trace| - 1];
      if e.key == key && Succeeded(e) then Some(ValueOf(e)) else Expected(trace[..|trace| - 1], key)
  }

  /** Once a call on a key has succeeded, later calls on it succeed, and reads return the
      value last written or read. */
  predicate Agrees(before: seq<Event>, e: Event) {
    Expected(before, e.key).Some? ==> Succeeded(e) && (e.ReadDone? ==> e.result == Expected(before, e.key))
  }

  ghost predicate Answers(trace: seq<Event>) {
    forall j :: 0 <= j < |trace| ==> Agrees(trace[..j], trace[j])
  }

  ghost predicate KeysIn(trace: seq<Event>, keys: set<string>) {
    forall j :: 0 <= j < |trace| ==> trace[j].key in keys
  }

  /** Keys fit the key buffer, and keys that collide differ as C strings. */
  predicate KeysFit(h: string -> nat, keys: set<string>) {
    && (forall k :: k in keys ==> |CStr(k)| < KEY_SIZE)
    && (forall k, l :: k in keys && l in keys && k != l && h(k) == h(l) ==> CStr(k) != CStr(l))
  }

  /** NUL-free keys of at most 127 bytes fit, whatever the hash. */
  lemma {:induction false} NulFreeKeysFit(h: string -> nat, keys: set<string>)
    requires forall k :: k in keys ==> NUL !in k && |k| <= 127
    ensures KeysFit(h, keys)
  {
    forall k | k in keys ensures CStr(k) == k {
      NulFree(k);
    }
  }

  // ----- the overlay -----

  /** The value of the last successful write to a key hashing to `p`, or `v` if there is none. */
  function Overlay(h: string -> nat, trace: seq<Event>, p: nat, v: string): string {
    if trace == [] then v
    else
      var e := trace[|trace| - 1];
      if e.WriteDone? && e.ok && h(e.key) == p then Cut(e.value, VALUE_SIZE)
      else Overlay(h, trace[..|trace| - 1], p, v)
  }

  /** No successful write in `trace` went to a key hashing to `p`. */
  ghost predicate Unwritten(h: string -> nat, trace: seq<Event>, p: nat) {
    forall j :: 0 <= j < |trace| && trace[j].WriteDone? && trace[j].ok ==> h(trace[j].key) != p
  }

  lemma {:induction false} OverlayUnwritten(h: string -> nat, trace: seq<Event>, p: nat, v: string)
    requires Unwritten(h, trace, p)
    ensures Overlay(h, trace, p, v) == v
  {
    if trace != [] {
      OverlayUnwritten(h, trace[..|trace| - 1], p, v);
    }
  }

  /** The local copy of `p` is its first copy overlaid with the writes. */
  ghost predicate OverlaidRow(h: string -> nat, t: Txn, trace: seq<Event>, p: nat) {
    if p in t.copies then
      && p in t.first && t.copies[p].key == t.first[p].key
      && CStr(t.copies[p].value) == Overlay(h, trace, p, CStr(t.first[p].value))
      && Terminated(t.copies[p])
      && (p !in t.wr ==> t.copies[p] == t.first[p])
    else
      p !in t.first && p !in t.wr && Unwritten(h, trace, p)
  }

  ghost predicate Overlaid(h: string -> nat, t: Txn, trace: seq<Event>) {
    forall p :: OverlaidRow(h, t, trace, p)
  }

  lemma {:induction false} GetRowKeeps(h: string -> nat, w: Store, t: Txn, p: nat, wr: bool, trace: seq<Event>)
    requires StoreOk(w) && p in w.index && Overlaid(h, t, trace)
    ensures Overlaid(h, GetRow(w, t, w.index[p], wr).0, trace)
  {
    hide Overlay;
    var t' := GetRow(w, t, w.index[p], wr).0;
    OverlayFirst(h, w.rows[w.index[p]].row, t, trace, p);
    forall q ensures OverlaidRow(h, t', trace, q) {
      assert OverlaidRow(h, t, trace, q);
    }
  }

  lemma {:induction false} OverlayFirst(h: string -> nat, row: Row, t: Txn, trace: seq<Event>, p: nat)
    requires Overlaid(h, t, trace)
    ensures p !in t.copies ==> CStr(row.value) == Overlay(h, trace, p, CStr(row.value))
  {
    if p !in t.copies {
      assert OverlaidRow(h, t, trace, p);
      OverlayUnwritten(h, trace, p, CStr(row.value));
    }
  }

  lemma {:induction false} OverlayLast(h: string -> nat, trace: seq<Event>, e: Event, p: nat, v: string)
    ensures Overlay(h, trace + [e], p, v) ==
            if e.WriteDone? && e.ok && h(e.key) == p then Cut(e.value, VALUE_SIZE) else Overlay(h, trace, p, v)
    ensures Unwritten(h, trace + [e], p) <==> Unwritten(h, trace, p) && !(e.WriteDone? && e.ok && h(e.key) == p)
  {
    var u := trace + [e];
    assert u[..|trace|] == trace && u[|trace|] == e;
    if Unwritten(h, u, p) {
      assert forall j :: 0 <= j < |trace| ==> u[j] == trace[j];
    }
  }

  /** A failed call or a read overlays nothing. */
  lemma {:induction false} OverlayQuiet(h: string -> nat, t: Txn, trace: seq<Event>, e: Event)
    requires Overlaid(h, t, trace) && !(e.WriteDone? && e.ok)
    ensures Overlaid(h, t, trace + [e])
  {
    hide Overlay, Unwritten;
    forall p ensures OverlaidRow(h, t, trace + [e], p) {
      assert OverlaidRow(h, t, trace, p);
      OverlayLast(h, trace, e, p, if p in t.first then CStr(t.first[p].value) else "");
    }
  }

  /** A write overlays the row of its key. */
  lemma {:induction false} OverlayWritten(h: string -> nat, t: Txn, trace: seq<Event>, key: string, value: string, t': Txn)
    requires Overlaid(h, t, trace) && h(key) in t.copies && h(key) in t.wr
    requires t' == t.(copies := t.copies[h(key) := Row(t.copies[h(key)].key, Buffer(value, VALUE_SIZE))])
    ensures Overlaid(h, t', trace + [WriteDone(key, value, true)])
  {
    hide Overlay, Unwritten, Buffer, Cut;
    var e := WriteDone(key, value, true);
    BufferHolds(value, VALUE_SIZE);
    forall p ensures OverlaidRow(h, t', trace + [e], p) {
      assert OverlaidRow(h, t, trace, p);
      OverlayLast(h, trace, e, p, if p in t.first then CStr(t.first[p].value) else "");
    }
  }

  // ----- every call keeps the overlay -----

  ghost predicate Inv(h: string -> nat, w: Store, t: Txn, trace: seq<Event>) {
    Overlaid(h, t, trace) && t.copies.Keys <= w.index.Keys && StoreOk(w)
  }

  /** The store and transaction a round starts from. */
  ghost predicate Ready(h: string -> nat, t: Txn, trace: seq<Event>, r: Round) {
    Inv(h, r.store, t, trace) && r.ref !in r.store.rows
  }

  lemma {:induction false} ReadKeeps(h: string -> nat, t: Txn, trace: seq<Event>, r: Round)
    requires Ready(h, t, trace, r) && r.call.Read?
    ensures var (w', t', e) := Perform(h, t, r); Inv(h, w', t', trace + [e])
  {
    hide Overlaid, CStr;
    var (w', t', e) := Perform(h, t, r);
    if h(r.call.key) in r.store.index {
      GetRowKeeps(h, r.store, t, h(r.call.key), false, trace);
    }
    OverlayQuiet(h, t', trace, e);
  }

  lemma {:induction false} UpdateKeeps(h: string -> nat, t: Txn, trace: seq<Event>, r: Round)
    requires Ready(h, t, trace, r) && r.call.Write? && h(r.call.key) in r.store.index
    ensures var (w', t', e) := Perform(h, t, r); Inv(h, w', t', trace + [e])
  {
    hide Overlaid, CStr, Buffer;
    var (w', t', e) := Perform(h, t, r);
    var p := h(r.call.key);
    GetRowKeeps(h, r.store, t, p, true, trace);
    var (tm, row) := GetRow(r.store, t, r.store.index[p], true);
    if e.ok {
      OverlayWritten(h, tm, trace, r.call.key, r.call.value, t');
    } else {
      OverlayQuiet(h, t', trace, e);
    }
  }

  lemma {:induction false} InsertKeeps(h: string -> nat, t: Txn, trace: seq<Event>, r: Round)
    requires Ready(h, t, trace, r) && r.call.Write? && h(r.call.key) !in r.store.index
    ensures var (w', t', e) := Perform(h, t, r);
            && Inv(h, w', t', trace + [e]) && e.ok
            && t'.copies == t.copies[h(r.call.key) := NewRow(r.call)] && t'.first == t.first[h(r.call.key) := NewRow(r.call)]
            && w'.index == r.store.index[h(r.call.key) := r.ref]
  {
    hide Overlaid, CStr, Buffer;
    var (w', t', e) := Perform(h, t, r);
    var p := h(r.call.key);
    var row := NewRow(r.call);
    var tm := t.(first := t.first[p := row], copies := t.copies[p := row], wr := t.wr + {p});
    RecordNew(h, t, trace, p, row, tm) by {
      BufferHolds(r.call.key, KEY_SIZE);
      BufferHolds(r.call.value, VALUE_SIZE);
    }
    assert t' == tm;
    OverlayWritten(h, tm, trace, r.call.key, r.call.value, t');
    assert Terminated(row) by {
      BufferHolds(r.call.key, KEY_SIZE);
      BufferHolds(r.call.value, VALUE_SIZE);
    }
  }

  /** The row an inserting write builds. */
  function NewRow(c: Call): Row
    requires c.Write?
  {
    Row(Buffer(c.key, KEY_SIZE), Buffer(c.value, VALUE_SIZE))
  }

  lemma {:induction false} RecordNew(h: string -> nat, t: Txn, trace: seq<Event>, p: nat, row: Row, t': Txn)
    requires Overlaid(h, t, trace) && p !in t.copies && Terminated(row)
    requires t' == t.(first := t.first[p := row], copies := t.copies[p := row], wr := t.wr + {p})
    ensures Overlaid(h, t', trace)
  {
    hide Overlay, Unwritten;
    OverlayFirst(h, row, t, trace, p);
    forall q ensures OverlaidRow(h, t', trace, q) {
      assert OverlaidRow(h, t, trace, q);
    }
  }

  lemma {:induction false} PerformKeeps(h: string -> nat, t: Txn, trace: seq<Event>, r: Round)
    requires Ready(h, t, trace, r)
    ensures var (w', t', e) := Perform(h, t, r); Inv(h, w', t', trace + [e])
  {
    hide Inv, Perform;
    if r.call.Read? {
      ReadKeeps(h, t, trace, r);
    } else if h(r.call.key) in r.store.index {
      UpdateKeeps(h, t, trace, r);
    } else {
      InsertKeeps(h, t, trace, r);
    }
  }

  // ----- what the client sees -----

  /** The row of `k` is recorded, under that key, with value `v`. */
  predicate KnownKey(h: string -> nat, t: Txn, k: string, v: string) {
    h(k) in t.copies && CStr(t.copies[h(k)].key) == CStr(k) && CStr(t.copies[h(k)].value) == v
  }

  /** Every key with an expected value is known with that value. */
  ghost predicate Known(h: string -> nat, keys: set<string>, t: Txn, trace: seq<Event>) {
    forall k :: k in keys && Expected(trace, k).Some? ==> KnownKey(h, t, k, Expected(trace, k).value)
  }

  lemma {:induction false} ExpectedLast(trace: seq<Event>, e: Event, k: string)
    ensures Expected(trace + [e], k) ==
            if e.key == k && Succeeded(e) then Some(ValueOf(e)) else Expected(trace, k)
  {
    assert (trace + [e])[..|trace|] == trace && (trace + [e])[|trace|] == e;
  }

  /** A call touches only the row its key hashes to. */
  ghost predicate OthersKept(t: Txn, t': Txn, p: nat) {
    forall q :: q != p ==> (q in t'.copies <==> q in t.copies) && (q in t.copies ==> t'.copies[q] == t.copies[q])
  }

  /** On a recorded row a call succeeds exactly when the row carries its key; a read returns
      the row's value, and only a successful write changes it. */
  ghost predicate Recorded(t: Txn, t': Txn, p: nat, e: Event)
    requires p in t.copies
  {
    && p in t'.copies && t'.copies[p].key == t.copies[p].key
    && (Succeeded(e) <==> CStr(t.copies[p].key) == CStr(e.key))
    && (e.ReadDone? || !Succeeded(e) ==> t'.copies[p] == t.copies[p])
    && (e.ReadDone? && Succeeded(e) ==> e.result == Some(CStr(t.copies[p].value)))
  }

  lemma {:induction false} PerformEffect(h: string -> nat, t: Txn, trace: seq<Event>, r: Round)
    requires Ready(h, t, trace, r)
    ensures var (w', t', e) := Perform(h, t, r);
            && e.key == r.call.key && OthersKept(t, t', h(e.key))
            && (h(e.key) in t.copies ==> Recorded(t, t', h(e.key), e))
  {
    hide Overlaid, CStr, Buffer;
  }

  /** After a successful call on a key that fits, the key is known. */
  lemma {:induction false} SuccessKnown(h: string -> nat, t: Txn, trace: seq<Event>, r: Round)
    requires Ready(h, t, trace, r) && |CStr(r.call.key)| < KEY_SIZE
    ensures var (w', t', e) := Perform(h, t, r);
            Succeeded(e) ==> KnownKey(h, t', e.key, ValueOf(e))
  {
    hide Overlaid, Buffer;
    BufferHolds(r.call.key, KEY_SIZE);
    if r.call.Write? {
      BufferHolds(r.call.value, VALUE_SIZE);
      if h(r.call.key) !in r.store.index {
        InsertKeeps(h, t, trace, r);
      }
    }
    hide CStr, Terminated;
  }

  /** One call of a transaction whose keys fit answers as expected. */
  lemma {:induction false} PerformAnswers(h: string -> nat, keys: set<string>, t: Txn, trace: seq<Event>, r: Round)
    requires Ready(h, t, trace, r) && KeysFit(h, keys) && r.call.key in keys && Known(h, keys, t, trace)
    ensures var (w', t', e) := Perform(h, t, r); Agrees(trace, e) && Known(h, keys, t', trace + [e])
  {
    hide Overlaid, StoreOk, Perform, Expected, CStr;
    var (w', t', e) := Perform(h, t, r);
    PerformEffect(h, t, trace, r);
    SuccessKnown(h, t, trace, r);
    forall k | k in keys && Expected(trace + [e], k).Some?
      ensures KnownKey(h, t', k, Expected(trace + [e], k).value)
    {
      ExpectedLast(trace, e, k);
    }
  }

  // ----- whole runs -----

  lemma {:induction false} BeginInv(h: string -> nat, w: Store, ts: nat)
    requires StoreOk(w)
    ensures Inv(h, w, Begin(ts), [])
  {
    assert forall p :: OverlaidRow(h, Begin(ts), [], p);
  }

  lemma {:induction false} StillReady(h: string -> nat, w: Store, t: Txn, trace: seq<Event>, r: Round)
    requires Inv(h, w, t, trace) && Evolves(w, r.store) && r.ref !in r.store.rows
    ensures Ready(h, t, trace, r)
  {
    hide Overlaid, StoreOk;
  }

  /** In every run, on any keys, the local copies are the first copies overlaid with the
      successful writes. */
  lemma {:induction false} LocalCopiesOverlay(
      h: string -> nat, w: Store, ts: nat, rounds: seq<Round>, trace: seq<Event>, w': Store, t': Txn)
    requires StoreOk(w) && Plays(h, w, Begin(ts), rounds, trace, w', t')
    ensures Inv(h, w', t', trace)
    decreases |rounds|
  {
    hide Inv, Perform, Evolves;
    if rounds == [] {
      BeginInv(h, w, ts);
    } else {
      var n := |rounds| - 1;
      var wm, tm := LastRound(h, w, Begin(ts), rounds, trace, w', t');
      LocalCopiesOverlay(h, w, ts, rounds[..n], trace[..n], wm, tm);
      StillReady(h, wm, tm, trace[..n], rounds[n]);
      PerformKeeps(h, tm, trace[..n], rounds[n]);
      assert trace == trace[..n] + [trace[n]];
    }
  }

  lemma {:induction false} LastRound(h: string -> nat, w: Store, t: Txn, rounds: seq<Round>, trace: seq<Event>, w': Store, t': Txn)
      returns (wm: Store, tm: Txn)
    requires Plays(h, w, t, rounds, trace, w', t') && rounds != []
    ensures |trace| == |rounds|
    ensures var n := |rounds| - 1;
            && Plays(h, w, t, rounds[..n], trace[..n], wm, tm)
            && Evolves(wm, rounds[n].store) && rounds[n].ref !in rounds[n].store.rows
            && Perform(h, tm, rounds[n]) == (w', t', trace[n])
  {
    hide Perform, StoreOk;
    var n := |rounds| - 1;
    wm, tm :| && Plays(h, w, t, rounds[..n], trace[..n], wm, tm)
              && Evolves(wm, rounds[n].store) && rounds[n].ref !in rounds[n].store.rows
              && Perform(h, tm, rounds[n]) == (w', t', trace[n]);
  }

  /** In every run on keys that fit, every call answers as expected. */
  lemma {:induction false} LocalViewAnswers(
      h: string -> nat, keys: set<string>, w: Store, ts: nat, rounds: seq<Round>, trace: seq<Event>, w': Store, t': Txn)
    requires StoreOk(w) && Plays(h, w, Begin(ts), rounds, trace, w', t')
    requires KeysFit(h, keys) && KeysIn(trace, keys)
    ensures Answers(trace) && Known(h, keys, t', trace)
    decreases |rounds|
  {
    hide Inv, Evolves, StoreOk, Agrees, KeysFit;
    if rounds != [] {
      var n := |rounds| - 1;
      var wm, tm := LastRound(h, w, Begin(ts), rounds, trace, w', t');
      LocalViewAnswers(h, keys, w, ts, rounds[..n], trace[..n], wm, tm);
      LocalCopiesOverlay(h, w, ts, rounds[..n], trace[..n], wm, tm);
      StillReady(h, wm, tm, trace[..n], rounds[n]);
      PerformEffect(h, tm, trace[..n], rounds[n]);
      PerformAnswers(h, keys, tm, trace[..n], rounds[n]);
      hide Perform, Known, Plays;
      assert trace == trace[..n] + [trace[n]];
      forall j | 0 <= j < |trace| ensures Agrees(trace[..j], trace[j]) {
        if j < n {
          assert trace[..n][..j] == trace[..j];
        }
      }
    }
  }

  // ----- every answer, from the stores the calls met -----

  /** The row a round offers for the hash of its key: the stored row, if it is not newer than
      the start timestamp `ts`, or the row an insert builds. */
  function Offered(h: string -> nat, ts: nat, r: Round): Option<Row> {
    if h(r.call.key) in r.store.index then
      var ref := r.store.index[h(r.call.key)];
      if ref in r.store.rows && r.store.rows[ref].wts <= ts then Some(r.store.rows[ref].row) else None
    else if r.call.Write? then Some(NewRow(r.call))
    else None
  }

  /** The first row offered for hash `p`. */
  function FirstOffer(h: string -> nat, ts: nat, rounds: seq<Round>, p: nat): Option<Row> {
    if rounds == [] then None
    else
      var n := |rounds| - 1;
      var earlier := FirstOffer(h, ts, rounds[..n], p);
      if earlier.Some? then earlier
      else if h(rounds[n].call.key) == p then Offered(h, ts, rounds[n])
      else None
  }

  /** Round `i` is the first to offer a row for hash `p`. */
  ghost predicate FirstAt(h: string -> nat, ts: nat, rounds: seq<Round>, p: nat, i: int) {
    && 0 <= i < |rounds| && h(rounds[i].call.key) == p && Offered(h, ts, rounds[i]).Some?
    && forall j :: 0 <= j < i && h(rounds[j].call.key) == p ==> Offered(h, ts, rounds[j]).None?
  }

  lemma {:induction false} FirstOfferIs(h: string -> nat, ts: nat, rounds: seq<Round>, p: nat)
    ensures FirstOffer(h, ts, rounds, p).Some? <==> exists i :: FirstAt(h, ts, rounds, p, i)
    ensures forall i :: FirstAt(h, ts, rounds, p, i) ==> FirstOffer(h, ts, rounds, p) == Offered(h, ts, rounds[i])
  {
    hide Offered;
    if rounds != [] {
      var n := |rounds| - 1;
      var before := rounds[..n];
      FirstOfferIs(h, ts, before, p);
      forall i | 0 <= i < n ensures FirstAt(h, ts, rounds, p, i) <==> FirstAt(h, ts, before, p, i) {
        assert forall j :: 0 <= j <= i ==> before[j] == rounds[j];
      }
      if FirstOffer(h, ts, before, p).None? {
        NoOffer(h, ts, before, p);
        assert forall j :: 0 <= j < n ==> before[j] == rounds[j];
        assert FirstOffer(h, ts, rounds, p).Some? ==> FirstAt(h, ts, rounds, p, n);
      }
    }
  }

  lemma {:induction false} NoOffer(h: string -> nat, ts: nat, rounds: seq<Round>, p: nat)
    requires FirstOffer(h, ts, rounds, p).None?
    ensures forall j :: 0 <= j < |rounds| && h(rounds[j].call.key) == p ==> Offered(h, ts, rounds[j]).None?
  {
    hide Offered;
    if rounds != [] {
      NoOffer(h, ts, rounds[..|rounds| - 1], p);
    }
  }

  lemma {:induction false} FirstOfferLast(h: string -> nat, ts: nat, rounds: seq<Round>, r: Round, p: nat)
    ensures FirstOffer(h, ts, rounds + [r], p) ==
            if FirstOffer(h, ts, rounds, p).Some? then FirstOffer(h, ts, rounds, p)
            else if h(r.call.key) == p then Offered(h, ts, r)
            else None
  {
    assert (rounds + [r])[..|rounds|] == rounds;
  }

  /** Some write to a key hashing to `p` found or made a row. */
  predicate Marked(h: string -> nat, ts: nat, rounds: seq<Round>, p: nat) {
    && rounds != []
    && var n := |rounds| - 1;
       || Marked(h, ts, rounds[..n], p)
       || (rounds[n].call.Write? && h(rounds[n].call.key) == p && FirstOffer(h, ts, rounds, p).Some?)
  }

  lemma {:induction false} MarkedLast(h: string -> nat, ts: nat, rounds: seq<Round>, r: Round, p: nat)
    ensures Marked(h, ts, rounds + [r], p) <==>
            || Marked(h, ts, rounds, p)
            || (r.call.Write? && h(r.call.key) == p && FirstOffer(h, ts, rounds + [r], p).Some?)
  {
    assert (rounds + [r])[..|rounds|] == rounds;
  }

  /** The answer a call must give: a read returns the first copy of its row overlaid with the
      transaction's writes, if that copy carries its key. */
  function AnswerTo(h: string -> nat, ts: nat, rounds: seq<Round>, trace: seq<Event>, r: Round): Event {
    var k := r.call.key;
    var row := FirstOffer(h, ts, rounds + [r], h(k));
    var mine := row.Some? && CStr(row.value.key) == CStr(k);
    match r.call
    case Read(_) => ReadDone(k, if mine then Some(Overlay(h, trace, h(k), CStr(row.value.value))) else None)
    case Write(_, v) => WriteDone(k, v, h(k) !in r.store.index || mine)
  }

  /** First copies are first offers, and the rows marked WR are those written to. */
  ghost predicate FirstsRow(h: string -> nat, t: Txn, rounds: seq<Round>, p: nat) {
    && (p in t.first <==> FirstOffer(h, t.startTs, rounds, p).Some?)
    && (p in t.first ==> t.first[p] == FirstOffer(h, t.startTs, rounds, p).value)
    && (p in t.wr <==> Marked(h, t.startTs, rounds, p))
  }

  ghost predicate Firsts(h: string -> nat, t: Txn, rounds: seq<Round>) {
    forall p :: FirstsRow(h, t, rounds, p)
  }

  /** One call adds to the first copies what its round offers, unless the row is recorded. */
  lemma {:induction false} PerformFirsts(h: string -> nat, t: Txn, trace: seq<Event>, r: Round)
    requires Ready(h, t, trace, r)
    ensures var (w', t', e) := Perform(h, t, r); var p := h(r.call.key);
            && t'.startTs == t.startTs
            && t'.first == (if p in t.first || Offered(h, t.startTs, r).None? then t.first
                            else t.first[p := Offered(h, t.startTs, r).value])
            && t'.wr == (if r.call.Write? && p in t'.first then t.wr + {p} else t.wr)
  {
    var p := h(r.call.key);
    assert OverlaidRow(h, t, trace, p);
    hide Overlaid, OverlaidRow, StoreOk, CStr, Buffer;
    if p in r.store.index {
      HitFirsts(h, t, r);
    } else if r.call.Write? {
      hide StoreOk;
      assert p !in t.copies;
    }
  }

  lemma {:induction false} HitFirsts(h: string -> nat, t: Txn, r: Round)
    requires StoreOk(r.store) && r.ref !in r.store.rows && h(r.call.key) in r.store.index
    requires h(r.call.key) in t.copies <==> h(r.call.key) in t.first
    ensures var t' := Perform(h, t, r).1; var p := h(r.call.key);
            && t'.startTs == t.startTs
            && t'.first == (if p in t.first || Offered(h, t.startTs, r).None? then t.first
                            else t.first[p := Offered(h, t.startTs, r).value])
            && t'.wr == (if r.call.Write? && p in t'.first then t.wr + {p} else t.wr)
  {
    hide CStr, Buffer, Terminated;
    var g := GetRow(r.store, t, r.store.index[h(r.call.key)], r.call.Write?);
    hide GetRow;
    assert Perform(h, t, r).1.first == g.0.first && Perform(h, t, r).1.wr == g.0.wr;
    assert Perform(h, t, r).1.startTs == g.0.startTs;
    hide Perform;
    GetRowFirsts(r.store, t, r.store.index[h(r.call.key)], r.call.Write?);
  }

  lemma {:induction false} GetRowFirsts(w: Store, t: Txn, ref: nat, wr: bool)
    requires ref in w.rows && (w.rows[ref].pk in t.copies <==> w.rows[ref].pk in t.first)
    ensures var t' := GetRow(w, t, ref, wr).0; var p := w.rows[ref].pk;
            && t'.startTs == t.startTs
            && t'.first == (if p in t.first || w.rows[ref].wts > t.startTs then t.first else t.first[p := w.rows[ref].row])
            && t'.wr == (if wr && p in t'.first then t.wr + {p} else t.wr)
  {}

  lemma {:induction false} FirstsKept(h: string -> nat, t: Txn, trace: seq<Event>, rounds: seq<Round>, r: Round)
    requires Ready(h, t, trace, r) && Firsts(h, t, rounds)
    ensures Firsts(h, Perform(h, t, r).1, rounds + [r])
  {
    PerformFirsts(h, t, trace, r);
    var t' := Perform(h, t, r).1;
    hide Ready, Perform, Offered, FirstOffer, Marked;
    forall p ensures FirstsRow(h, t', rounds + [r], p) {
      assert FirstsRow(h, t, rounds, p);
      FirstOfferLast(h, t.startTs, rounds, r, p);
      MarkedLast(h, t.startTs, rounds, r, p);
    }
  }

  /** What a call answers, in terms of the first copy after it. */
  lemma {:induction false} PerformFromFirst(h: string -> nat, t: Txn, trace: seq<Event>, r: Round)
    requires Ready(h, t, trace, r)
    ensures var (w', t', e) := Perform(h, t, r); var p := h(r.call.key);
            var mine := p in t'.first && CStr(t'.first[p].key) == CStr(r.call.key);
            match r.call
            case Read(k) => e == ReadDone(k, if mine then Some(Overlay(h, trace, p, CStr(t'.first[p].value))) else None)
            case Write(k, v) => e == WriteDone(k, v, p !in r.store.index || mine)
  {
    var p := h(r.call.key);
    assert OverlaidRow(h, t, trace, p);
    if p in r.store.index {
      OverlayFirst(h, r.store.rows[r.store.index[p]].row, t, trace, p);
    }
    hide Overlaid, Overlay, Unwritten, Terminated, CStr, Buffer;
  }

  lemma {:induction false} AnswerExact(h: string -> nat, t: Txn, trace: seq<Event>, rounds: seq<Round>, r: Round)
    requires Ready(h, t, trace, r) && Firsts(h, t, rounds)
    ensures Perform(h, t, r).2 == AnswerTo(h, t.startTs, rounds, trace, r)
  {
    FirstsKept(h, t, trace, rounds, r);
    PerformFirsts(h, t, trace, r);
    PerformFromFirst(h, t, trace, r);
    var t' := Perform(h, t, r).1;
    assert FirstsRow(h, t', rounds + [r], h(r.call.key));
    hide Ready, Perform, FirstOffer, Marked, Overlay, CStr;
  }

  /** In every run on any keys, each answer is the one the stores of the calls determine: the
      first copy of a row is the stored row its first access met (or the row inserted), and
      every read returns it overlaid with the transaction's own writes. */
  lemma {:induction false} EveryAnswer(
      h: string -> nat, w: Store, ts: nat, rounds: seq<Round>, trace: seq<Event>, w': Store, t': Txn)
    requires StoreOk(w) && Plays(h, w, Begin(ts), rounds, trace, w', t')
    ensures |trace| == |rounds| && t'.startTs == ts && Firsts(h, t', rounds)
    ensures forall j :: 0 <= j < |rounds| ==> trace[j] == AnswerTo(h, ts, rounds[..j], trace[..j], rounds[j])
    decreases |rounds|
  {
    hide Inv, Evolves, StoreOk, AnswerTo, Firsts;
    if rounds == [] {
      FirstsBegin(h, ts);
    } else {
      var n := |rounds| - 1;
      var wm, tm := LastRound(h, w, Begin(ts), rounds, trace, w', t');
      EveryAnswer(h, w, ts, rounds[..n], trace[..n], wm, tm);
      LocalCopiesOverlay(h, w, ts, rounds[..n], trace[..n], wm, tm);
      StillReady(h, wm, tm, trace[..n], rounds[n]);
      PerformFirsts(h, tm, trace[..n], rounds[n]);
      AnswerExact(h, tm, trace[..n], rounds[..n], rounds[n]);
      FirstsKept(h, tm, trace[..n], rounds[..n], rounds[n]);
      hide Perform, Plays;
      assert rounds == rounds[..n] + [rounds[n]];
      forall j | 0 <= j < |rounds| ensures trace[j] == AnswerTo(h, ts, rounds[..j], trace[..j], rounds[j]) {
        if j < n {
          assert rounds[..n][..j] == rounds[..j] && trace[..n][..j] == trace[..j];
          assert trace[..n][j] == trace[j] && rounds[..n][j] == rounds[j];
        }
      }
    }
  }

  lemma {:induction false} FirstsBegin(h: string -> nat, ts: nat)
    ensures Firsts(h, Begin(ts), [])
  {
    assert forall p :: FirstsRow(h, Begin(ts), [], p);
  }

  /** The first read of an indexed row: it succeeds exactly when the stored row carries the
      key and is not newer than the transaction, and returns the stored value. */
  lemma {:induction false} FirstRead(h: string -> nat, w: Store, t: Txn, key: string)
    requires StoreOk(w) && h(key) in w.index && h(key) !in t.copies
    ensures var held := w.rows[w.index[h(key)]];
            DoRead(h, w, t, key).1 ==
            if held.wts <= t.startTs && CStr(held.row.key) == CStr(key) then Some(CStr(held.row.value)) else None
  {
    hide CStr;
  }

  /** An insert is in the store at once, before its transaction commits: every transaction
      that reads the key next finds the value.  No other key is affected. */
  lemma {:induction false} InsertIsPublished(h: string -> nat, t: Txn, trace: seq<Event>, r: Round, reader: nat)
    requires Ready(h, t, trace, r) && r.call.Write? && h(r.call.key) !in r.store.index
    ensures var (w', t', e) := Perform(h, t, r);
            && Evolves(r.store, w') && w'.index.Keys == r.store.index.Keys + {h(r.call.key)}
            && (forall q :: q in r.store.index ==>
                  w'.index[q] == r.store.index[q] && w'.rows[w'.index[q]] == r.store.rows[r.store.index[q]])
            && DoRead(h, w', Begin(reader), r.call.key).1 ==
               if |CStr(r.call.key)| < KEY_SIZE then Some(Cut(r.call.value, VALUE_SIZE)) else None
  {
    InsertKeeps(h, t, trace, r);
    InsertedStore(h, t, trace, r);
    NewRowReads(r.call);
    InvStore(h, t, trace, r);
    StoreGrown(r.store, h(r.call.key), r.ref, NewRow(r.call));
    hide Inv, Ready, Perform, NewRow, CStr, Cut, DoRead, StoreOk;
    var w' := Perform(h, t, r).0;
    FirstRead(h, w', Begin(reader), r.call.key);
  }

  lemma {:induction false} StoreGrown(w: Store, p: nat, ref: nat, row: Row)
    requires StoreOk(w) && p !in w.index && ref !in w.rows
    ensures var w' := Store(w.index[p := ref], w.rows[ref := Shared(p, 0, row)]);
            && w'.index.Keys == w.index.Keys + {p}
            && forall q :: q in w.index ==> w'.index[q] == w.index[q] && w'.rows[w'.index[q]] == w.rows[w.index[q]]
  {
    hide Terminated;
  }

  lemma {:induction false} InvStore(h: string -> nat, t: Txn, trace: seq<Event>, r: Round)
    requires Ready(h, t, trace, r) && Inv(h, Perform(h, t, r).0, Perform(h, t, r).1, trace + [Perform(h, t, r).2])
    ensures StoreOk(r.store) && r.ref !in r.store.rows && StoreOk(Perform(h, t, r).0)
  {
    hide Perform, Overlaid, StoreOk;
  }

  lemma {:induction false} NewRowReads(c: Call)
    requires c.Write?
    ensures CStr(NewRow(c).value) == Cut(c.value, VALUE_SIZE)
    ensures CStr(NewRow(c).key) == CStr(c.key) <==> |CStr(c.key)| < KEY_SIZE
  {
    hide Buffer, CStr;
    BufferHolds(c.key, KEY_SIZE);
    BufferHolds(c.value, VALUE_SIZE);
  }

  lemma {:induction false} InsertedStore(h: string -> nat, t: Txn, trace: seq<Event>, r: Round)
    requires Ready(h, t, trace, r) && r.call.Write? && h(r.call.key) !in r.store.index
    ensures var w' := Perform(h, t, r).0;
            w' == Store(r.store.index[h(r.call.key) := r.ref],
                        r.store.rows[r.ref := Shared(h(r.call.key), 0, NewRow(r.call))])
  {
    hide Overlaid, StoreOk, CStr, Buffer;
  }

  /** An update stays in the local copy: the store is as before. */
  lemma {:induction false} UpdateStaysLocal(h: string -> nat, t: Txn, r: Round)
    requires StoreOk(r.store) && r.ref !in r.store.rows && (r.call.Read? || h(r.call.key) in r.store.index)
    ensures Perform(h, t, r).0 == r.store
  {
    hide CStr, Buffer;
  }

  // ----- keys that do not fit -----

  lemma {:induction false} OneMore(h: string -> nat, w: Store, t: Txn, rounds: seq<Round>, trace: seq<Event>, wm: Store, tm: Txn, r: Round)
      returns (w': Store, t': Txn, e: Event)
    requires Plays(h, w, t, rounds, trace, wm, tm) && |trace| == |rounds|
    requires r.store == wm && StoreOk(wm) && r.ref !in wm.rows
    ensures (w', t', e) == Perform(h, tm, r)
    ensures Plays(h, w, t, rounds + [r], trace + [e], w', t')
  {
    hide Perform, StoreOk;
    w', t', e := Perform(h, tm, r).0, Perform(h, tm, r).1, Perform(h, tm, r).2;
    assert (rounds + [r])[..|rounds|] == rounds && (trace + [e])[..|rounds|] == trace;
    assert Evolves(wm, r.store);
  }

  /** The first call of a transaction on an empty store inserts. */
  lemma {:induction false} FirstInsert(h: string -> nat, k: string, v: string) returns (w: Store, t: Txn)
    ensures Plays(h, Store(map[], map[]), Begin(1), [Round(Write(k, v), Store(map[], map[]), 0)], [WriteDone(k, v, true)], w, t)
    ensures Inv(h, w, t, [WriteDone(k, v, true)]) && w.rows.Keys == {0}
    ensures h(k) in t.copies && t.copies[h(k)] == NewRow(Write(k, v))
  {
    hide Buffer, CStr;
    var empty := Store(map[], map[]);
    var r := Round(Write(k, v), empty, 0);
    BeginInv(h, empty, 1);
    InsertKeeps(h, Begin(1), [], r);
    var e;
    w, t, e := OneMore(h, empty, Begin(1), [], [], empty, Begin(1), r);
    assert [] + [r] == [r] && [] + [e] == [e];
  }

  /** A key too long for its buffer cannot be read back after it was inserted. */
  lemma {:induction false} LongKeyForgotten(h: string -> nat, k: string)
      returns (rounds: seq<Round>, trace: seq<Event>, w': Store, t': Txn)
    requires |CStr(k)| >= KEY_SIZE
    ensures Plays(h, Store(map[], map[]), Begin(1), rounds, trace, w', t') && KeysIn(trace, {k}) && !Answers(trace)
  {
    hide Plays, Overlaid, CStr, StoreOk;
    var w, t := FirstInsert(h, k, "");
    var first := WriteDone(k, "", true);
    var r := Round(Read(k), w, 1);
    var e;
    w', t', e := OneMore(h, Store(map[], map[]), Begin(1), [Round(Write(k, ""), Store(map[], map[]), 0)], [first], w, t, r);
    rounds, trace := [Round(Write(k, ""), Store(map[], map[]), 0)] + [r], [first] + [e];
    PerformEffect(h, t, [first], r);
    hide Inv, Perform, Buffer;
    BufferHolds(k, KEY_SIZE);
    assert trace[..1] == [first];
    assert !Agrees(trace[..1], trace[1]);
  }

  /** Two keys that collide and look the same as C strings share one row. */
  lemma {:induction false} TwinKeysMix(h: string -> nat, k: string, l: string)
      returns (rounds: seq<Round>, trace: seq<Event>, w': Store, t': Txn)
    requires k != l && h(k) == h(l) && CStr(k) == CStr(l) && |CStr(k)| < KEY_SIZE
    ensures Plays(h, Store(map[], map[]), Begin(1), rounds, trace, w', t') && KeysIn(trace, {k, l}) && !Answers(trace)
  {
    hide Plays, Perform, Overlaid, CStr, Answers, StoreOk, DoWrite, DoRead;
    var w1, t1 := FirstInsert(h, k, "a");
    var e1, e2, e3 := WriteDone(k, "a", true), WriteDone(l, "b", true), ReadDone(k, Some(Cut("b", VALUE_SIZE)));
    BufferHolds(k, KEY_SIZE);
    hide Buffer, Cut;
    rounds, trace := [Round(Write(k, "a"), Store(map[], map[]), 0)], [e1];
    var r2 := Round(Write(l, "b"), w1, 1);
    var w2, t2 := TwinWrites(h, k, l, t1, trace, r2);
    var _, _, _ := OneMore(h, Store(map[], map[]), Begin(1), rounds, trace, w1, t1, r2);
    rounds, trace := rounds + [r2], trace + [e2];
    var r3 := Round(Read(k), w2, 1);
    w', t' := TwinReads(h, k, t2, trace, r3);
    var _, _, _ := OneMore(h, Store(map[], map[]), Begin(1), rounds, trace, w2, t2, r3);
    rounds, trace := rounds + [r3], trace + [e3];
    MixedUp(k, l, e3);
    assert trace == [e1, e2, e3];
  }

  /** Writing the twin of a recorded key overwrites the shared row. */
  lemma {:induction false} TwinWrites(h: string -> nat, k: string, l: string, t: Txn, trace: seq<Event>, r: Round) returns (w': Store, t': Txn)
    requires Ready(h, t, trace, r) && r.call == Write(l, "b") && h(k) == h(l) && CStr(k) == CStr(l) && |CStr(l)| < KEY_SIZE
    requires h(k) in t.copies && CStr(t.copies[h(k)].key) == CStr(k)
    ensures Perform(h, t, r) == (w', t', WriteDone(l, "b", true)) && w'.rows == r.store.rows
    ensures Inv(h, w', t', trace + [WriteDone(l, "b", true)]) && KnownKey(h, t', k, Cut("b", VALUE_SIZE))
  {
    PerformKeeps(h, t, trace, r);
    PerformEffect(h, t, trace, r);
    SuccessKnown(h, t, trace, r);
    hide Overlaid, CStr, Buffer, Cut;
    w', t' := Perform(h, t, r).0, Perform(h, t, r).1;
  }

  lemma {:induction false} TwinReads(h: string -> nat, k: string, t: Txn, trace: seq<Event>, r: Round) returns (w': Store, t': Txn)
    requires Ready(h, t, trace, r) && r.call == Read(k) && KnownKey(h, t, k, Cut("b", VALUE_SIZE))
    ensures Perform(h, t, r) == (w', t', ReadDone(k, Some(Cut("b", VALUE_SIZE))))
  {
    PerformEffect(h, t, trace, r);
    hide Overlaid, CStr, Cut;
    w', t' := Perform(h, t, r).0, Perform(h, t, r).1;
  }

  lemma {:induction false} MixedUp(k: string, l: string, e: Event)
    requires k != l && e == ReadDone(k, Some(Cut("b", VALUE_SIZE)))
    ensures !Answers([WriteDone(k, "a", true), WriteDone(l, "b", true), e])
  {
    var e1, e2 := WriteDone(k, "a", true), WriteDone(l, "b", true);
    var trace := [e1, e2, e];
    assert trace[..2] == [e1] + [e2] && [e1] == [] + [e1];
    ExpectedLast([e1], e2, k);
    ExpectedLast([], e1, k);
    assert "a"[0] == 'a' && "b"[0] == 'b';
    assert !Agrees(trace[..2], trace[2]);
  }

  ghost predicate AlwaysAnswers(h: string -> nat, keys: set<string>) {
    forall w: Store, ts: nat, rounds: seq<Round>, trace: seq<Event>, w': Store, t': Txn ::
      StoreOk(w) && Plays(h, w, Begin(ts), rounds, trace, w', t') && KeysIn(trace, keys) ==> Answers(trace)
  }

  /** Reads repeat and see the transaction's own writes, in every run on the given keys,
      exactly when the keys fit. */
  lemma {:induction false} LocalViewIff(h: string -> nat, keys: set<string>)
    ensures AlwaysAnswers(h, keys) <==> KeysFit(h, keys)
  {
    hide Plays, Answers, CStr;
    if KeysFit(h, keys) {
      forall w: Store, ts: nat, rounds: seq<Round>, trace: seq<Event>, w': Store, t': Txn
        | StoreOk(w) && Plays(h, w, Begin(ts), rounds, trace, w', t') && KeysIn(trace, keys)
        ensures Answers(trace)
      {
        LocalViewAnswers(h, keys, w, ts, rounds, trace, w', t');
      }
    } else if k :| k in keys && |CStr(k)| >= KEY_SIZE {
      var rounds, trace, w', t' := LongKeyForgotten(h, k);
      assert StoreOk(Store(map[], map[])) && KeysIn(trace, keys);
    } else {
      var k, l :| k in keys && l in keys && k != l && h(k) == h(l) && CStr(k) == CStr(l);
      var rounds, trace, w', t' := TwinKeysMix(h, k, l);
      assert StoreOk(Store(map[], map[])) && KeysIn(trace, keys);
    }
  }
}
