/** `txn_man::Read` and `txn_man::Write` as an object that updates its access set.  Every
    call is handed the shared store as it finds it; the rest of the system may have changed
    it since the last call. */
module LocalTxn {
  import opened LocalView

  class TxnView {
    const hash: string -> nat
    const startTs: nat
    var copies: map<nat, Row>
    var wr: set<nat>
    ghost var first: map<nat, Row>
    ghost var rounds: seq<Round>
    ghost var trace: seq<Event>
    ghost var store: Store

    ghost function State(): Txn
      reads this
    {
      Txn(startTs, first, copies, wr)
    }

    ghost predicate Valid()
      reads this
    {
      Inv(hash, store, State(), trace) && Firsts(hash, State(), rounds)
    }

    constructor (h: string -> nat, ts: nat, w: Store)
      requires StoreOk(w)
      ensures Valid() && hash == h && State() == Begin(ts) && rounds == [] && trace == [] && store == w
    {
      hash, startTs := h, ts;
      copies, wr, first := map[], {}, map[];
      rounds, trace, store := [], [], w;
      BeginInv(h, w, ts);
      FirstsBegin(h, ts);
    }

    /** `txn_man::get_row`. */
    method GetRow(w: Store, ref: nat, forWrite: bool) returns (row: Option<Row>)
      requires ref in w.rows
      modifies this`copies, this`wr, this`first
      ensures (State(), row) == LocalView.GetRow(w, old(State()), ref, forWrite)
    {
      var p := w.rows[ref].pk;
      if p in copies {
        if forWrite {
          wr := wr + {p};
        }
        return Some(copies[p]);
      }
      if startTs < w.rows[ref].wts {
        return None;
      }
      row := Some(w.rows[ref].row);
      first := first[p := row.value];
      copies := copies[p := row.value];
      if forWrite {
        wr := wr + {p};
      }
    }

    /** `txn_man::Read`: the answer that the stores met so far determine.  A row read for the
        first time is the stored one, refused when it is newer than the transaction. */
    method Read(key: string, w: Store) returns (v: Option<string>)
      requires Valid() && Evolves(store, w)
      modifies this
      ensures Valid() && trace == old(trace) + [ReadDone(key, v)] && store == w
      ensures var round := Round(LocalView.Call.Read(key), w, FreshRef(w));
              && rounds == old(rounds) + [round]
              && ReadDone(key, v) == AnswerTo(hash, startTs, old(rounds), old(trace), round)
      ensures hash(key) in w.index && hash(key) !in old(copies) ==>
                var held := w.rows[w.index[hash(key)]];
                v == if held.wts <= startTs && CStr(held.row.key) == CStr(key) then Some(CStr(held.row.value)) else None
      ensures (State(), v) == DoRead(hash, w, old(State()), key)
    {
      hide Overlaid, CStr, Firsts, AnswerTo;
      ghost var round := Round(LocalView.Call.Read(key), w, FreshRef(w));
      StillReady(hash, store, State(), trace, round);
      PerformKeeps(hash, State(), trace, round);
      FirstsKept(hash, State(), trace, rounds, round);
      AnswerExact(hash, State(), trace, rounds, round);
      assert hash(key) in w.index && hash(key) !in copies ==>
          var held := w.rows[w.index[hash(key)]];
          DoRead(hash, w, State(), key).1 ==
          if held.wts <= startTs && CStr(held.row.key) == CStr(key) then Some(CStr(held.row.value)) else None by {
        if hash(key) in w.index && hash(key) !in copies {
          FirstRead(hash, w, State(), key);
        }
      }
      v := None;
      if hash(key) in w.index {
        var row := GetRow(w, w.index[hash(key)], false);
        if row.Some? && CStr(row.value.key) == CStr(key) {
          v := Some(CStr(row.value.value));
        }
      }
      store := w;
      rounds := rounds + [round];
      trace := trace + [ReadDone(key, v)];
    }

    /** `txn_man::Write`: update the local copy of an indexed row, or insert a new row. */
    method Write(key: string, value: string, w: Store, ref: nat) returns (w': Store, ok: bool)
      requires Valid() && Evolves(store, w) && ref !in w.rows
      modifies this
      ensures Valid() && trace == old(trace) + [WriteDone(key, value, ok)] && store == w'
      ensures var round := Round(LocalView.Call.Write(key, value), w, ref);
              && rounds == old(rounds) + [round]
              && WriteDone(key, value, ok) == AnswerTo(hash, startTs, old(rounds), old(trace), round)
      ensures hash(key) in w.index ==> w' == w
      ensures ok ==> hash(key) in copies && CStr(copies[hash(key)].value) == Cut(value, VALUE_SIZE)
      ensures (w', State(), ok) == DoWrite(hash, w, old(State()), key, value, ref)
    {
      hide Overlaid, CStr, Buffer, Firsts, AnswerTo;
      ghost var round := Round(LocalView.Call.Write(key, value), w, ref);
      StillReady(hash, store, State(), trace, round);
      PerformKeeps(hash, State(), trace, round);
      FirstsKept(hash, State(), trace, rounds, round);
      AnswerExact(hash, State(), trace, rounds, round);
      BufferHolds(value, VALUE_SIZE);
      w' := w;
      ok := false;
      var p := hash(key);
      if p !in w.index {
        var newRow := Row(Buffer(key, KEY_SIZE), Buffer(value, VALUE_SIZE));
        w' := w.(rows := w.rows[ref := Shared(p, 0, newRow)]);
        var copy := GetRow(w', ref, true);
        if copy.Some? {
          copies := copies[p := newRow];
          w' := w'.(index := w.index[p := ref]);
          ok := true;
        }
      } else {
        var row := GetRow(w, w.index[p], true);
        if row.Some? && CStr(row.value.key) == CStr(key) {
          copies := copies[p := row.value.(value := Buffer(value, VALUE_SIZE))];
          ok := true;
        }
      }
      store := w';
      rounds := rounds + [round];
      trace := trace + [WriteDone(key, value, ok)];
    }
  }

  /** A place for a row that the store does not use. */
  ghost function FreshRef(w: Store): (ref: nat)
    ensures ref !in w.rows
  {
    Above(w.rows.Keys)
  }

  ghost function Above(s: set<nat>): (n: nat)
    ensures forall x :: x in s ==> x < n
  {
    if s == {} then 0
    else
      var x :| x in s;
      var n := Above(s - {x});
      assert forall y :: y in s ==> y == x || y in s - {x};
      if n <= x then x + 1 else n
  }
}
