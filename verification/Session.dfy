/** One client session: `handle_client` over the transaction API of `kv_api`.

    What the storage engine answers, and how many transactions other sessions begin in the
    meantime, is handed in line by line as an `Outcome`. */
module Session {
  import opened LineProtocol

  datatype Rc = OK | NOT_FOUND | ABORT | ERROR

  datatype Outcome = Outcome(othersBegun: nat, found: Option<string>, stored: bool, committed: bool)

  /** The calls a session makes on the engine.  `Refused` is a call on a null handle. */
  datatype Call =
    | Begun(id: nat)
    | Got(id: nat, key: string)
    | Stored(id: nat, key: string, value: string)
    | CommitTried(id: nat)
    | Aborted(id: nat)
    | Refused

  // ----- what a run of calls must look like -----

  datatype Tracking = Bad | Idle | In(id: nat)

  function TrackOne(st: Tracking, c: Call): Tracking {
    match c
    case Begun(id) => if st == Idle then In(id) else Bad
    case Got(id, _) => if st == In(id) then st else Bad
    case Stored(id, _, _) => if st == In(id) then st else Bad
    case CommitTried(id) => if st == In(id) then Idle else Bad
    case Aborted(id) => if st == In(id) then Idle else Bad
    case Refused => Bad
  }

  /** Follows the calls in order; Bad as soon as one is out of place. */
  function Track(calls: seq<Call>): Tracking {
    if calls == [] then Idle else TrackOne(Track(calls[..|calls| - 1]), calls[|calls| - 1])
  }

  /** The ids begun, in order. */
  function Begins(calls: seq<Call>): seq<nat> {
    if calls == [] then []
    else
      var c := calls[|calls| - 1];
      Begins(calls[..|calls| - 1]) + if c.Begun? then [c.id] else []
  }

  /** The ids finished, in order. */
  function Ends(calls: seq<Call>): seq<nat> {
    if calls == [] then []
    else
      var c := calls[|calls| - 1];
      Ends(calls[..|calls| - 1]) + if c.CommitTried? || c.Aborted? then [c.id] else []
  }

  lemma {:induction false} CallsStep(calls: seq<Call>, c: Call)
    ensures Track(calls + [c]) == TrackOne(Track(calls), c)
    ensures Begins(calls + [c]) == Begins(calls) + if c.Begun? then [c.id] else []
    ensures Ends(calls + [c]) == Ends(calls) + if c.CommitTried? || c.Aborted? then [c.id] else []
  {
    assert (calls + [c])[..|calls|] == calls;
  }

  /** Calls in good order finish what they begin, in the same order. */
  lemma {:induction false} TrackBalances(calls: seq<Call>)
    requires Track(calls) != Bad
    ensures Begins(calls) == Ends(calls) + if Track(calls).In? then [Track(calls).id] else []
    ensures Refused !in calls
  {
    if calls != [] {
      var before, c := calls[..|calls| - 1], calls[|calls| - 1];
      assert calls == before + [c];
      CallsStep(before, c);
      hide Track, Begins, Ends;
      TrackBalances(before);
    }
  }

  ghost predicate Increasing(ids: seq<nat>) {
    forall i, j :: 0 <= i < j < |ids| ==> ids[i] < ids[j]
  }

  // ----- the protocol -----

  function Decimal(n: nat): (s: string)
    ensures s != []
  {
    var digit := [(n % 10) as char + '0'];
    if n < 10 then digit else Decimal(n / 10) + digit
  }

  const WELCOME: string := "WELCOME DataAgentDB\n"

  /** The session between two lines: the open transaction, and the process-wide id counter. */
  datatype State = State(open: Option<nat>, nextId: nat)

  /** The reply to a line. */
  function Reply(cmd: Command, s: State, o: Outcome): string {
    match cmd
    case Empty => "ERR EMPTY_CMD\n"
    case Unknown => "ERR BAD_CMD\n"
    case Quit => "BYE\n"
    case Start =>
      if s.open.Some? then "ERR TXN_ALREADY_STARTED\n"
      else "OK TXN " + Decimal(s.nextId + o.othersBegun) + "\n"
    case Get(args) =>
      if s.open.None? then "ERR NO_ACTIVE_TXN\n"
      else if |args| != 1 then "ERR USAGE GET <key>\n"
      else if o.found.Some? then "OK VALUE " + o.found.value + "\n"
      else "ERR NOT_FOUND\n"
    case Put(words, _) =>
      if s.open.None? then "ERR NO_ACTIVE_TXN\n"
      else if |words| < 3 then "ERR USAGE PUT <key> <value>\n"
      else if o.stored then "OK\n"
      else "ERR PUT_FAIL\n"
    case Commit =>
      if s.open.None? then "ERR NO_ACTIVE_TXN\n"
      else if o.committed then "OK COMMIT\n"
      else "ERR ABORT\n"
    case Abort => if s.open.None? then "ERR NO_ACTIVE_TXN\n" else "OK ABORT\n"
  }

  /** The engine calls made for a line. */
  function Calls(cmd: Command, s: State, o: Outcome): seq<Call> {
    match cmd
    case Start => if s.open.Some? then [] else [Begun(s.nextId + o.othersBegun)]
    case Get(args) => if s.open.Some? && |args| == 1 then [Got(s.open.value, args[0])] else []
    case Put(words, value) => if s.open.Some? && |words| >= 3 then [Stored(s.open.value, words[1], value)] else []
    case Commit => if s.open.Some? then [CommitTried(s.open.value)] else []
    case Abort => Closing(s)
    case Quit => Closing(s)
    case _ => []
  }

  /** What ends an open transaction when the session ends. */
  function Closing(s: State): seq<Call> {
    if s.open.Some? then [Aborted(s.open.value)] else []
  }

  function Next(cmd: Command, s: State, o: Outcome): State {
    match cmd
    case Start => if s.open.Some? then s else State(Some(s.nextId + o.othersBegun), s.nextId + o.othersBegun + 1)
    case Commit => s.(open := None)
    case Abort => s.(open := None)
    case Quit => s.(open := None)
    case _ => s
  }

  /** The replies a stream gets, from state `s` at line number `i`. */
  function Dialogue(stream: string, s: State, world: nat -> Outcome, i: nat): seq<string>
    decreases |stream|
  {
    var r := NextLine(stream);
    if r.None? then []
    else
      var cmd := Parse(r.value.0);
      [Reply(cmd, s, world(i))] +
      if cmd.Quit? then [] else Dialogue(r.value.1, Next(cmd, s, world(i)), world, i + 1)
  }

  /** The engine calls made for a stream; the session aborts what is open when it ends. */
  function Performed(stream: string, s: State, world: nat -> Outcome, i: nat): seq<Call>
    decreases |stream|
  {
    var r := NextLine(stream);
    if r.None? then Closing(s)
    else
      var cmd := Parse(r.value.0);
      Calls(cmd, s, world(i)) +
      if cmd.Quit? then [] else Performed(r.value.1, Next(cmd, s, world(i)), world, i + 1)
  }

  /** The lines the session serves: up to the first QUIT, or as many as arrive. */
  function Served(stream: string): seq<string>
    decreases |stream|
  {
    var r := NextLine(stream);
    if r.None? then []
    else [r.value.0] + if Parse(r.value.0).Quit? then [] else Served(r.value.1)
  }

  // ----- lifecycle -----

  /** The calls so far match the session's state, and ids only grow. */
  ghost predicate Consistent(calls: seq<Call>, s: State) {
    && Track(calls) == (if s.open.Some? then In(s.open.value) else Idle)
    && Increasing(Begins(calls))
    && (forall i :: 0 <= i < |Begins(calls)| ==> Begins(calls)[i] < s.nextId)
  }

  lemma {:induction false} LineConsistent(calls: seq<Call>, s: State, cmd: Command, o: Outcome)
    requires Consistent(calls, s)
    ensures Consistent(calls + Calls(cmd, s, o), Next(cmd, s, o))
  {
    var made := Calls(cmd, s, o);
    hide Track, Begins;
    if made == [] {
      assert calls + made == calls;
    } else {
      assert made == [made[0]];
      CallsStep(calls, made[0]);
      if made[0].Begun? {
        var before := Begins(calls);
        assert forall i :: 0 <= i < |before| ==> (before + [made[0].id])[i] == before[i];
      } else {
        assert Begins(calls + made) == Begins(calls);
      }
    }
  }

  lemma {:induction false} ClosingConsistent(calls: seq<Call>, s: State)
    requires Consistent(calls, s)
    ensures Track(calls + Closing(s)) == Idle && Increasing(Begins(calls + Closing(s)))
  {
    LineConsistent(calls, s, Quit, Outcome(0, None, false, false));
  }

  lemma {:induction false} RunConsistent(calls: seq<Call>, stream: string, s: State, world: nat -> Outcome, i: nat)
    requires Consistent(calls, s)
    ensures Track(calls + Performed(stream, s, world, i)) == Idle
    ensures Increasing(Begins(calls + Performed(stream, s, world, i)))
    decreases |stream|
  {
    hide Consistent, NextLine, Parse, Calls, Next, Track, Begins;
    var r := NextLine(stream);
    if r.None? {
      ClosingConsistent(calls, s);
    } else {
      var cmd := Parse(r.value.0);
      var made := Calls(cmd, s, world(i));
      if cmd.Quit? {
        ClosingConsistent(calls, s);
        QuitCalls(s, world(i));
        assert made + [] == made;
      } else {
        LineConsistent(calls, s, cmd, world(i));
        RunConsistent(calls + made, r.value.1, Next(cmd, s, world(i)), world, i + 1);
        var rest := Performed(r.value.1, Next(cmd, s, world(i)), world, i + 1);
        assert calls + (made + rest) == calls + made + rest;
      }
    }
  }

  lemma {:induction false} QuitCalls(s: State, o: Outcome)
    ensures Calls(Quit, s, o) == Closing(s)
  {}

  /** Every session, whatever the client sends and the engine answers, finishes each
      transaction it begins exactly once and in order, never uses a null handle, and works
      only on the transaction it has open. */
  lemma {:induction false} Lifecycle(stream: string, nextId: nat, world: nat -> Outcome)
    ensures
      var calls := Performed(stream, State(None, nextId), world, 0);
      Track(calls) == Idle && Begins(calls) == Ends(calls) && Increasing(Begins(calls)) && Refused !in calls
  {
    var s := State(None, nextId);
    var calls := Performed(stream, s, world, 0);
    assert Consistent([], s);
    RunConsistent([], stream, s, world, 0);
    assert [] + calls == calls;
    TrackBalances(calls);
  }

  /** Every line served gets exactly one reply. */
  lemma {:induction false} OneReplyPerLine(stream: string, s: State, world: nat -> Outcome, i: nat)
    ensures |Dialogue(stream, s, world, i)| == |Served(stream)|
    decreases |stream|
  {
    hide NextLine, Parse, Reply;
    var r := NextLine(stream);
    if r.Some? && !Parse(r.value.0).Quit? {
      OneReplyPerLine(r.value.1, Next(Parse(r.value.0), s, world(i)), world, i + 1);
    }
  }

  // ----- the code -----

  /** What `TxnHandle::impl` points to. */
  class TxnContext {
    constructor () {}
  }

  class TxnHandle {
    var id: nat
    var impl: TxnContext?
    ghost var calls: seq<Call>

    constructor ()
      ensures impl == null && calls == []
    {
      id, impl, calls := 0, null, [];
    }
  }

  /** The open transaction of a handle. */
  function Open(h: TxnHandle): Option<nat>
    reads h
  {
    if h.impl == null then None else Some(h.id)
  }

  /** `kv_api`, with the process-wide counter of transaction ids. */
  class KvApi {
    var nextId: nat

    constructor ()
      ensures nextId == 1
    {
      nextId := 1;
    }

    /** `begin_txn`; other sessions have begun `others` transactions since. */
    method BeginTxn(h: TxnHandle, others: nat) returns (rc: Rc)
      modifies this, h
      ensures rc == OK && h.impl != null && fresh(h.impl) && h.id == old(nextId) + others && nextId == h.id + 1
      ensures h.calls == old(h.calls) + [Begun(h.id)]
    {
      var ctx := new TxnContext();
      h.id := nextId + others;
      nextId := nextId + others + 1;
      h.impl := ctx;
      h.calls := h.calls + [Begun(h.id)];
      rc := OK;
    }

    method Get(h: TxnHandle, key: string, found: Option<string>) returns (rc: Rc, value: string)
      modifies h`calls
      ensures h.impl == null ==> rc == ERROR && h.calls == old(h.calls) + [Refused]
      ensures h.impl != null ==>
                && h.calls == old(h.calls) + [Got(h.id, key)]
                && (if found.Some? then rc == OK && value == found.value else rc == NOT_FOUND)
    {
      value := "";
      if h.impl == null {
        h.calls := h.calls + [Refused];
        return ERROR, value;
      }
      h.calls := h.calls + [Got(h.id, key)];
      if found.Some? {
        return OK, found.value;
      }
      rc := NOT_FOUND;
    }

    method Put(h: TxnHandle, key: string, value: string, stored: bool) returns (rc: Rc)
      modifies h`calls
      ensures h.impl == null ==> rc == ERROR && h.calls == old(h.calls) + [Refused]
      ensures h.impl != null ==>
                h.calls == old(h.calls) + [Stored(h.id, key, value)] && rc == if stored then OK else ERROR
    {
      if h.impl == null {
        h.calls := h.calls + [Refused];
        return ERROR;
      }
      h.calls := h.calls + [Stored(h.id, key, value)];
      rc := if stored then OK else ERROR;
    }

    method Commit(h: TxnHandle, committed: bool) returns (rc: Rc)
      modifies h`calls, h`impl
      ensures h.impl == null
      ensures old(h.impl) == null ==> rc == ERROR && h.calls == old(h.calls) + [Refused]
      ensures old(h.impl) != null ==>
                h.calls == old(h.calls) + [CommitTried(h.id)] && rc == if committed then OK else ABORT
    {
      if h.impl == null {
        h.calls := h.calls + [Refused];
        return ERROR;
      }
      h.calls := h.calls + [CommitTried(h.id)];
      h.impl := null;
      rc := if committed then OK else ABORT;
    }

    method AbortTxn(h: TxnHandle) returns (rc: Rc)
      modifies h`calls, h`impl
      ensures h.impl == null
      ensures old(h.impl) == null ==> rc == ERROR && h.calls == old(h.calls) + [Refused]
      ensures old(h.impl) != null ==> h.calls == old(h.calls) + [Aborted(h.id)] && rc == OK
    {
      if h.impl == null {
        h.calls := h.calls + [Refused];
        return ERROR;
      }
      h.calls := h.calls + [Aborted(h.id)];
      h.impl := null;
      rc := OK;
    }
  }

  /** The branches of `handle_client` that talk to the engine inside a transaction. */
  method ServeData(kv: KvApi, tx: TxnHandle, inTxn: bool, line: string, parts: seq<string>, cmd: string, o: Outcome)
      returns (reply: string, inTxn': bool)
    requires inTxn <==> tx.impl != null
    requires parts == Words(line) && parts != [] && cmd == Upper(parts[0]) && (cmd == "GET" || cmd == "PUT")
    modifies tx`calls
    ensures inTxn' == inTxn
    ensures reply == Reply(Parse(line), State(Open(tx), kv.nextId), o)
    ensures tx.calls == old(tx.calls) + Calls(Parse(line), State(Open(tx), kv.nextId), o)
  {
    hide Words, PutValue;
    inTxn' := inTxn;
    if !inTxn {
      reply := "ERR NO_ACTIVE_TXN\n";
    } else if cmd == "GET" {
      if |parts| != 2 {
        reply := "ERR USAGE GET <key>\n";
      } else {
        var rc, val := kv.Get(tx, parts[1], o.found);
        if rc == OK {
          reply := "OK VALUE " + val + "\n";
        } else if rc == NOT_FOUND {
          reply := "ERR NOT_FOUND\n";
        } else if rc == ABORT {
          inTxn', reply := false, "ERR ABORT\n";
        } else {
          reply := "ERR GET_FAIL\n";
        }
      }
    } else if |parts| < 3 {
      reply := "ERR USAGE PUT <key> <value>\n";
    } else {
      var value := SecondSpace(line);
      var rc := kv.Put(tx, parts[1], value, o.stored);
      if rc == OK {
        reply := "OK\n";
      } else if rc == ABORT {
        inTxn', reply := false, "ERR ABORT\n";
      } else {
        reply := "ERR PUT_FAIL\n";
      }
    }
  }

  /** The find/substr split of a PUT line. */
  method SecondSpace(line: string) returns (value: string)
    ensures value == PutValue(line)
  {
    var pos1 := Find(line, ' ', 0);
    var pos2 := if pos1 == |line| then |line| else Find(line, ' ', pos1 + 1);
    value := if pos2 == |line| then "" else line[pos2 + 1..];
  }

  /** The body of the loop of `handle_client`, for a line that was read. */
  method ServeLine(kv: KvApi, tx: TxnHandle, inTxn: bool, line: string, o: Outcome)
      returns (reply: string, inTxn': bool, quit: bool)
    requires inTxn <==> tx.impl != null
    modifies kv, tx
    ensures inTxn' <==> tx.impl != null
    ensures quit <==> Parse(line).Quit?
    ensures var s := State(old(Open(tx)), old(kv.nextId));
            && reply == Reply(Parse(line), s, o)
            && tx.calls == old(tx.calls) + Calls(Parse(line), s, o)
            && State(Open(tx), kv.nextId) == Next(Parse(line), s, o)
  {
    hide Words, PutValue, Decimal;
    inTxn', quit := inTxn, false;
    var parts := SplitWs(line);
    if parts == [] {
      return "ERR EMPTY_CMD\n", inTxn', quit;
    }
    var cmd := Upper(parts[0]);
    if cmd == "START" {
      if inTxn {
        return "ERR TXN_ALREADY_STARTED\n", inTxn', quit;
      }
      var rc := kv.BeginTxn(tx, o.othersBegun);
      if rc == OK {
        inTxn', reply := true, "OK TXN " + Decimal(tx.id) + "\n";
      } else {
        reply := "ERR START_FAIL\n";
      }
    } else if cmd == "GET" || cmd == "PUT" {
      reply, inTxn' := ServeData(kv, tx, inTxn, line, parts, cmd, o);
    } else if cmd == "COMMIT" {
      if !inTxn {
        return "ERR NO_ACTIVE_TXN\n", inTxn', quit;
      }
      var rc := kv.Commit(tx, o.committed);
      inTxn' := false;
      reply := if rc == OK then "OK COMMIT\n" else if rc == ABORT then "ERR ABORT\n" else "ERR COMMIT_FAIL\n";
    } else if cmd == "ABORT" {
      if !inTxn {
        return "ERR NO_ACTIVE_TXN\n", inTxn', quit;
      }
      var _ := kv.AbortTxn(tx);
      inTxn', reply := false, "OK ABORT\n";
    } else if cmd == "END" || cmd == "QUIT" || cmd == "EXIT" {
      if inTxn {
        var _ := kv.AbortTxn(tx);
        inTxn' := false;
      }
      reply, quit := "BYE\n", true;
    } else {
      reply := "ERR BAD_CMD\n";
    }
  }

  /** One line of a session, unfolded. */
  lemma {:induction false} SessionLine(stream: string, s: State, world: nat -> Outcome, i: nat, line: string, rest: string)
    requires NextLine(stream) == Some((line, rest))
    ensures
      var cmd := Parse(line);
      && Dialogue(stream, s, world, i) ==
         [Reply(cmd, s, world(i))] + (if cmd.Quit? then [] else Dialogue(rest, Next(cmd, s, world(i)), world, i + 1))
      && Performed(stream, s, world, i) ==
         Calls(cmd, s, world(i)) + (if cmd.Quit? then [] else Performed(rest, Next(cmd, s, world(i)), world, i + 1))
  {
    hide NextLine, Parse, Reply, Calls, Next;
  }

  lemma {:induction false} SessionEnd(stream: string, s: State, world: nat -> Outcome, i: nat)
    requires NextLine(stream) == None
    ensures Dialogue(stream, s, world, i) == [] && Performed(stream, s, world, i) == Closing(s)
  {
    hide NextLine;
  }

  /** `handle_client` on everything the client sends before the connection ends. */
  method HandleClient(kv: KvApi, stream: string, world: nat -> Outcome) returns (replies: seq<string>, tx: TxnHandle)
    modifies kv
    ensures fresh(tx) && tx.impl == null
    ensures replies == [WELCOME] + Dialogue(stream, State(None, old(kv.nextId)), world, 0)
    ensures tx.calls == Performed(stream, State(None, old(kv.nextId)), world, 0)
    ensures |replies| == 1 + |Served(stream)|
    ensures Track(tx.calls) == Idle && Begins(tx.calls) == Ends(tx.calls) && Increasing(Begins(tx.calls))
  {
    hide NextLine, Parse, Reply, Calls, Next, Track, Begins, Ends, Increasing, Dialogue, Performed, Served;
    ghost var start := State(None, kv.nextId);
    Lifecycle(stream, kv.nextId, world);
    OneReplyPerLine(stream, start, world, 0);
    tx := new TxnHandle();
    var inTxn := false;
    replies := [WELCOME];
    var pos, i := 0, 0;
    assert stream[0..] == stream;
    while true
      invariant pos <= |stream| && fresh(tx) && (inTxn <==> tx.impl != null)
      invariant replies + Dialogue(stream[pos..], State(Open(tx), kv.nextId), world, i)
             == [WELCOME] + Dialogue(stream, start, world, 0)
      invariant tx.calls + Performed(stream[pos..], State(Open(tx), kv.nextId), world, i)
             == Performed(stream, start, world, 0)
      decreases |stream| - pos
    {
      ghost var s := State(Open(tx), kv.nextId);
      var ok, line, next := ReadLine(stream, pos);
      if !ok {
        SessionEnd(stream[pos..], s, world, i);
        if inTxn {
          var _ := kv.AbortTxn(tx);
          inTxn := false;
        }
        break;
      }
      SessionLine(stream[pos..], s, world, i, line, stream[next..]);
      var reply, quit;
      reply, inTxn, quit := ServeLine(kv, tx, inTxn, line, world(i));
      replies := replies + [reply];
      pos, i := next, i + 1;
      if quit {
        assert inTxn == false by {
          QuitCloses(s, world(i - 1));
        }
        break;
      }
    }
  }

  lemma {:induction false} QuitCloses(s: State, o: Outcome)
    ensures Next(Quit, s, o).open == None
  {}
}
