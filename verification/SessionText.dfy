/** What a client says and hears: which text leads to which engine call, and what the reply
    text tells a client about the outcome. */
module SessionText {
  import opened LineProtocol
  import opened Session

  // ----- reading replies -----

  /** What a client makes of a reply. */
  datatype Heard =
    | Began(id: nat)
    | Value(value: string)
    | Done
    | Committed
    | RolledBack
    | Bye
    | Failed(reason: string)
    | Garbled

  predicate StartsWith(s: string, p: string) {
    |p| <= |s| && s[..|p|] == p
  }

  /** The number a string of decimal digits spells. */
  function Number(s: string): nat {
    if s == [] then 0
    else
      var d := s[|s| - 1];
      Number(s[..|s| - 1]) * 10 + if '0' <= d <= '9' then d as nat - '0' as nat else 0
  }

  /** A client's reading of a reply line. */
  function Hear(reply: string): Heard {
    if reply == [] || reply[|reply| - 1] != LF then Garbled
    else
      var text := reply[..|reply| - 1];
      if StartsWith(text, "OK TXN ") then Began(Number(text[7..]))
      else if StartsWith(text, "OK VALUE ") then Value(text[9..])
      else if StartsWith(text, "ERR ") then Failed(text[4..])
      else if text == "OK" then Done
      else if text == "OK COMMIT" then Committed
      else if text == "OK ABORT" then RolledBack
      else if text == "BYE" then Bye
      else Garbled
  }

  lemma {:induction false} NumberOfDecimal(n: nat)
    ensures Number(Decimal(n)) == n
  {
    var digit := [(n % 10) as char + '0'];
    assert digit[..0] == [] && Number(digit) == n % 10;
    if n >= 10 {
      NumberOfDecimal(n / 10);
      assert (Decimal(n / 10) + digit)[..|Decimal(n / 10)|] == Decimal(n / 10);
    }
  }

  lemma {:induction false} HearBegan(n: nat)
    ensures Hear("OK TXN " + Decimal(n) + "\n") == Began(n)
  {
    var reply := "OK TXN " + Decimal(n) + "\n";
    assert reply[..|reply| - 1] == "OK TXN " + Decimal(n);
    assert ("OK TXN " + Decimal(n))[7..] == Decimal(n);
    NumberOfDecimal(n);
    hide Decimal, Number;
  }

  lemma {:induction false} HearValue(v: string)
    ensures Hear("OK VALUE " + v + "\n") == Value(v)
  {
    var reply := "OK VALUE " + v + "\n";
    var text := "OK VALUE " + v;
    assert reply[..|reply| - 1] == text;
    assert text[9..] == v && text[3] == 'V' && "OK TXN "[3] == 'T';
    assert text[..7] != "OK TXN " by {
      assert text[..7][3] == 'V';
    }
  }

  lemma {:induction false} HearFailed(reason: string)
    ensures Hear("ERR " + reason + "\n") == Failed(reason)
  {
    var reply := "ERR " + reason + "\n";
    var text := "ERR " + reason;
    assert reply[..|reply| - 1] == text;
    assert text[4..] == reason && text[..4] == "ERR " && text[0] == 'E';
    assert |text| >= 7 ==> text[..7][0] == 'E';
    assert |text| >= 9 ==> text[..9][0] == 'E';
  }

  lemma {:induction false} HearFixed()
    ensures Hear("OK\n") == Done && Hear("OK COMMIT\n") == Committed && Hear("OK ABORT\n") == RolledBack && Hear("BYE\n") == Bye
    ensures Hear("ERR EMPTY_CMD\n") == Failed("EMPTY_CMD") && Hear("ERR BAD_CMD\n") == Failed("BAD_CMD")
    ensures Hear("ERR TXN_ALREADY_STARTED\n") == Failed("TXN_ALREADY_STARTED")
    ensures Hear("ERR NO_ACTIVE_TXN\n") == Failed("NO_ACTIVE_TXN") && Hear("ERR NOT_FOUND\n") == Failed("NOT_FOUND")
    ensures Hear("ERR USAGE GET <key>\n") == Failed("USAGE GET <key>") && Hear("ERR PUT_FAIL\n") == Failed("PUT_FAIL")
    ensures Hear("ERR USAGE PUT <key> <value>\n") == Failed("USAGE PUT <key> <value>") && Hear("ERR ABORT\n") == Failed("ABORT")
  {
    HearPlain();
    HearErrors();
  }

  lemma {:induction false} HearPlain()
    ensures Hear("OK\n") == Done && Hear("OK COMMIT\n") == Committed && Hear("OK ABORT\n") == RolledBack && Hear("BYE\n") == Bye
  {
    assert "OK\n"[..2] == "OK" && "BYE\n"[..3] == "BYE";
    assert "OK COMMIT\n"[..9] == "OK COMMIT" && "OK COMMIT"[..7][3] == 'C' && "OK COMMIT"[..9][3] == 'C';
    assert "OK ABORT\n"[..8] == "OK ABORT" && "OK ABORT"[..7][3] == 'A';
    assert "OK COMMIT"[..4][0] == 'O' && "OK ABORT"[..4][0] == 'O';
  }

  lemma {:induction false} HearErr(reason: string, reply: string)
    requires reply == "ERR " + reason + "\n"
    ensures Hear(reply) == Failed(reason)
  {
    hide Hear;
    HearFailed(reason);
  }

  lemma {:induction false} HearErrors()
    ensures Hear("ERR EMPTY_CMD\n") == Failed("EMPTY_CMD") && Hear("ERR BAD_CMD\n") == Failed("BAD_CMD")
    ensures Hear("ERR TXN_ALREADY_STARTED\n") == Failed("TXN_ALREADY_STARTED")
    ensures Hear("ERR NO_ACTIVE_TXN\n") == Failed("NO_ACTIVE_TXN") && Hear("ERR NOT_FOUND\n") == Failed("NOT_FOUND")
    ensures Hear("ERR USAGE GET <key>\n") == Failed("USAGE GET <key>") && Hear("ERR PUT_FAIL\n") == Failed("PUT_FAIL")
    ensures Hear("ERR USAGE PUT <key> <value>\n") == Failed("USAGE PUT <key> <value>") && Hear("ERR ABORT\n") == Failed("ABORT")
  {
    hide Hear;
    HearLineErrors();
    HearTxnErrors();
    HearDataErrors();
  }

  lemma {:induction false} HearLineErrors()
    ensures Hear("ERR EMPTY_CMD\n") == Failed("EMPTY_CMD") && Hear("ERR BAD_CMD\n") == Failed("BAD_CMD")
    ensures Hear("ERR USAGE GET <key>\n") == Failed("USAGE GET <key>")
  {
    hide Hear;
    HearErr("EMPTY_CMD", "ERR EMPTY_CMD\n");
    HearErr("BAD_CMD", "ERR BAD_CMD\n");
    HearErr("USAGE GET <key>", "ERR USAGE GET <key>\n");
  }

  lemma {:induction false} HearTxnErrors()
    ensures Hear("ERR TXN_ALREADY_STARTED\n") == Failed("TXN_ALREADY_STARTED")
    ensures Hear("ERR NO_ACTIVE_TXN\n") == Failed("NO_ACTIVE_TXN") && Hear("ERR ABORT\n") == Failed("ABORT")
  {
    hide Hear;
    HearStarted();
    HearErr("NO_ACTIVE_TXN", "ERR NO_ACTIVE_TXN\n");
    HearErr("ABORT", "ERR ABORT\n");
  }

  lemma {:induction false} HearStarted()
    ensures Hear("ERR TXN_ALREADY_STARTED\n") == Failed("TXN_ALREADY_STARTED")
  {
    hide Hear;
    HearErr("TXN_ALREADY_STARTED", "ERR TXN_ALREADY_STARTED\n");
  }

  lemma {:induction false} HearDataErrors()
    ensures Hear("ERR NOT_FOUND\n") == Failed("NOT_FOUND") && Hear("ERR PUT_FAIL\n") == Failed("PUT_FAIL")
    ensures Hear("ERR USAGE PUT <key> <value>\n") == Failed("USAGE PUT <key> <value>")
  {
    hide Hear;
    HearErr("NOT_FOUND", "ERR NOT_FOUND\n");
    HearErr("PUT_FAIL", "ERR PUT_FAIL\n");
    HearPutUsage();
  }

  lemma {:induction false} HearPutUsage()
    ensures Hear("ERR USAGE PUT <key> <value>\n") == Failed("USAGE PUT <key> <value>")
  {
    hide Hear;
    HearErr("USAGE PUT <key> <value>", "ERR USAGE PUT <key> <value>\n");
  }

  // ----- command words -----

  /** `w` is the capital word `c` in any mixture of letter cases. */
  predicate AnyCase(w: string, c: string) {
    |w| == |c| && forall i :: 0 <= i < |c| ==> w[i] == c[i] || w[i] as int == c[i] as int + 32
  }

  predicate Capitals(c: string) {
    forall i :: 0 <= i < |c| ==> 'A' <= c[i] <= 'Z'
  }

  lemma {:induction false} UpperIff(w: string, c: string)
    requires Capitals(c)
    ensures Upper(w) == c <==> AnyCase(w, c)
  {
    if AnyCase(w, c) {
      forall i | 0 <= i < |c| ensures Upper(w)[i] == c[i] {
        LetterIff(w[i], c[i]);
      }
    }
    if Upper(w) == c {
      forall i | 0 <= i < |c| ensures w[i] == c[i] || w[i] as int == c[i] as int + 32 {
        LetterIff(w[i], c[i]);
      }
    }
  }

  lemma {:induction false} LetterIff(x: char, c: char)
    requires 'A' <= c <= 'Z'
    ensures UpperChar(x) == c <==> x == c || x as int == c as int + 32
  {}

  /** Which command a line is: decided by its first word, in any letter case. */
  lemma {:induction false} CommandIff(gaps: seq<string>, words: seq<string>)
    requires Spelling(gaps, words)
    ensures var cmd := Parse(Spell(gaps, words));
            && (cmd.Empty? <==> words == [])
            && (cmd.Start? <==> words != [] && AnyCase(words[0], "START"))
            && (cmd.Get? <==> words != [] && AnyCase(words[0], "GET"))
            && (cmd.Put? <==> words != [] && AnyCase(words[0], "PUT"))
            && (cmd.Commit? <==> words != [] && AnyCase(words[0], "COMMIT"))
            && (cmd.Abort? <==> words != [] && AnyCase(words[0], "ABORT"))
            && (cmd.Quit? <==> words != [] && (AnyCase(words[0], "END") || AnyCase(words[0], "QUIT") || AnyCase(words[0], "EXIT")))
            && (cmd.Get? ==> cmd.args == words[1..])
            && (cmd.Put? ==> cmd.words == words && cmd.value == PutValue(Spell(gaps, words)))
  {
    SplitSpelling(gaps, words);
    if words != [] {
      CommandWord(words[0]);
    }
    hide Words, PutValue, Spell, Spelling, AnyCase, Upper;
    Distinct();
  }

  lemma {:induction false} CommandWord(w: string)
    ensures Upper(w) == "START" <==> AnyCase(w, "START")
    ensures Upper(w) == "GET" <==> AnyCase(w, "GET")
    ensures Upper(w) == "PUT" <==> AnyCase(w, "PUT")
    ensures Upper(w) == "COMMIT" <==> AnyCase(w, "COMMIT")
    ensures Upper(w) == "ABORT" <==> AnyCase(w, "ABORT")
    ensures Upper(w) == "END" <==> AnyCase(w, "END")
    ensures Upper(w) == "QUIT" <==> AnyCase(w, "QUIT")
    ensures Upper(w) == "EXIT" <==> AnyCase(w, "EXIT")
  {
    hide AnyCase, Upper;
    UpperIff(w, "START");
    UpperIff(w, "GET");
    UpperIff(w, "PUT");
    UpperIff(w, "COMMIT");
    UpperIff(w, "ABORT");
    UpperIff(w, "END");
    UpperIff(w, "QUIT");
    UpperIff(w, "EXIT");
  }

  /** No two command words are equal. */
  lemma {:induction false} Distinct()
    ensures "GET" != "PUT" && "GET" != "END" && "PUT" != "END" && "QUIT" != "EXIT"
    ensures "START" != "ABORT"
  {
    assert "GET"[0] == 'G' && "PUT"[0] == 'P' && "END"[0] == 'E';
    assert "QUIT"[0] == 'Q' && "EXIT"[0] == 'E' && "START"[0] == 'S' && "ABORT"[0] == 'A';
  }

  // ----- one turn of the conversation -----

  /** The engine calls a line makes, the state it leaves, and what the client hears. */
  datatype Turn = Turn(calls: seq<Call>, next: State, heard: Heard)

  function TurnOf(line: string, s: State, o: Outcome): Turn {
    var cmd := Parse(line);
    Turn(Calls(cmd, s, o), Next(cmd, s, o), Hear(Reply(cmd, s, o)))
  }

  lemma {:induction false} StartTurn(gaps: seq<string>, words: seq<string>, s: State, o: Outcome)
    requires Spelling(gaps, words) && words != [] && AnyCase(words[0], "START")
    ensures TurnOf(Spell(gaps, words), s, o) ==
            if s.open.Some? then Turn([], s, Failed("TXN_ALREADY_STARTED"))
            else
              var id := s.nextId + o.othersBegun;
              Turn([Begun(id)], State(Some(id), id + 1), Began(id))
  {
    hide Parse, Hear, Decimal, AnyCase, Spell, Spelling;
    CommandIff(gaps, words);
    HearFixed();
    HearBegan(s.nextId + o.othersBegun);
  }

  lemma {:induction false} CommitTurn(gaps: seq<string>, words: seq<string>, s: State, o: Outcome)
    requires Spelling(gaps, words) && words != [] && AnyCase(words[0], "COMMIT")
    ensures TurnOf(Spell(gaps, words), s, o) ==
            if s.open.None? then Turn([], s, Failed("NO_ACTIVE_TXN"))
            else Turn([CommitTried(s.open.value)], s.(open := None), if o.committed then Committed else Failed("ABORT"))
  {
    hide Parse, Hear, AnyCase, Spell, Spelling, Decimal;
    CommandIff(gaps, words);
    HearFixed();
  }

  lemma {:induction false} AbortTurn(gaps: seq<string>, words: seq<string>, s: State, o: Outcome)
    requires Spelling(gaps, words) && words != [] && AnyCase(words[0], "ABORT")
    ensures TurnOf(Spell(gaps, words), s, o) ==
            if s.open.None? then Turn([], s, Failed("NO_ACTIVE_TXN"))
            else Turn([Aborted(s.open.value)], s.(open := None), RolledBack)
  {
    hide Parse, Hear, AnyCase, Spell, Spelling, Decimal;
    CommandIff(gaps, words);
    HearFixed();
  }

  lemma {:induction false} QuitTurn(gaps: seq<string>, words: seq<string>, s: State, o: Outcome)
    requires Spelling(gaps, words) && words != []
    requires AnyCase(words[0], "END") || AnyCase(words[0], "QUIT") || AnyCase(words[0], "EXIT")
    ensures TurnOf(Spell(gaps, words), s, o) ==
            Turn(if s.open.Some? then [Aborted(s.open.value)] else [], s.(open := None), Bye)
  {
    hide Parse, Hear, AnyCase, Spell, Spelling, Decimal;
    CommandIff(gaps, words);
    HearFixed();
  }

  lemma {:induction false} GetTurn(gaps: seq<string>, words: seq<string>, s: State, o: Outcome)
    requires Spelling(gaps, words) && words != [] && AnyCase(words[0], "GET")
    ensures TurnOf(Spell(gaps, words), s, o) ==
            if s.open.None? then Turn([], s, Failed("NO_ACTIVE_TXN"))
            else if |words| != 2 then Turn([], s, Failed("USAGE GET <key>"))
            else
              Turn([Got(s.open.value, words[1])], s,
                   if o.found.Some? then Value(o.found.value) else Failed("NOT_FOUND"))
  {
    hide Parse, Hear, AnyCase, Spell, Spelling, Decimal;
    CommandIff(gaps, words);
    HearFixed();
    if o.found.Some? {
      HearValue(o.found.value);
    }
  }

  /** The value of a PUT is whatever follows the second space of the line. */
  lemma {:induction false} PutTurn(gaps: seq<string>, words: seq<string>, a: string, b: string, value: string, s: State, o: Outcome)
    requires Spelling(gaps, words) && words != [] && AnyCase(words[0], "PUT")
    requires Spell(gaps, words) == a + " " + b + " " + value && ' ' !in a && ' ' !in b
    ensures TurnOf(Spell(gaps, words), s, o) ==
            if s.open.None? then Turn([], s, Failed("NO_ACTIVE_TXN"))
            else if |words| < 3 then Turn([], s, Failed("USAGE PUT <key> <value>"))
            else Turn([Stored(s.open.value, words[1], value)], s, if o.stored then Done else Failed("PUT_FAIL"))
  {
    hide Parse, Hear, AnyCase, Spell, Spelling, PutValue, Decimal;
    CommandIff(gaps, words);
    HearFixed();
    AfterSecondSpace(a, b, value);
  }

  lemma {:induction false} AfterSecondSpace(a: string, b: string, value: string)
    requires ' ' !in a && ' ' !in b
    ensures PutValue(a + " " + b + " " + value) == value
  {
    var line := a + " " + b + " " + value;
    assert forall i :: 0 <= i < |a| ==> line[i] == a[i];
    FindIs(line, 0, |a|);
    assert forall i :: |a| + 1 <= i < |a| + 1 + |b| ==> line[i] == b[i - |a| - 1];
    FindIs(line, |a| + 1, |a| + 1 + |b|);
    assert line[|a| + |b| + 2..] == value;
  }

  lemma {:induction false} EmptyTurn(gaps: seq<string>, s: State, o: Outcome)
    requires Spelling(gaps, [])
    ensures TurnOf(Spell(gaps, []), s, o) == Turn([], s, Failed("EMPTY_CMD"))
  {
    hide Parse, Hear, Spell, Spelling, Decimal;
    CommandIff(gaps, []);
    HearFixed();
  }

  predicate KnownWord(w: string) {
    || AnyCase(w, "START") || AnyCase(w, "GET") || AnyCase(w, "PUT") || AnyCase(w, "COMMIT") || AnyCase(w, "ABORT")
    || AnyCase(w, "END") || AnyCase(w, "QUIT") || AnyCase(w, "EXIT")
  }

  lemma {:induction false} UnknownTurn(gaps: seq<string>, words: seq<string>, s: State, o: Outcome)
    requires Spelling(gaps, words) && words != [] && !KnownWord(words[0])
    ensures TurnOf(Spell(gaps, words), s, o) == Turn([], s, Failed("BAD_CMD"))
  {
    hide Parse, Hear, AnyCase, Spell, Spelling, Decimal;
    CommandIff(gaps, words);
    HearFixed();
  }

  /** The usual PUT: any letter case of the command word, one space on either side of the key. */
  lemma {:induction false} PutKeyValue(w: string, key: string, value: string, s: State, o: Outcome)
    requires AnyCase(w, "PUT") && Word(key) && !Blank(value) && s.open.Some?
    ensures TurnOf(w + " " + key + " " + value, s, o) ==
            Turn([Stored(s.open.value, key, value)], s, if o.stored then Done else Failed("PUT_FAIL"))
  {
    var line := w + " " + key + " " + value;
    AnyCaseWord(w);
    ThreeWords(w, key, value);
    var gaps := EveryLineIsSpelled(line);
    hide AnyCase, Spell, Spelling, Words;
    NoSpaceInWord(w);
    NoSpaceInWord(key);
    PutTurn(gaps, Words(line), w, key, value, s, o);
  }

  lemma {:induction false} AnyCaseWord(w: string)
    requires AnyCase(w, "PUT")
    ensures Word(w)
  {
    assert "PUT"[0] == 'P' && "PUT"[1] == 'U' && "PUT"[2] == 'T';
  }

  lemma {:induction false} NoSpaceInWord(w: string)
    requires Word(w)
    ensures ' ' !in w
  {}

  lemma {:induction false} ThreeWords(w: string, key: string, value: string)
    requires Word(w) && Word(key) && !Blank(value)
    ensures var words := Words(w + " " + key + " " + value); |words| >= 3 && words[0] == w && words[1] == key
  {
    hide Words;
    var tail := " " + (key + (" " + value));
    assert w + " " + key + " " + value == w + tail;
    TakeWord(w, tail);
    SkipBlank(" ", key + (" " + value));
    TakeWord(key, " " + value);
    SkipBlank(" ", value);
    HasWordIff(value);
  }

  /** A second blank before the key moves the key into the value: the value starts after the
      second space of the line, wherever the key is. */
  lemma {:induction false} ExtraSpaceShiftsValue(id: nat, n: nat, o: Outcome)
    ensures TurnOf("PUT  k v", State(Some(id), n), o).calls == [Stored(id, "k", "k v")]
  {
    var line := "PUT  k v";
    var gaps, words := ["", "  ", " ", ""], ["PUT", "k", "v"];
    assert words[1..] == ["k", "v"] && words[1..][1..] == ["v"] && words[1..][1..][1..] == [];
    assert gaps[1..] == ["  ", " ", ""] && gaps[1..][1..] == [" ", ""] && gaps[1..][1..][1..] == [""];
    assert Spell(gaps[1..][1..][1..], []) == "";
    assert Spell(gaps[1..][1..], ["v"]) == " v";
    assert Spell(gaps[1..], ["k", "v"]) == "  k v";
    assert Spell(gaps, words) == line;
    assert Spelling(gaps, words);
    assert line == "PUT" + " " + "" + " " + "k v";
    hide Spell, Spelling;
    PutTurn(gaps, words, "PUT", "", "k v", State(Some(id), n), o);
  }

  // ----- a whole conversation -----

  lemma {:induction false} OneWord(w: string)
    requires Word(w)
    ensures Spelling(["", ""], [w]) && Spell(["", ""], [w]) == w
  {
    assert ["", ""][1..] == [""] && [w][1..] == [];
    assert Spell([""], []) == "";
  }

  /** One served line, as a turn. */
  lemma {:induction false} TurnLine(line: string, rest: string, s: State, world: nat -> Outcome, i: nat)
    requires LF !in line && CR !in line && |line| <= LINE_LIMIT && !Parse(line).Quit?
    ensures
      var stream := line + "\n" + rest;
      var turn := TurnOf(line, s, world(i));
      var replies := Dialogue(stream, s, world, i);
      && Performed(stream, s, world, i) == turn.calls + Performed(rest, turn.next, world, i + 1)
      && replies != [] && Hear(replies[0]) == turn.heard
      && replies[1..] == Dialogue(rest, turn.next, world, i + 1)
  {
    hide NextLine, Parse, Hear, Reply, Calls, Next, Performed, Dialogue;
    LineOfItself(line, rest);
    SessionLine(line + "\n" + rest, s, world, i, line, rest);
  }

  /** The session ends with END, QUIT or EXIT in any letter case: what is open is aborted, the
      client hears BYE, and whatever it sends after that is not served. */
  lemma {:induction false} QuitLine(gaps: seq<string>, words: seq<string>, rest: string, s: State, world: nat -> Outcome, i: nat)
    requires Spelling(gaps, words) && words != []
    requires AnyCase(words[0], "END") || AnyCase(words[0], "QUIT") || AnyCase(words[0], "EXIT")
    requires var line := Spell(gaps, words); LF !in line && CR !in line && |line| <= LINE_LIMIT
    ensures
      var stream := Spell(gaps, words) + "\n" + rest;
      && Performed(stream, s, world, i) == (if s.open.Some? then [Aborted(s.open.value)] else [])
      && var replies := Dialogue(stream, s, world, i);
         |replies| == 1 && Hear(replies[0]) == Bye
  {
    QuitTurn(gaps, words, s, world(i));
    CommandIff(gaps, words);
    var line := Spell(gaps, words);
    hide NextLine, Parse, Hear, Reply, Calls, Next, Performed, Dialogue, Spell, Spelling, AnyCase;
    LineOfItself(line, rest);
    SessionLine(line + "\n" + rest, s, world, i, line, rest);
  }

  /** Start, put, commit: the engine is asked to begin, to store that very key and value, and
      to commit, in one transaction; the client hears the id, the put, and the verdict. */
  lemma {:induction false} PutScript(start: string, key: string, value: string, commit: string, n: nat, world: nat -> Outcome)
    requires AnyCase(start, "START") && Sendable(key, value) && AnyCase(commit, "COMMIT")
    ensures
      var stream := start + "\n" + (PutLine(key, value) + "\n" + (commit + "\n" + ""));
      var id := n + world(0).othersBegun;
      && Performed(stream, State(None, n), world, 0) == [Begun(id), Stored(id, key, value), CommitTried(id)]
      && var replies := Dialogue(stream, State(None, n), world, 0);
         && |replies| == 3 && Hear(replies[0]) == Began(id)
         && Hear(replies[1]) == (if world(1).stored then Done else Failed("PUT_FAIL"))
         && Hear(replies[2]) == (if world(2).committed then Committed else Failed("ABORT"))
  {
    hide *;
    var id := n + world(0).othersBegun;
    var s0, s1 := State(None, n), State(Some(id), id + 1);
    SendableLine(key, value);
    WordTurns(start, commit, s0, s1, world(0), world(2));
    PutKeyValueLine(key, value, s1, world(1));
    var t0, t1 := TurnOf(start, s0, world(0)), TurnOf(PutLine(key, value), s1, world(1));
    var t2 := TurnOf(commit, s1, world(2));
    assert t0.next == s1 && t1.next == s1 && t2.next.open.None?;
    ThreeLines(start, PutLine(key, value), commit, s0, world);
    assert t0.calls + (t1.calls + t2.calls) == [Begun(id), Stored(id, key, value), CommitTried(id)];
  }

  /** Three lines, then the connection ends with no transaction open. */
  lemma {:induction false} ThreeLines(a: string, b: string, c: string, s: State, world: nat -> Outcome)
    requires LF !in a && CR !in a && |a| <= LINE_LIMIT && !Parse(a).Quit?
    requires LF !in b && CR !in b && |b| <= LINE_LIMIT && !Parse(b).Quit?
    requires LF !in c && CR !in c && |c| <= LINE_LIMIT && !Parse(c).Quit?
    requires TurnOf(c, TurnOf(b, TurnOf(a, s, world(0)).next, world(1)).next, world(2)).next.open.None?
    ensures
      var stream := a + "\n" + (b + "\n" + (c + "\n" + ""));
      var t0 := TurnOf(a, s, world(0));
      var t1 := TurnOf(b, t0.next, world(1));
      var t2 := TurnOf(c, t1.next, world(2));
      var replies := Dialogue(stream, s, world, 0);
      && Performed(stream, s, world, 0) == t0.calls + (t1.calls + t2.calls)
      && |replies| == 3 && Hear(replies[0]) == t0.heard && Hear(replies[1]) == t1.heard && Hear(replies[2]) == t2.heard
  {
    hide Parse, Hear, Performed, Dialogue, TurnOf, NextLine;
    var t0 := TurnOf(a, s, world(0));
    var t1 := TurnOf(b, t0.next, world(1));
    var t2 := TurnOf(c, t1.next, world(2));
    EmptyStream();
    SessionEnd("", t2.next, world, 3);
    var r2 := c + "\n" + "";
    TurnLine(c, "", t1.next, world, 2);
    var r1 := b + "\n" + r2;
    TurnLine(b, r2, t0.next, world, 1);
    TurnLine(a, r1, s, world, 0);
    hide *;
    var replies := Dialogue(a + "\n" + r1, s, world, 0);
    var later := Dialogue(r1, t0.next, world, 1);
    var last := Dialogue(r2, t1.next, world, 2);
    assert replies[1..] == later && later[1..] == last && last[1..] == [];
    assert replies[1] == later[0] && replies[2] == later[1] == last[0];
  }

  lemma {:induction false} EmptyStream()
    ensures NextLine("") == None
  {}

  lemma {:induction false} SendableLine(key: string, value: string)
    requires Sendable(key, value)
    ensures LF !in PutLine(key, value) && CR !in PutLine(key, value) && |PutLine(key, value)| <= LINE_LIMIT
    ensures Word(key) && !Blank(value)
  {
    WordHasNoBreak(key);
  }

  lemma {:induction false} CommandLine(w: string, c: string)
    requires AnyCase(w, c) && Capitals(c) && c != "" && |c| <= LINE_LIMIT
    ensures Word(w) && LF !in w && CR !in w && |w| <= LINE_LIMIT
    ensures Spelling(["", ""], [w]) && Spell(["", ""], [w]) == w
  {
    forall i | 0 <= i < |w| ensures !IsSpace(w[i]) {
      assert 'A' <= c[i] <= 'Z';
    }
    WordHasNoBreak(w);
    OneWord(w);
  }

  lemma {:induction false} WordTurns(start: string, commit: string, s0: State, s1: State, o0: Outcome, o2: Outcome)
    requires AnyCase(start, "START") && AnyCase(commit, "COMMIT") && s0.open.None? && s1.open.Some?
    ensures LF !in start && CR !in start && |start| <= LINE_LIMIT && !Parse(start).Quit?
    ensures LF !in commit && CR !in commit && |commit| <= LINE_LIMIT && !Parse(commit).Quit?
    ensures var id := s0.nextId + o0.othersBegun;
            TurnOf(start, s0, o0) == Turn([Begun(id)], State(Some(id), id + 1), Began(id))
    ensures TurnOf(commit, s1, o2) ==
            Turn([CommitTried(s1.open.value)], s1.(open := None), if o2.committed then Committed else Failed("ABORT"))
  {
    CommandLine(start, "START");
    CommandLine(commit, "COMMIT");
    hide Spell, Spelling, TurnOf, AnyCase;
    CommandIff(["", ""], [start]);
    CommandIff(["", ""], [commit]);
    StartTurn(["", ""], [start], s0, o0);
    CommitTurn(["", ""], [commit], s1, o2);
  }

  lemma {:induction false} PutKeyValueLine(key: string, value: string, s: State, o: Outcome)
    requires Word(key) && !Blank(value) && s.open.Some?
    ensures !Parse(PutLine(key, value)).Quit?
    ensures TurnOf(PutLine(key, value), s, o) ==
            Turn([Stored(s.open.value, key, value)], s, if o.stored then Done else Failed("PUT_FAIL"))
  {
    PutIsPut(key, value);
    hide *;
    ParsePut(key, value);
    PutKeyValue("PUT", key, value, s, o);
  }

  lemma {:induction false} PutIsPut(key: string, value: string)
    ensures AnyCase("PUT", "PUT") && PutLine(key, value) == "PUT" + " " + key + " " + value
  {
    assert "PUT " + key == "PUT" + " " + key;
  }
}
