/** The text protocol: reading lines (`read_line`), splitting them into words (`split_ws`)
    and recovering the key and value of a PUT. */
module LineProtocol {

  datatype Option<+T> = None | Some(value: T)

  const LINE_LIMIT: nat := 64 * 1024
  const LF: char := '\n'
  const CR: char := '\r'

  // ----- lines -----

  /** `s` without its carriage returns. */
  function Strip(s: string): (r: string)
    ensures CR !in r && |r| <= |s|
    ensures CR !in s ==> r == s
    ensures forall c :: c in r ==> c in s
  {
    if s == [] then []
    else
      var r := Strip(s[..|s| - 1]);
      if s[|s| - 1] == CR then r else
        assert CR !in s ==> s == s[..|s| - 1] + [s[|s| - 1]];
        r + [s[|s| - 1]]
  }

  lemma {:induction false} StripStep(s: string, n: nat)
    requires n < |s|
    ensures Strip(s[..n + 1]) == Strip(s[..n]) + if s[n] == CR then [] else [s[n]]
  {
    assert s[..n + 1][..n] == s[..n];
  }

  lemma {:induction false} StripGrows(s: string, n: nat, m: nat)
    requires n <= m <= |s|
    ensures |Strip(s[..n])| <= |Strip(s[..m])|
  {
    if n < m {
      StripGrows(s, n, m - 1);
      StripStep(s, m - 1);
    }
  }

  /** The index of the first line feed, or the length if there is none. */
  function LineEnd(s: string): (n: nat)
    ensures n <= |s| && LF !in s[..n]
    ensures n < |s| ==> s[n] == LF
  {
    if s == [] || s[0] == LF then 0 else 1 + LineEnd(s[1..])
  }

  /** The next line of a stream and what follows it; None when the stream ends first or the
      line is over the limit. */
  function NextLine(s: string): (r: Option<(string, string)>)
    ensures r.Some? ==> |r.value.1| < |s|
  {
    var n := LineEnd(s);
    if n == |s| || |Strip(s[..n])| > LINE_LIMIT then None else Some((Strip(s[..n]), s[n + 1..]))
  }

  lemma {:induction false} LineEndIs(s: string, n: nat)
    requires n <= |s| && LF !in s[..n] && (n < |s| ==> s[n] == LF)
    ensures LineEnd(s) == n
  {
    var e := LineEnd(s);
    assert forall i :: 0 <= i < n ==> s[i] == s[..n][i];
    assert forall i :: 0 <= i < e ==> s[i] == s[..e][i];
  }

  /** `read_line`, on a connection that delivers `s` from position `pos` and then closes. */
  method ReadLine(s: string, pos: nat) returns (ok: bool, line: string, next: nat)
    requires pos <= |s|
    ensures pos <= next <= |s|
    ensures if ok then next > pos && NextLine(s[pos..]) == Some((line, s[next..])) else NextLine(s[pos..]) == None
  {
    hide Strip, NextLine;
    ghost var rest := s[pos..];
    line := "";
    next := pos;
    StripNone(rest);
    while next < |s|
      invariant pos <= next <= |s| && LF !in rest[..next - pos]
      invariant line == Strip(rest[..next - pos]) && |line| <= LINE_LIMIT
    {
      ghost var n := next - pos;
      var c := s[next];
      StripStep(rest, n);
      next := next + 1;
      if c == LF {
        LineFound(rest, n);
        assert rest[n + 1..] == s[next..];
        return true, line, next;
      }
      assert rest[..n + 1] == rest[..n] + [c];
      if c != CR {
        line := line + [c];
      }
      if |line| > LINE_LIMIT {
        TooLong(rest, n + 1);
        return false, "", next;
      }
    }
    assert rest[..next - pos] == rest;
    StreamEnds(rest);
    ok, line := false, "";
  }

  lemma {:induction false} StripNone(s: string)
    ensures Strip(s[..0]) == []
  {}

  lemma {:induction false} LineFound(s: string, n: nat)
    requires n < |s| && s[n] == LF && LF !in s[..n] && |Strip(s[..n])| <= LINE_LIMIT
    ensures NextLine(s) == Some((Strip(s[..n]), s[n + 1..]))
  {
    LineEndIs(s, n);
  }

  lemma {:induction false} StreamEnds(s: string)
    requires LF !in s
    ensures NextLine(s) == None
  {
    assert s[..|s|] == s;
    LineEndIs(s, |s|);
  }

  lemma {:induction false} TooLong(s: string, n: nat)
    requires n <= |s| && |Strip(s[..n])| > LINE_LIMIT && LF !in s[..n]
    ensures NextLine(s) == None
  {
    var e := LineEnd(s);
    if e < |s| {
      assert forall i :: 0 <= i < n ==> s[i] == s[..n][i];
      StripGrows(s, n, e);
    }
  }

  // ----- words -----

  predicate IsSpace(c: char) {
    c == ' ' || c == '\t' || c == '\n' || c == '\U{B}' || c == '\U{C}' || c == '\r'
  }

  predicate Blank(s: string) {
    forall i :: 0 <= i < |s| ==> IsSpace(s[i])
  }

  predicate Word(s: string) {
    s != [] && forall i :: 0 <= i < |s| ==> !IsSpace(s[i])
  }

  /** The length of the leading run of non-space characters. */
  function WordEnd(s: string): (n: nat)
    ensures n <= |s| && forall i :: 0 <= i < n ==> !IsSpace(s[i])
    ensures n < |s| ==> IsSpace(s[n])
  {
    if s == [] || IsSpace(s[0]) then 0 else 1 + WordEnd(s[1..])
  }

  function Words(s: string): (v: seq<string>)
    ensures forall i :: 0 <= i < |v| ==> Word(v[i])
    decreases |s|
  {
    if s == [] then []
    else if IsSpace(s[0]) then Words(s[1..])
    else [s[..WordEnd(s)]] + Words(s[WordEnd(s)..])
  }

  /** `split_ws`. */
  method SplitWs(s: string) returns (v: seq<string>)
    ensures v == Words(s)
  {
    hide Words;
    v := [];
    var i := 0;
    assert s[0..] == s;
    while i < |s|
      invariant 0 <= i <= |s| && v + Words(s[i..]) == Words(s)
    {
      if IsSpace(s[i]) {
        SameWordsAfterSpace(s[i..]);
        assert s[i..][1..] == s[i + 1..];
        i := i + 1;
      } else {
        var j := i + 1;
        while j < |s| && !IsSpace(s[j])
          invariant i < j <= |s| && forall k :: i <= k < j ==> !IsSpace(s[k])
        {
          j := j + 1;
        }
        FirstWord(s[i..]);
        WordEndIs(s[i..], j - i);
        assert s[i..][..j - i] == s[i..j] && s[i..][j - i..] == s[j..];
        v := v + [s[i..j]];
        i := j;
      }
    }
    assert s[i..] == [];
    NoWords();
  }

  lemma {:induction false} WordEndIs(s: string, n: nat)
    requires n <= |s| && (forall i :: 0 <= i < n ==> !IsSpace(s[i])) && (n < |s| ==> IsSpace(s[n]))
    ensures WordEnd(s) == n
  {}

  /** A line spelled from words with blank gaps before, between and after them. */
  ghost function Spell(gaps: seq<string>, words: seq<string>): string
    requires |gaps| == |words| + 1
  {
    if words == [] then gaps[0] else gaps[0] + (words[0] + Spell(gaps[1..], words[1..]))
  }

  ghost predicate Spelling(gaps: seq<string>, words: seq<string>) {
    && |gaps| == |words| + 1
    && (forall i :: 0 <= i < |words| ==> Word(words[i]))
    && (forall i :: 0 <= i < |gaps| ==> Blank(gaps[i]))
    && (forall i :: 0 < i < |words| ==> gaps[i] != [])
  }

  lemma {:induction false} SkipBlank(gap: string, s: string)
    requires Blank(gap)
    ensures Words(gap + s) == Words(s)
  {
    if gap == [] {
      assert gap + s == s;
    } else {
      SkipBlank(gap[1..], s);
      assert (gap + s)[1..] == gap[1..] + s;
    }
  }

  lemma {:induction false} TakeWord(w: string, s: string)
    requires Word(w) && (s == [] || IsSpace(s[0]))
    ensures Words(w + s) == [w] + Words(s)
  {
    WordEndIs(w + s, |w|);
    assert (w + s)[..|w|] == w && (w + s)[|w|..] == s;
  }

  /** Splitting recovers the words of any spelling. */
  lemma {:induction false} SplitSpelling(gaps: seq<string>, words: seq<string>)
    requires Spelling(gaps, words)
    ensures Words(Spell(gaps, words)) == words
    decreases |words|
  {
    hide Words;
    if words == [] {
      SkipBlank(gaps[0], []);
      assert gaps[0] + [] == gaps[0];
      NoWords();
    } else {
      var rest := Spell(gaps[1..], words[1..]);
      SplitSpelling(gaps[1..], words[1..]);
      SkipBlank(gaps[0], words[0] + rest);
      assert rest == [] || IsSpace(rest[0]) by {
        assert gaps[1..][0] == gaps[1];
      }
      TakeWord(words[0], rest);
      assert words == [words[0]] + words[1..];
    }
  }

  lemma {:induction false} NoWords()
    ensures Words([]) == []
  {}

  /** Every line is a spelling of its words: nothing but blanks is dropped. */
  lemma {:induction false} EveryLineIsSpelled(s: string) returns (gaps: seq<string>)
    ensures Spelling(gaps, Words(s)) && Spell(gaps, Words(s)) == s
    ensures s != [] && !IsSpace(s[0]) ==> gaps[0] == []
    ensures s != [] && IsSpace(s[0]) ==> gaps[0] != []
    decreases |s|
  {
    hide Words;
    if s == [] {
      NoWords();
      gaps := [[]];
    } else if IsSpace(s[0]) {
      SameWordsAfterSpace(s);
      var g := EveryLineIsSpelled(s[1..]);
      gaps := [[s[0]] + g[0]] + g[1..];
      hide Spelling;
      SpellPrefix([s[0]], g, Words(s[1..]));
      assert Spelling(gaps, Words(s)) by {
        BlankPrefix([s[0]], g, Words(s));
      }
    } else {
      var n := WordEnd(s);
      FirstWord(s);
      NoWords();
      var g := EveryLineIsSpelled(s[n..]);
      gaps := [[]] + g;
      hide Spelling;
      SpellWord(s[..n], g, Words(s[n..]));
      assert s[..n] + s[n..] == s;
    }
  }

  lemma {:induction false} BlankPrefix(p: string, gaps: seq<string>, words: seq<string>)
    requires Blank(p) && Spelling(gaps, words)
    ensures Spelling([p + gaps[0]] + gaps[1..], words)
  {}

  lemma {:induction false} FirstWord(s: string)
    requires s != [] && !IsSpace(s[0])
    ensures Words(s) == [s[..WordEnd(s)]] + Words(s[WordEnd(s)..])
  {}

  lemma {:induction false} SpellWord(w: string, gaps: seq<string>, words: seq<string>)
    requires Word(w) && Spelling(gaps, words) && (words != [] ==> gaps[0] != [])
    ensures Spelling([[]] + gaps, [w] + words) && Spell([[]] + gaps, [w] + words) == w + Spell(gaps, words)
  {
    assert ([[]] + gaps)[1..] == gaps && ([w] + words)[1..] == words;
    assert Spell([[]] + gaps, [w] + words) == [] + (w + Spell(gaps, words));
  }

  lemma {:induction false} SameWordsAfterSpace(s: string)
    requires s != [] && IsSpace(s[0])
    ensures Words(s) == Words(s[1..])
  {}

  lemma {:induction false} SpellPrefix(p: string, gaps: seq<string>, words: seq<string>)
    requires |gaps| == |words| + 1
    ensures Spell([p + gaps[0]] + gaps[1..], words) == p + Spell(gaps, words)
  {
    var g := [p + gaps[0]] + gaps[1..];
    assert g[1..] == gaps[1..];
    if words != [] {
      var rest := words[0] + Spell(gaps[1..], words[1..]);
      assert p + gaps[0] + rest == p + (gaps[0] + rest);
    }
  }

  // ----- commands -----

  function UpperChar(c: char): char {
    if 'a' <= c <= 'z' then c - 'a' + 'A' else c
  }

  /** `upper`. */
  function Upper(s: string): (r: string)
    ensures |r| == |s| && forall i :: 0 <= i < |s| ==> r[i] == UpperChar(s[i])
  {
    seq(|s|, i requires 0 <= i < |s| => UpperChar(s[i]))
  }

  /** `std::string::find` of a character from `from` on; the length stands for npos. */
  function Find(s: string, c: char, from: nat): (n: nat)
    requires from <= |s|
    ensures from <= n <= |s| && (forall i :: from <= i < n ==> s[i] != c) && (n < |s| ==> s[n] == c)
    decreases |s| - from
  {
    if from == |s| || s[from] == c then from else Find(s, c, from + 1)
  }

  /** What follows the second space of the line. */
  function PutValue(line: string): string {
    var pos1 := Find(line, ' ', 0);
    if pos1 == |line| then ""
    else
      var pos2 := Find(line, ' ', pos1 + 1);
      if pos2 == |line| then "" else line[pos2 + 1..]
  }

  datatype Command =
    | Empty
    | Start
    | Get(args: seq<string>)
    | Put(words: seq<string>, value: string)
    | Commit
    | Abort
    | Quit
    | Unknown

  function Parse(line: string): Command {
    var parts := Words(line);
    if parts == [] then Empty
    else
      var cmd := Upper(parts[0]);
      if cmd == "START" then Start
      else if cmd == "GET" then Get(parts[1..])
      else if cmd == "PUT" then Put(parts, PutValue(line))
      else if cmd == "COMMIT" then Commit
      else if cmd == "ABORT" then Abort
      else if cmd == "END" || cmd == "QUIT" || cmd == "EXIT" then Quit
      else Unknown
  }

  // ----- the PUT round trip -----

  function PutLine(key: string, value: string): string {
    "PUT " + key + " " + value
  }

  /** What the server takes from the stream when it reads a PUT: key, value, and what is left. */
  function ReceivePut(stream: string): Option<(string, string, string)> {
    var r := NextLine(stream);
    if r.None? then None
    else
      var c := Parse(r.value.0);
      if c.Put? && |c.words| >= 3 then Some((c.words[1], c.value, r.value.1)) else None
  }

  lemma {:induction false} PutWords(key: string, value: string)
    requires Word(key)
    ensures Words(PutLine(key, value)) == ["PUT", key] + Words(value)
  {
    hide Words;
    var tail := " " + (key + (" " + value));
    assert PutLine(key, value) == "PUT" + tail;
    TakeWord("PUT", tail);
    SkipBlank(" ", key + (" " + value));
    TakeWord(key, " " + value);
    SkipBlank(" ", value);
  }

  lemma {:induction false} PutValueIs(key: string, value: string)
    requires Word(key)
    ensures PutValue(PutLine(key, value)) == value
  {
    var line := PutLine(key, value);
    assert line[..4] == "PUT ";
    assert line[0] == 'P' && line[1] == 'U' && line[2] == 'T' && line[3] == ' ';
    FindIs(line, 0, 3);
    assert forall i :: 4 <= i < 4 + |key| ==> line[i] == key[i - 4];
    FindIs(line, 4, 4 + |key|);
  }

  lemma {:induction false} FindIs(s: string, from: nat, n: nat)
    requires from <= n < |s| && s[n] == ' ' && forall i :: from <= i < n ==> s[i] != ' '
    ensures Find(s, ' ', from) == n
  {}

  lemma {:induction false} ParsePut(key: string, value: string)
    requires Word(key)
    ensures Parse(PutLine(key, value)) == Put(["PUT", key] + Words(value), value)
  {
    hide Words, PutValue;
    PutWords(key, value);
    PutValueIs(key, value);
    assert Upper("PUT") == "PUT";
  }

  lemma {:induction false} HasWordIff(s: string)
    ensures Words(s) != [] <==> !Blank(s)
    decreases |s|
  {
    if s != [] && IsSpace(s[0]) {
      HasWordIff(s[1..]);
      assert s == [s[0]] + s[1..];
    }
  }

  predicate Sendable(key: string, value: string) {
    && Word(key)
    && CR !in value && LF !in value && !Blank(value)
    && |PutLine(key, value)| <= LINE_LIMIT
  }

  lemma {:induction false} LineOfItself(line: string, rest: string)
    requires LF !in line
    ensures NextLine(line + "\n" + rest) ==
            if |Strip(line)| <= LINE_LIMIT then Some((Strip(line), rest)) else None
  {
    var s := line + "\n" + rest;
    assert s[..|line|] == line && s[|line| + 1..] == rest;
    LineEndIs(s, |line|);
  }

  /** A PUT that is sent comes out with exactly its key and value, and the stream goes on
      right after it, if and only if the key is a word and the value is free of line breaks,
      not blank and within the line limit. */
  lemma {:induction false} PutRoundTripIff(key: string, value: string, rest: string)
    ensures ReceivePut(PutLine(key, value) + "\n" + rest) == Some((key, value, rest)) <==> Sendable(key, value)
  {
    if Sendable(key, value) {
      PutArrives(key, value, rest);
    }
    if ReceivePut(PutLine(key, value) + "\n" + rest) == Some((key, value, rest)) {
      ArrivedPut(key, value, rest);
    }
  }

  lemma {:induction false} WordHasNoBreak(w: string)
    requires Word(w)
    ensures CR !in w && LF !in w
  {}

  lemma {:induction false} PutArrives(key: string, value: string, rest: string)
    requires Sendable(key, value)
    ensures ReceivePut(PutLine(key, value) + "\n" + rest) == Some((key, value, rest))
  {
    var line := PutLine(key, value);
    WordHasNoBreak(key);
    hide Word, Blank;
    assert CR !in line && LF !in line;
    LineOfItself(line, rest);
    ParsePut(key, value);
    HasWordIff(value);
    hide Parse, NextLine, PutLine;
    assert (["PUT", key] + Words(value))[1] == key;
  }

  /** What comes out has no line break in it. */
  lemma {:induction false} ArrivedClean(stream: string, key: string, value: string, rest: string)
    requires ReceivePut(stream) == Some((key, value, rest))
    ensures Word(key) && CR !in value && LF !in value
  {
    hide Words, Strip;
    var line := NextLine(stream).value.0;
    assert forall i :: 0 <= i < |value| ==> value[i] in line;
  }

  lemma {:induction false} ArrivedPut(key: string, value: string, rest: string)
    requires ReceivePut(PutLine(key, value) + "\n" + rest) == Some((key, value, rest))
    ensures Sendable(key, value)
  {
    var line := PutLine(key, value);
    ArrivedClean(line + "\n" + rest, key, value, rest);
    WordHasNoBreak(key);
    hide Word, Blank;
    assert CR !in line && LF !in line;
    LineOfItself(line, rest);
    ParsePut(key, value);
    HasWordIff(value);
    hide Parse, NextLine, PutLine;
    assert |["PUT", key] + Words(value)| >= 3;
  }

  // ----- carriage returns -----

  lemma {:induction false} StripLast(s: string, c: char)
    ensures Strip(s + [c]) == if c == CR then Strip(s) else Strip(s) + [c]
  {
    assert (s + [c])[..|s|] == s;
  }

  /** A line ended by CR LF is the same line. */
  lemma {:induction false} CrLfSameLine(line: string, rest: string)
    requires LF !in line
    ensures NextLine(line + "\r\n" + rest) == NextLine(line + "\n" + rest)
  {
    LineOfItself(line, rest);
    assert line + "\r\n" + rest == (line + "\r") + "\n" + rest;
    LineOfItself(line + "\r", rest);
    StripLast(line, CR);
  }

  /** The round trip with lines ended by CR LF. */
  lemma {:induction false} PutCrLfRoundTripIff(key: string, value: string, rest: string)
    ensures ReceivePut(PutLine(key, value) + "\r\n" + rest) == Some((key, value, rest)) <==> Sendable(key, value)
  {
    var stream := PutLine(key, value) + "\r\n" + rest;
    if Sendable(key, value) || ReceivePut(stream) == Some((key, value, rest)) {
      if ReceivePut(stream) == Some((key, value, rest)) {
        ArrivedClean(stream, key, value, rest);
      }
      WordHasNoBreak(key);
      hide Word, Blank, NextLine;
      assert LF !in PutLine(key, value);
      CrLfSameLine(PutLine(key, value), rest);
      PutRoundTripIff(key, value, rest);
    }
  }
}
