/** The pool wastes nothing: a buffer is cut up to its end before another is obtained, and a
    freed block is the next one its arena serves. */
module ArenaUse {
  import opened ArenaPool

  /** The byte at address `x` belongs to a carved block. */
  ghost predicate ByteUsed(s: Pool, x: nat) {
    exists p :: p in s.carved && p <= x < p + Stride(s.carved[p])
  }

  /** The first `u` bytes of buffer `i` belong to carved blocks. */
  ghost predicate UsedUpTo(s: Pool, i: nat, u: nat) {
    && i < |s.buffers| && u <= s.buffers[i].1
    && forall x :: s.buffers[i].0 <= x < s.buffers[i].0 + u ==> ByteUsed(s, x)
  }

  /** What follows the first `u` bytes of buffer `i` is the uncarved tail of arena `a`. */
  ghost predicate TailOf(s: Pool, i: nat, u: nat, a: nat) {
    && i < |s.buffers| && a < |s.arenas| && u <= s.buffers[i].1 && s.buffers[i].1 == BufferSize(ClassOf(a))
    && s.arenas[a].buffer == s.buffers[i].0 + u && s.arenas[a].left == s.buffers[i].1 - u
  }

  /** What follows is too short for one more block of the buffer's class. */
  ghost predicate TooShort(s: Pool, i: nat, u: nat, a: nat) {
    && i < |s.buffers| && a < |s.arenas| && u <= s.buffers[i].1 && s.buffers[i].1 == BufferSize(ClassOf(a))
    && s.buffers[i].1 - u < Stride(ClassOf(a))
  }

  ghost predicate WellUsed(s: Pool, i: nat) {
    exists u: nat, a: nat :: UsedUpTo(s, i, u) && (TailOf(s, i, u, a) || TooShort(s, i, u, a))
  }

  ghost predicate NothingWasted(s: Pool) {
    forall i :: 0 <= i < |s.buffers| ==> WellUsed(s, i)
  }

  lemma {:induction false} UsedKept(s: Pool, s': Pool, i: nat, u: nat)
    requires UsedUpTo(s, i, u) && s.buffers <= s'.buffers
    requires forall p :: p in s.carved ==> p in s'.carved && s'.carved[p] == s.carved[p]
    ensures UsedUpTo(s', i, u)
  {
    hide Stride;
    assert s'.buffers[i] == s.buffers[i];
    forall x | s.buffers[i].0 <= x < s.buffers[i].0 + u ensures ByteUsed(s', x) {
      assert ByteUsed(s, x);
    }
  }

  /** A block right behind the used bytes makes them longer. */
  lemma {:induction false} UsedGrows(s: Pool, i: nat, u: nat)
    requires UsedUpTo(s, i, u) && s.buffers[i].0 + u in s.carved
    requires u + Stride(s.carved[s.buffers[i].0 + u]) <= s.buffers[i].1
    ensures UsedUpTo(s, i, u + Stride(s.carved[s.buffers[i].0 + u]))
  {
    hide Stride;
    var b: nat := s.buffers[i].0 + u;
    forall x | s.buffers[i].0 <= x < b + Stride(s.carved[b]) ensures ByteUsed(s, x) {}
  }

  /** Taking and giving blocks move no memory. */
  lemma {:induction false} UseKept(s: Pool, s': Pool)
    requires NothingWasted(s) && s'.buffers == s.buffers && s'.carved == s.carved && |s'.arenas| == |s.arenas|
    requires forall a :: 0 <= a < |s.arenas| ==>
               s'.arenas[a].buffer == s.arenas[a].buffer && s'.arenas[a].left == s.arenas[a].left
    ensures NothingWasted(s')
  {
    hide UsedUpTo;
    forall i | 0 <= i < |s'.buffers| ensures WellUsed(s', i) {
      assert WellUsed(s, i);
      var u: nat, a: nat :| UsedUpTo(s, i, u) && (TailOf(s, i, u, a) || TooShort(s, i, u, a));
      UsedKept(s, s', i, u);
      assert TailOf(s', i, u, a) || TooShort(s', i, u, a);
    }
  }

  lemma {:induction false} CarveUse(s: Pool, a: nat, base: nat)
    requires Inv(s) && NothingWasted(s) && CanCarve(s, a, base)
    ensures NothingWasted(Carve(s, a, base).0)
  {
    var (s', b) := Carve(s, a, base);
    CarveInv(s, a, base);
    hide Inv;
    forall i | 0 <= i < |s'.buffers| ensures WellUsed(s', i) {
      if i < |s.buffers| {
        OldBuffer(s, a, base, i);
      } else {
        NewBuffer(s, a, base);
      }
    }
  }

  lemma {:induction false} OldBuffer(s: Pool, a: nat, base: nat, i: nat)
    requires |s.arenas| == |s.lists| && a < |s.arenas| && Carve(s, a, base).1 !in s.carved
    requires i < |s.buffers| && WellUsed(s, i)
    ensures WellUsed(Carve(s, a, base).0, i)
  {
    var (s', b) := Carve(s, a, base);
    Fits(a);
    var u: nat, c: nat :| UsedUpTo(s, i, u) && (TailOf(s, i, u, c) || TooShort(s, i, u, c));
    UsedKept(s, s', i, u);
    hide UsedUpTo, Stride;
    if TailOf(s, i, u, c) && c == a {
      if s.arenas[a].left < Stride(ClassOf(a)) {
        assert TooShort(s', i, u, a);
      } else {
        UsedGrows(s', i, u);
        assert TailOf(s', i, u + Stride(ClassOf(a)), a);
      }
    } else {
      assert TailOf(s', i, u, c) || TooShort(s', i, u, c);
    }
  }

  lemma {:induction false} NewBuffer(s: Pool, a: nat, base: nat)
    requires |s.arenas| == |s.lists| && a < |s.arenas| && s.arenas[a].left < Stride(ClassOf(a))
    ensures WellUsed(Carve(s, a, base).0, |s.buffers|)
  {
    var s' := Carve(s, a, base).0;
    var i := |s.buffers|;
    Fits(a);
    assert UsedUpTo(s', i, 0);
    UsedGrows(s', i, 0);
    hide UsedUpTo, Stride;
    assert TailOf(s', i, Stride(ClassOf(a)), a);
  }

  lemma {:induction false} CallUse(s: Pool, c: Call)
    requires Inv(s) && NothingWasted(s) && Allowed(s, c)
    ensures NothingWasted(After(s, c))
  {
    hide Inv, NothingWasted;
    match c
    case Alloc(a, base) =>
      if s.arenas[a].head.None? {
        CarveUse(s, a, base);
      } else if s.lists[a] != [] && s.arenas[a].head.value in s.headers {
        UseKept(s, Take(s, a).0);
      }
    case Free(a, b) => UseKept(s, Give(s, a, b));
  }

  lemma {:induction false} RunUse(s: Pool, calls: seq<Call>, s': Pool)
    requires Inv(s) && NothingWasted(s) && Runs(s, calls, s')
    ensures NothingWasted(s')
    decreases |calls|
  {
    hide Inv, Allowed, After, NothingWasted;
    if calls != [] {
      CallInv(s, calls[0]);
      CallUse(s, calls[0]);
      RunUse(After(s, calls[0]), calls[1..], s');
    }
  }

  /** In every run, each buffer is cut into blocks from its start; what is left at its end is
      the tail some arena is still carving, or too short for another block. */
  lemma {:induction false} BuffersAreUsedUp(threads: nat, calls: seq<Call>, s: Pool)
    requires Runs(Init(threads), calls, s)
    ensures NothingWasted(s)
  {
    InitInv(threads);
    hide Inv, Runs;
    RunUse(Init(threads), calls, s);
  }

  /** What a free undoes: in every run, after a free the next allocation in that arena hands
      out the same block, and live blocks, free lists and buffers are as before. */
  lemma {:induction false} AllocUndoesFree(threads: nat, calls: seq<Call>, s: Pool, a: nat, b: nat, base: nat)
    requires Runs(Init(threads), calls, s) && Allowed(s, Free(a, b))
    ensures var s1 := After(s, Free(a, b));
            && Allowed(s1, Alloc(a, base))
            && var s2 := After(s1, Alloc(a, base));
               && s2.live == s.live && s2.lists == s.lists && s2.carved == s.carved && s2.buffers == s.buffers
               && s2.arenas == s.arenas
  {
    hide Inv, Runs, Geometry;
    InitInv(threads);
    RunInv(Init(threads), calls, s);
    var s1 := After(s, Free(a, b));
    assert s1.lists[a] == [b] + s.lists[a] && s1.lists[a][1..] == s.lists[a];
    var s2 := After(s1, Alloc(a, base));
    assert s2.arenas[a] == s.arenas[a];
  }
}
