/** The thread-local arena allocator: size classes, bump allocation from buffers, and free
    lists threaded through the block headers.

    Addresses are naturals.  A block starts with a 16-byte header (`FreeBlock`) and is
    followed by its payload. */
module ArenaPool {

  const SIZE_NUM: nat := 4
  const HEADER: nat := 16
  const BLOCKS_PER_BUFFER: nat := 40960

  function BlockSize(id: nat): (size: nat)
    requires id < SIZE_NUM
  {
    [32, 64, 256, 1024][id]
  }

  datatype Option<+T> = None | Some(value: T)

  datatype FreeBlock = FreeBlock(size: nat, next: Option<nat>)

  /** One `Arena`: where its uncarved buffer starts, how much of it is left, its free list. */
  datatype Arena = Arena(buffer: nat, left: nat, head: Option<nat>)

  /** All arenas (`SIZE_NUM` per thread) and the block headers in memory.  Auxiliary:
      `buffers` the ranges obtained from malloc, `carved` the size class of every block cut
      from them, `lists` the free lists, `live` the blocks handed out. */
  datatype Pool = Pool(
    arenas: seq<Arena>,
    headers: map<nat, FreeBlock>,
    buffers: seq<(nat, nat)>,
    carved: map<nat, nat>,
    lists: seq<seq<nat>>,
    live: set<nat>)

  /** The distance between neighbouring blocks: the least multiple of 8 that holds header and
      block. */
  function Stride(size: nat): (n: nat)
    ensures n % 8 == 0 && size + HEADER <= n < size + HEADER + 8
  {
    (size + HEADER + 7) / 8 * 8
  }

  function BufferSize(size: nat): nat {
    size * BLOCKS_PER_BUFFER
  }

  predicate Apart(p: nat, n: nat, q: nat, m: nat) {
    p + n <= q || q + m <= p || n == 0 || m == 0
  }

  function ClassOf(a: nat): nat {
    BlockSize(a % SIZE_NUM)
  }

  // ----- the operations -----

  /** May `malloc` return `base` for a buffer of `size` bytes?  It never overlaps what it
      returned before. */
  predicate FreshBuffer(s: Pool, base: nat, size: nat) {
    forall i :: 0 <= i < |s.buffers| ==> Apart(base, size, s.buffers[i].0, s.buffers[i].1)
  }

  /** `Arena::alloc` when the free list is empty: carve from the buffer, after getting a new
      one at `base` if what is left is too small. */
  function Carve(s: Pool, a: nat, base: nat): (Pool, nat)
    requires a < |s.arenas| == |s.lists|
  {
    var size := ClassOf(a);
    var stride := Stride(size);
    var grown := s.arenas[a].left < stride;
    var start := if grown then base else s.arenas[a].buffer;
    var left := if grown then BufferSize(size) else s.arenas[a].left;
    (Pool(s.arenas[a := Arena(start + stride, if stride <= left then left - stride else 0, None)],
          s.headers[start := FreeBlock(size, None)],
          if grown then s.buffers + [(base, BufferSize(size))] else s.buffers,
          s.carved[start := size],
          s.lists,
          s.live + {start}), start)
  }

  /** `Arena::alloc` when there is a free block: take the head of the list. */
  function Take(s: Pool, a: nat): (Pool, nat)
    requires a < |s.arenas| == |s.lists| && s.arenas[a].head.Some? && s.lists[a] != []
    requires s.arenas[a].head.value in s.headers
  {
    var b := s.arenas[a].head.value;
    (s.(arenas := s.arenas[a := s.arenas[a].(head := s.headers[b].next)],
        lists := s.lists[a := s.lists[a][1..]],
        live := s.live + {b}), b)
  }

  /** `Arena::free`: push the block on the list of arena `a`. */
  function Give(s: Pool, a: nat, b: nat): Pool
    requires a < |s.arenas| == |s.lists| && b in s.headers
  {
    s.(arenas := s.arenas[a := s.arenas[a].(head := Some(b))],
       headers := s.headers[b := s.headers[b].(next := s.arenas[a].head)],
       lists := s.lists[a := [b] + s.lists[a]],
       live := s.live - {b})
  }

  // ----- the invariant -----

  ghost predicate Inside(s: Pool, p: nat, n: nat) {
    exists i :: 0 <= i < |s.buffers| && s.buffers[i].0 <= p && p + n <= s.buffers[i].0 + s.buffers[i].1
  }

  /** Every carved block lies in a buffer, has a known class, and its header says so. */
  ghost predicate BlockOk(s: Pool, p: nat)
    requires p in s.carved
  {
    && s.carved[p] > 0 && (exists id :: 0 <= id < SIZE_NUM && s.carved[p] == BlockSize(id))
    && Inside(s, p, Stride(s.carved[p]))
    && p in s.headers && s.headers[p].size == s.carved[p]
  }

  ghost predicate BlocksApart(s: Pool) {
    forall p, q :: p in s.carved && q in s.carved && p != q ==>
      Apart(p, Stride(s.carved[p]), q, Stride(s.carved[q]))
  }

  /** The uncarved rest of an arena's buffer. */
  ghost predicate TailOk(s: Pool, a: nat)
    requires a < |s.arenas|
  {
    var t := s.arenas[a];
    && (t.left > 0 ==> Inside(s, t.buffer, t.left))
    && forall p :: p in s.carved ==> Apart(t.buffer, t.left, p, Stride(s.carved[p]))
  }

  ghost predicate TailsApart(s: Pool) {
    forall a, b :: 0 <= a < b < |s.arenas| ==>
      Apart(s.arenas[a].buffer, s.arenas[a].left, s.arenas[b].buffer, s.arenas[b].left)
  }

  /** `list` is what following the headers from `head` visits. */
  ghost predicate Threaded(headers: map<nat, FreeBlock>, head: Option<nat>, list: seq<nat>) {
    && head == (if list == [] then None else Some(list[0]))
    && (forall i :: 0 <= i < |list| ==> list[i] in headers)
    && (forall i {:trigger headers[list[i]]} :: 0 <= i < |list| ==>
          headers[list[i]].next == if i + 1 < |list| then Some(list[i + 1]) else None)
  }

  /** A free list holds carved blocks of the arena's own class, none of them live. */
  ghost predicate ListOk(s: Pool, a: nat)
    requires a < |s.arenas| == |s.lists|
  {
    && Threaded(s.headers, s.arenas[a].head, s.lists[a])
    && forall i :: 0 <= i < |s.lists[a]| ==>
         s.lists[a][i] in s.carved && s.carved[s.lists[a][i]] == ClassOf(a) && s.lists[a][i] !in s.live
  }

  /** No block is in two places of the free lists. */
  ghost predicate ListsDistinct(s: Pool) {
    forall a, i, b, j ::
      (&& 0 <= a < |s.lists| && 0 <= i < |s.lists[a]| && 0 <= b < |s.lists| && 0 <= j < |s.lists[b]|
       && (a != b || i != j)) ==> s.lists[a][i] != s.lists[b][j]
  }

  ghost predicate InSomeList(s: Pool, p: nat) {
    exists a, i :: 0 <= a < |s.lists| && 0 <= i < |s.lists[a]| && s.lists[a][i] == p
  }

  /** Live and free blocks together are all the carved blocks. */
  ghost predicate Partition(s: Pool) {
    && s.live <= s.carved.Keys
    && forall p :: p in s.carved ==> p in s.live || InSomeList(s, p)
  }

  /** Where blocks and buffer tails lie. */
  ghost predicate Geometry(s: Pool) {
    && (forall p :: p in s.carved ==> BlockOk(s, p))
    && BlocksApart(s)
    && (forall a :: 0 <= a < |s.arenas| ==> TailOk(s, a))
    && TailsApart(s)
  }

  ghost predicate FreeLists(s: Pool) {
    && |s.arenas| == |s.lists|
    && (forall a :: 0 <= a < |s.arenas| ==> ListOk(s, a))
    && ListsDistinct(s)
    && Partition(s)
  }

  ghost predicate Inv(s: Pool) {
    Geometry(s) && FreeLists(s)
  }

  /** `mem_alloc::init_thread_arena`. */
  function Init(threads: nat): Pool {
    Pool(seq(threads * SIZE_NUM, _ => Arena(0, 0, None)), map[], [], map[], seq(threads * SIZE_NUM, _ => []), {})
  }

  lemma {:induction false} InitInv(threads: nat)
    ensures Inv(Init(threads))
  {}

  lemma {:induction false} SameBuffers(s: Pool, s': Pool, p: nat, n: nat)
    requires s.buffers <= s'.buffers && Inside(s, p, n)
    ensures Inside(s', p, n)
  {
    var i :| 0 <= i < |s.buffers| && s.buffers[i].0 <= p && p + n <= s.buffers[i].0 + s.buffers[i].1;
    assert s'.buffers[i] == s.buffers[i];
  }

  /** Moving blocks between the free lists and the clients moves no memory. */
  lemma {:induction false} GeometryKept(s: Pool, s': Pool)
    requires Geometry(s) && |s.arenas| == |s'.arenas| && s'.buffers == s.buffers && s'.carved == s.carved
    requires forall a :: 0 <= a < |s.arenas| ==>
               s'.arenas[a].buffer == s.arenas[a].buffer && s'.arenas[a].left == s.arenas[a].left
    requires forall p :: p in s.headers ==> p in s'.headers && s'.headers[p].size == s.headers[p].size
    ensures Geometry(s')
  {
    forall p | p in s'.carved ensures BlockOk(s', p) {
      assert BlockOk(s, p);
      SameBuffers(s, s', p, Stride(s.carved[p]));
    }
    forall a | 0 <= a < |s'.arenas| ensures TailOk(s', a) {
      assert TailOk(s, a);
      if s.arenas[a].left > 0 {
        SameBuffers(s, s', s.arenas[a].buffer, s.arenas[a].left);
      }
    }
  }

  // ----- taking a free block -----

  lemma {:induction false} TakeEnabled(s: Pool, a: nat)
    requires FreeLists(s) && a < |s.arenas| && s.arenas[a].head.Some?
    ensures s.lists[a] != [] && s.arenas[a].head.value in s.headers
    ensures
      var b := Take(s, a).1;
      b == s.lists[a][0] && b in s.carved && b !in s.live && s.carved[b] == ClassOf(a)
  {
    assert ListOk(s, a);
    assert s.lists[a][0] == s.arenas[a].head.value;
  }

  lemma {:induction false} TakeLists(s: Pool, a: nat)
    requires FreeLists(s) && a < |s.arenas| && s.arenas[a].head.Some? && s.lists[a] != [] && s.arenas[a].head.value in s.headers
    ensures forall c :: 0 <= c < |s.arenas| ==> ListOk(Take(s, a).0, c)
    ensures ListsDistinct(Take(s, a).0)
  {
    var (s', b) := Take(s, a);
    TakeEnabled(s, a);
    forall c | 0 <= c < |s'.arenas| ensures ListOk(s', c) {
      assert ListOk(s, c);
      if c == a {
        ThreadedTail(s.headers, s.arenas[a].head, s.lists[a]);
      }
      forall i | 0 <= i < |s'.lists[c]| ensures s'.lists[c][i] != b {
        assert s'.lists[c][i] == s.lists[c][if c == a then i + 1 else i];
      }
    }
    forall c, i, d, j | && 0 <= c < |s'.lists| && 0 <= i < |s'.lists[c]| && 0 <= d < |s'.lists| && 0 <= j < |s'.lists[d]|
                        && (c != d || i != j)
      ensures s'.lists[c][i] != s'.lists[d][j]
    {
      assert s'.lists[c][i] == s.lists[c][if c == a then i + 1 else i];
      assert s'.lists[d][j] == s.lists[d][if d == a then j + 1 else j];
    }
  }

  lemma {:induction false} ThreadedTail(headers: map<nat, FreeBlock>, head: Option<nat>, list: seq<nat>)
    requires Threaded(headers, head, list) && list != []
    ensures Threaded(headers, headers[list[0]].next, list[1..])
  {}

  lemma {:induction false} TakePartition(s: Pool, a: nat)
    requires FreeLists(s) && a < |s.arenas| && s.arenas[a].head.Some? && s.lists[a] != [] && s.arenas[a].head.value in s.headers
    ensures Partition(Take(s, a).0)
  {
    var (s', b) := Take(s, a);
    TakeEnabled(s, a);
    hide ListsDistinct, ListOk;
    forall p | p in s'.carved ensures p in s'.live || InSomeList(s', p) {
      if p !in s.live && p != b {
        assert InSomeList(s, p);
        var c, i :| 0 <= c < |s.lists| && 0 <= i < |s.lists[c]| && s.lists[c][i] == p;
        assert s'.lists[c][if c == a then i - 1 else i] == p;
      }
    }
  }

  lemma {:induction false} TakeInv(s: Pool, a: nat)
    requires Inv(s) && a < |s.arenas| && s.arenas[a].head.Some?
    ensures s.lists[a] != [] && s.arenas[a].head.value in s.headers && Inv(Take(s, a).0)
  {
    TakeEnabled(s, a);
    TakeLists(s, a);
    TakePartition(s, a);
    hide Geometry, ListOk, ListsDistinct, Partition;
    GeometryKept(s, Take(s, a).0);
  }

  // ----- giving a block back -----

  lemma {:induction false} GiveLists(s: Pool, a: nat, b: nat)
    requires FreeLists(s) && a < |s.arenas| && b in s.live && b in s.headers && s.carved[b] == ClassOf(a)
    ensures forall c :: 0 <= c < |s.arenas| ==> ListOk(Give(s, a, b), c)
    ensures ListsDistinct(Give(s, a, b))
  {
    GiveDistinct(s, a, b);
    hide ListsDistinct;
    var s' := Give(s, a, b);
    forall c | 0 <= c < |s.arenas| ensures ListOk(s', c) {
      assert ListOk(s, c);
      ThreadedElsewhere(s.headers, s.arenas[c].head, s.lists[c], b, s'.headers[b]);
      if c == a {
        ThreadedPush(s'.headers, s.arenas[a].head, s.lists[a], b);
      }
    }
  }

  lemma {:induction false} GiveDistinct(s: Pool, a: nat, b: nat)
    requires FreeLists(s) && a < |s.arenas| && b in s.live && b in s.headers && s.carved[b] == ClassOf(a)
    ensures ListsDistinct(Give(s, a, b))
  {
    var s' := Give(s, a, b);
    forall c, i | 0 <= c < |s.lists| && 0 <= i < |s.lists[c]| ensures s.lists[c][i] != b {
      assert ListOk(s, c);
    }
    hide ListOk, Partition;
    forall c, i, d, j | && 0 <= c < |s'.lists| && 0 <= i < |s'.lists[c]| && 0 <= d < |s'.lists| && 0 <= j < |s'.lists[d]|
                        && (c != d || i != j)
      ensures s'.lists[c][i] != s'.lists[d][j]
    {
      if !(c == a && i == 0) {
        assert s'.lists[c][i] == s.lists[c][if c == a then i - 1 else i];
      }
      if !(d == a && j == 0) {
        assert s'.lists[d][j] == s.lists[d][if d == a then j - 1 else j];
      }
    }
  }

  lemma {:induction false} ThreadedElsewhere(headers: map<nat, FreeBlock>, head: Option<nat>, list: seq<nat>, b: nat, f: FreeBlock)
    requires Threaded(headers, head, list) && b !in list
    ensures Threaded(headers[b := f], head, list)
  {}

  lemma {:induction false} ThreadedPush(headers: map<nat, FreeBlock>, head: Option<nat>, list: seq<nat>, b: nat)
    requires Threaded(headers, head, list) && b in headers && headers[b].next == head
    ensures Threaded(headers, Some(b), [b] + list)
  {}

  lemma {:induction false} GivePartition(s: Pool, a: nat, b: nat)
    requires FreeLists(s) && a < |s.arenas| && b in s.live && b in s.headers
    ensures Partition(Give(s, a, b))
  {
    var s' := Give(s, a, b);
    hide ListsDistinct, ListOk;
    forall p | p in s'.carved ensures p in s'.live || InSomeList(s', p) {
      if p == b {
        assert s'.lists[a][0] == p;
      } else if p !in s.live {
        assert InSomeList(s, p);
        var c, i :| 0 <= c < |s.lists| && 0 <= i < |s.lists[c]| && s.lists[c][i] == p;
        assert s'.lists[c][if c == a then i + 1 else i] == p;
      }
    }
  }

  /** A live block of arena class `ClassOf(a)` may be given to arena `a`, whoever owned it. */
  lemma {:induction false} GiveInv(s: Pool, a: nat, b: nat)
    requires Inv(s) && a < |s.arenas| && b in s.live && s.carved[b] == ClassOf(a)
    ensures b in s.headers && Inv(Give(s, a, b))
  {
    assert BlockOk(s, b);
    GiveLists(s, a, b);
    GivePartition(s, a, b);
    hide Geometry, ListOk, ListsDistinct, Partition;
    GeometryKept(s, Give(s, a, b));
  }

  // ----- carving a new block -----

  lemma {:induction false} Fits(a: nat)
    ensures 0 < ClassOf(a) && ClassOf(a) + HEADER <= Stride(ClassOf(a)) <= BufferSize(ClassOf(a))
  {
    assert BlockSize(0) == 32 && BlockSize(1) == 64 && BlockSize(2) == 256 && BlockSize(3) == 1024;
    assert a % SIZE_NUM == 0 || a % SIZE_NUM == 1 || a % SIZE_NUM == 2 || a % SIZE_NUM == 3;
  }

  function RegionStart(s: Pool, a: nat, base: nat): nat
    requires a < |s.arenas|
  {
    if s.arenas[a].left < Stride(ClassOf(a)) then base else s.arenas[a].buffer
  }

  function RegionLeft(s: Pool, a: nat): nat
    requires a < |s.arenas|
  {
    if s.arenas[a].left < Stride(ClassOf(a)) then BufferSize(ClassOf(a)) else s.arenas[a].left
  }

  ghost predicate CanCarve(s: Pool, a: nat, base: nat) {
    && a < |s.arenas| && s.arenas[a].head.None?
    && (s.arenas[a].left < Stride(ClassOf(a)) ==> FreshBuffer(s, base, BufferSize(ClassOf(a))))
  }

  /** What lies inside the buffers is apart from a fresh buffer. */
  lemma {:induction false} FreshApart(s: Pool, base: nat, size: nat, p: nat, n: nat)
    requires FreshBuffer(s, base, size) && Inside(s, p, n)
    ensures Apart(base, size, p, n)
  {
    var i :| 0 <= i < |s.buffers| && s.buffers[i].0 <= p && p + n <= s.buffers[i].0 + s.buffers[i].1;
    assert Apart(base, size, s.buffers[i].0, s.buffers[i].1);
  }

  /** The region a block is carved from is free of blocks and of other tails. */
  lemma {:induction false} RegionFree(s: Pool, a: nat, base: nat)
    requires Geometry(s) && |s.arenas| == |s.lists| && CanCarve(s, a, base)
    ensures forall p :: p in s.carved ==> Apart(RegionStart(s, a, base), RegionLeft(s, a), p, Stride(s.carved[p]))
    ensures forall c :: 0 <= c < |s.arenas| && c != a ==>
              Apart(RegionStart(s, a, base), RegionLeft(s, a), s.arenas[c].buffer, s.arenas[c].left)
    ensures Inside(Carve(s, a, base).0, RegionStart(s, a, base), RegionLeft(s, a))
  {
    var start, left := RegionStart(s, a, base), RegionLeft(s, a);
    var s' := Carve(s, a, base).0;
    assert TailOk(s, a);
    Fits(a);
    forall p | p in s.carved ensures Apart(start, left, p, Stride(s.carved[p])) {
      assert BlockOk(s, p);
      if s.arenas[a].left < Stride(ClassOf(a)) {
        FreshApart(s, base, left, p, Stride(s.carved[p]));
      }
    }
    forall c | 0 <= c < |s.arenas| && c != a ensures Apart(start, left, s.arenas[c].buffer, s.arenas[c].left) {
      assert TailOk(s, c);
      if s.arenas[a].left < Stride(ClassOf(a)) && s.arenas[c].left > 0 {
        FreshApart(s, base, left, s.arenas[c].buffer, s.arenas[c].left);
      }
    }
    if s.arenas[a].left < Stride(ClassOf(a)) {
      assert s'.buffers[|s.buffers|] == (base, left);
    } else {
      SameBuffers(s, s', start, left);
    }
  }

  lemma {:induction false} InsidePart(s: Pool, p: nat, n: nat, q: nat, m: nat)
    requires Inside(s, p, n) && p <= q && q + m <= p + n
    ensures Inside(s, q, m)
  {
    var i :| 0 <= i < |s.buffers| && s.buffers[i].0 <= p && p + n <= s.buffers[i].0 + s.buffers[i].1;
    assert s.buffers[i].0 <= q;
  }

  lemma {:induction false} CarveBlocks(s: Pool, a: nat, base: nat)
    requires Geometry(s) && |s.arenas| == |s.lists| && CanCarve(s, a, base)
    ensures forall p :: p in Carve(s, a, base).0.carved ==> BlockOk(Carve(s, a, base).0, p)
    ensures BlocksApart(Carve(s, a, base).0) && Carve(s, a, base).1 !in s.carved
  {
    var (s', b) := Carve(s, a, base);
    Fits(a);
    RegionFree(s, a, base);
    InsidePart(s', RegionStart(s, a, base), RegionLeft(s, a), b, Stride(ClassOf(a)));
    assert b in s.carved ==> BlockOk(s, b);
    assert b !in s.carved;
    forall p | p in s'.carved ensures BlockOk(s', p) {
      if p == b {
        assert 0 <= a % SIZE_NUM < SIZE_NUM && s'.carved[p] == BlockSize(a % SIZE_NUM);
      } else {
        assert BlockOk(s, p);
        SameBuffers(s, s', p, Stride(s.carved[p]));
      }
    }
  }

  lemma {:induction false} CarveTails(s: Pool, a: nat, base: nat)
    requires Geometry(s) && |s.arenas| == |s.lists| && CanCarve(s, a, base)
    ensures forall c :: 0 <= c < |s.arenas| ==> TailOk(Carve(s, a, base).0, c)
    ensures TailsApart(Carve(s, a, base).0)
  {
    var (s', b) := Carve(s, a, base);
    Fits(a);
    RegionFree(s, a, base);
    hide BlockSize, Stride, BufferSize, BlocksApart;
    forall c | 0 <= c < |s.arenas| ensures TailOk(s', c) {
      assert TailOk(s, c);
      var t := s'.arenas[c];
      if t.left > 0 {
        if c == a {
          InsidePart(s', RegionStart(s, a, base), RegionLeft(s, a), t.buffer, t.left);
        } else {
          SameBuffers(s, s', t.buffer, t.left);
        }
      }
    }
  }

  lemma {:induction false} CarveLists(s: Pool, a: nat, base: nat)
    requires FreeLists(s) && CanCarve(s, a, base) && Carve(s, a, base).1 !in s.carved
    ensures FreeLists(Carve(s, a, base).0)
  {
    var (s', b) := Carve(s, a, base);
    forall c | 0 <= c < |s'.arenas| ensures ListOk(s', c) {
      assert ListOk(s, c);
      ThreadedElsewhere(s.headers, s.arenas[c].head, s.lists[c], b, s'.headers[b]);
    }
    assert ListsDistinct(s');
    forall p | p in s'.carved ensures p in s'.live || InSomeList(s', p) {
      if p != b && p !in s.live {
        assert InSomeList(s, p);
        var c, i :| 0 <= c < |s.lists| && 0 <= i < |s.lists[c]| && s.lists[c][i] == p;
        assert s'.lists[c][i] == p;
      }
    }
  }

  lemma {:induction false} CarveInv(s: Pool, a: nat, base: nat)
    requires Inv(s) && CanCarve(s, a, base)
    ensures Inv(Carve(s, a, base).0) && Carve(s, a, base).1 !in s.carved
  {
    CarveBlocks(s, a, base);
    CarveTails(s, a, base);
    CarveLists(s, a, base);
  }

  // ----- every sequence of allocations and frees -----

  datatype Call = Alloc(arena: nat, base: nat) | Free(arena: nat, block: nat)

  /** A call a correct program and a correct malloc can make: free returns a live block, into
      the freeing thread's arena of the class that the block's header names. */
  ghost predicate Allowed(s: Pool, c: Call) {
    match c
    case Alloc(a, base) => a < |s.arenas| == |s.lists| && (s.arenas[a].head.None? ==> CanCarve(s, a, base))
    case Free(a, b) =>
      && a < |s.arenas| == |s.lists| && b in s.live && b in s.headers
      && s.headers[b].size == ClassOf(a)
  }

  /** The pool after a call.  A head that is no block (the invariant rules it out) would
      leave the pool as it is. */
  ghost function After(s: Pool, c: Call): Pool
    requires Allowed(s, c)
  {
    match c
    case Alloc(a, base) =>
      if s.arenas[a].head.None? then Carve(s, a, base).0
      else if s.lists[a] != [] && s.arenas[a].head.value in s.headers then Take(s, a).0
      else s
    case Free(a, b) => Give(s, a, b)
  }

  lemma {:induction false} CallInv(s: Pool, c: Call)
    requires Inv(s) && Allowed(s, c)
    ensures Inv(After(s, c))
  {
    match c
    case Alloc(a, base) =>
      if s.arenas[a].head.None? {
        CarveInv(s, a, base);
      } else {
        TakeInv(s, a);
      }
    case Free(a, b) =>
      assert BlockOk(s, b);
      GiveInv(s, a, b);
  }

  ghost predicate Runs(s: Pool, calls: seq<Call>, s': Pool)
    decreases |calls|
  {
    if calls == [] then s == s'
    else Allowed(s, calls[0]) && Runs(After(s, calls[0]), calls[1..], s')
  }

  lemma {:induction false} RunInv(s: Pool, calls: seq<Call>, s': Pool)
    requires Inv(s) && Runs(s, calls, s')
    ensures Inv(s')
    decreases |calls|
  {
    hide Inv, Allowed, After;
    if calls != [] {
      CallInv(s, calls[0]);
      RunInv(After(s, calls[0]), calls[1..], s');
    }
  }

  /** After any calls by any threads: live payloads never overlap, each lies in a buffer and
      is as large as its class; live and free blocks partition the carved ones; and every
      free block waits in an arena of its own class. */
  lemma {:induction false} PoolNeverOverlaps(threads: nat, calls: seq<Call>, s: Pool)
    requires Runs(Init(threads), calls, s)
    ensures forall p, q :: p in s.live && q in s.live && p != q ==>
              p in s.carved && q in s.carved && Apart(p + HEADER, s.carved[p], q + HEADER, s.carved[q])
    ensures forall p :: p in s.live ==> p in s.carved && s.carved[p] > 0 && Inside(s, p + HEADER, s.carved[p])
    ensures forall p :: p in s.carved ==> (p in s.live <==> !InSomeList(s, p))
    ensures |s.arenas| == |s.lists| && forall a, i :: 0 <= a < |s.lists| && 0 <= i < |s.lists[a]| ==>
              s.lists[a][i] in s.carved && s.carved[s.lists[a][i]] == ClassOf(a)
  {
    InitInv(threads);
    hide Runs, Init;
    RunInv(Init(threads), calls, s);
    LivePayloads(s);
    ListedBlocks(s);
    hide Geometry, ListOk, ListsDistinct, Apart, Inside;
  }

  lemma {:induction false} ListedBlocks(s: Pool)
    requires FreeLists(s)
    ensures forall a, i :: 0 <= a < |s.lists| && 0 <= i < |s.lists[a]| ==>
              && s.lists[a][i] in s.carved && s.carved[s.lists[a][i]] == ClassOf(a)
              && s.lists[a][i] !in s.live
  {
    hide Partition, ListsDistinct;
    forall a, i | 0 <= a < |s.lists| && 0 <= i < |s.lists[a]|
      ensures s.lists[a][i] in s.carved && s.carved[s.lists[a][i]] == ClassOf(a) && s.lists[a][i] !in s.live
    {
      assert ListOk(s, a);
    }
  }

  lemma {:induction false} LivePayloads(s: Pool)
    requires Geometry(s) && s.live <= s.carved.Keys
    ensures forall p, q :: p in s.live && q in s.live && p != q ==>
              Apart(p + HEADER, s.carved[p], q + HEADER, s.carved[q])
    ensures forall p :: p in s.live ==> s.carved[p] > 0 && Inside(s, p + HEADER, s.carved[p])
  {
    forall p | p in s.live
      ensures p in s.carved && s.carved[p] > 0 && s.carved[p] + HEADER <= Stride(s.carved[p]) && Inside(s, p + HEADER, s.carved[p])
    {
      assert BlockOk(s, p);
      InsidePart(s, p, Stride(s.carved[p]), p + HEADER, s.carved[p]);
    }
    hide Stride;
    forall p, q | p in s.live && q in s.live && p != q
      ensures Apart(p + HEADER, s.carved[p], q + HEADER, s.carved[q])
    {
      assert Apart(p, Stride(s.carved[p]), q, Stride(s.carved[q]));
    }
  }
}
