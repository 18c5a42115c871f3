/** `mem_alloc`: the thread table (linear probing from thread id to arena id), the size
    classes, and allocation through the calling thread's arenas. */
module MemAlloc {
  import opened ArenaPool

  /** Position `home + k` in a table of `cnt` slots, going around the end. */
  function Probe(home: nat, k: nat, cnt: nat): nat
    requires home < cnt && k < cnt
  {
    if home + k < cnt then home + k else home + k - cnt
  }

  lemma {:induction false} ProbeNext(home: nat, k: nat, cnt: nat)
    requires home < cnt && k + 1 < cnt
    ensures (Probe(home, k, cnt) + 1) % cnt == Probe(home, k + 1, cnt)
  {
    var e := Probe(home, k, cnt) + 1;
    if e == cnt {
      assert e % cnt == 0;
    } else {
      assert e % cnt == e;
    }
  }

  lemma {:induction false} ProbeReaches(home: nat, e: nat, cnt: nat) returns (k: nat)
    requires home < cnt && e < cnt
    ensures k < cnt && Probe(home, k, cnt) == e
  {
    k := if home <= e then e - home else e + cnt - home;
  }

  datatype Slot = Slot(pid: nat, arena: nat)

  /** The slots of `table` that are in use. */
  ghost function Used(table: seq<Slot>): set<nat> {
    set e | 0 <= e < |table| && table[e].pid != 0
  }

  /** A registered id sits in a slot that probing from its home reaches over used slots. */
  ghost predicate Reached(table: seq<Slot>, pid: nat, k: nat)
    requires |table| > 0
  {
    && k < |table|
    && table[Probe(pid % |table|, k, |table|)].pid == pid
    && forall d :: 0 <= d < k ==> table[Probe(pid % |table|, d, |table|)].pid != 0
  }

  /** The table is the map `m`, with at least one slot to spare. */
  ghost predicate Refines(table: seq<Slot>, m: map<nat, nat>) {
    && |m| < |table| && |Used(table)| == |m| && 0 !in m
    && (forall e :: 0 <= e < |table| && table[e].pid != 0 ==> table[e].pid in m && table[e].arena == m[table[e].pid])
    && (forall e :: 0 <= e < |table| && table[e].pid == 0 ==> table[e].arena == 0)
    && (forall pid :: pid in m ==> exists k :: 0 <= k && Reached(table, pid, k))
  }

  lemma {:induction false} RangeCard(n: nat, s: set<nat>)
    requires forall e :: 0 <= e < n ==> e in s
    ensures |s| >= n
  {
    if n > 0 {
      RangeCard(n - 1, s - {n - 1});
    }
  }

  lemma {:induction false} SpareSlot(table: seq<Slot>, m: map<nat, nat>) returns (e: nat)
    requires Refines(table, m)
    ensures e < |table| && table[e].pid == 0
  {
    if forall i :: 0 <= i < |table| ==> table[i].pid != 0 {
      assert forall i :: 0 <= i < |table| ==> i in Used(table);
      RangeCard(|table|, Used(table));
      assert false;
    }
    e :| 0 <= e < |table| && table[e].pid == 0;
  }

  /** Meeting an empty slot before the id means the id is not registered. */
  lemma {:induction false} EmptyMeansAbsent(table: seq<Slot>, m: map<nat, nat>, pid: nat, k: nat)
    requires Refines(table, m) && pid != 0 && k < |table| && table[Probe(pid % |table|, k, |table|)].pid == 0
    requires forall d :: 0 <= d < k ==> table[Probe(pid % |table|, d, |table|)].pid != pid
    ensures pid !in m
  {
    assert forall j :: 0 <= j ==> !Reached(table, pid, j);
  }

  lemma {:induction false} EmptyIsZero(table: seq<Slot>, m: map<nat, nat>, e: nat)
    requires Refines(table, m) && e < |table| && table[e].pid == 0
    ensures table[e].arena == 0
  {}

  lemma {:induction false} MetMeansRegistered(table: seq<Slot>, m: map<nat, nat>, e: nat)
    requires Refines(table, m) && e < |table| && table[e].pid != 0
    ensures table[e].pid in m && table[e].arena == m[table[e].pid]
  {}

  /** Filling the first empty slot on the probe path registers the id. */
  lemma {:induction false} FillSlot(table: seq<Slot>, m: map<nat, nat>, pid: nat, arena: nat, k: nat)
    requires Refines(table, m) && pid != 0 && pid !in m && |m| + 1 < |table| && k < |table|
    requires table[Probe(pid % |table|, k, |table|)].pid == 0
    requires forall d :: 0 <= d < k ==> table[Probe(pid % |table|, d, |table|)].pid != 0
    ensures Refines(table[Probe(pid % |table|, k, |table|) := Slot(pid, arena)], m[pid := arena])
  {
    hide Reached;
    var e := Probe(pid % |table|, k, |table|);
    FillUsed(table, e, Slot(pid, arena));
    FilledReached(table, e, Slot(pid, arena), pid, k);
    hide Probe;
    var table' := table[e := Slot(pid, arena)];
    var m' := m[pid := arena];
    assert |m'| == |m| + 1;
    forall q | q in m' ensures exists j :: 0 <= j && Reached(table', q, j) {
      if q != pid {
        var j :| 0 <= j && Reached(table, q, j);
        ReachedKept(table, e, Slot(pid, arena), q, j);
      }
    }
  }

  lemma {:induction false} FillUsed(table: seq<Slot>, e: nat, slot: Slot)
    requires e < |table| && table[e].pid == 0 && slot.pid != 0
    ensures |Used(table[e := slot])| == |Used(table)| + 1
  {
    assert Used(table[e := slot]) == Used(table) + {e};
  }

  lemma {:induction false} FilledReached(table: seq<Slot>, e: nat, slot: Slot, pid: nat, k: nat)
    requires e < |table| && k < |table| && slot.pid == pid != 0 && e == Probe(pid % |table|, k, |table|)
    requires forall d :: 0 <= d < k ==> table[Probe(pid % |table|, d, |table|)].pid != 0
    ensures Reached(table[e := slot], pid, k)
  {}

  lemma {:induction false} ReachedKept(table: seq<Slot>, e: nat, slot: Slot, q: nat, j: nat)
    requires e < |table| && table[e].pid == 0 && slot.pid != 0 && q != 0 && Reached(table, q, j)
    ensures Reached(table[e := slot], q, j)
  {}

  /** Class `id` is the smallest that fits `size` bytes. */
  predicate Smallest(id: nat, size: nat)
    requires id < SIZE_NUM
  {
    size <= BlockSize(id) && forall j :: 0 <= j < id ==> BlockSize(j) < size
  }

  lemma {:induction false} SmallestUnique(size: nat, id: nat)
    requires id < SIZE_NUM && Smallest(id, size)
    ensures forall j :: 0 <= j < SIZE_NUM && Smallest(j, size) ==> j == id
  {}

  lemma {:induction false} SameClass(id: nat)
    requires id < SIZE_NUM
    ensures forall j :: 0 <= j < SIZE_NUM && BlockSize(j) == BlockSize(id) ==> j == id
  {
    assert BlockSize(0) == 32 && BlockSize(1) == 64 && BlockSize(2) == 256 && BlockSize(3) == 1024;
  }

  /** The buffers after carving for arena `a`: a new one only when too little is left. */
  function Obtained(s: Pool, a: nat, base: nat): seq<(nat, nat)>
    requires a < |s.arenas|
  {
    if s.arenas[a].left < Stride(ClassOf(a)) then s.buffers + [(base, BufferSize(ClassOf(a)))] else s.buffers
  }

  /** Block `b` was served from arena `a`: the block freed there last, or else a new one. */
  ghost predicate Served(s: Pool, s': Pool, a: nat, b: nat, base: nat) {
    && a < |s.arenas| == |s.lists| && b !in s.live && s'.live == s.live + {b}
    && if s.lists[a] != [] then
         && b == s.lists[a][0] && s'.lists == s.lists[a := s.lists[a][1..]]
         && s'.carved == s.carved && s'.buffers == s.buffers
       else
         && b !in s.carved && s'.carved == s.carved[b := ClassOf(a)]
         && s'.lists == s.lists && s'.buffers == Obtained(s, a, base)
  }

  /** Block `b` was given back to arena `a`. */
  ghost predicate Returned(s: Pool, s': Pool, a: nat, b: nat) {
    && a < |s.arenas| == |s.lists| && b in s.live && s'.live == s.live - {b}
    && s'.lists == s.lists[a := [b] + s.lists[a]] && s'.carved == s.carved && s'.buffers == s.buffers
  }

  /** A freed block is the next one served there, and then all is as before. */
  lemma {:induction false} FreedIsNextServed(s: Pool, s1: Pool, s2: Pool, a: nat, b: nat, c: nat, base: nat)
    requires Returned(s, s1, a, b) && Served(s1, s2, a, c, base)
    ensures c == b && s2.live == s.live && s2.lists == s.lists && s2.carved == s.carved && s2.buffers == s.buffers
  {
    assert ([b] + s.lists[a])[1..] == s.lists[a];
  }

  lemma {:induction false} EmptyList(s: Pool, a: nat)
    requires Inv(s) && a < |s.arenas|
    ensures |s.lists| == |s.arenas| && (s.arenas[a].head.None? <==> s.lists[a] == [])
    ensures s.lists[a] != [] ==> s.arenas[a].head == Some(s.lists[a][0])
  {
    hide Geometry, Partition, ListsDistinct;
    assert ListOk(s, a);
  }

  class Allocator {
    const table: array<Slot>
    ghost var threads: map<nat, nat>
    const arenaCnt: nat
    var pool: Pool

    ghost predicate Valid()
      reads this, table
    {
      && Refines(table[..], threads)
      && Inv(pool) && |pool.arenas| == arenaCnt * SIZE_NUM && arenaCnt > 0
      && (forall pid :: pid in threads ==> threads[pid] < arenaCnt)
    }

    /** `mem_alloc::init`: the table has four slots per thread and one more. */
    constructor (threadCnt: nat)
      requires threadCnt > 0
      ensures Valid() && threads == map[] && table.Length == threadCnt * 4 + 1 && arenaCnt == threadCnt
    {
      table := new Slot[threadCnt * 4 + 1](_ => Slot(0, 0));
      threads := map[];
      arenaCnt := threadCnt;
      pool := Init(threadCnt);
      new;
      InitInv(threadCnt);
      hide Inv;
      assert Used(table[..]) == {};
    }

    /** `mem_alloc::register_thread`. */
    method RegisterThread(pid: nat, thdId: nat)
      requires Valid() && pid != 0 && pid !in threads && thdId < arenaCnt
      requires |threads| + 1 < table.Length
      modifies this`threads, table
      ensures Valid() && threads == old(threads)[pid := thdId]
    {
      hide Inv, Refines;
      ghost var t := table[..];
      ghost var spare := SpareSlot(t, threads);
      ghost var far := ProbeReaches(pid % table.Length, spare, table.Length);
      var entry := pid % table.Length;
      ghost var k := 0;
      while table[entry].pid != 0
        invariant k <= far < table.Length && table[..] == t && threads == old(threads)
        invariant entry == Probe(pid % table.Length, k, table.Length)
        invariant forall d :: 0 <= d < k ==> t[Probe(pid % |t|, d, |t|)].pid != 0
        decreases far - k
      {
        ProbeNext(pid % table.Length, k, table.Length);
        entry := (entry + 1) % table.Length;
        k := k + 1;
      }
      FillSlot(t, threads, pid, thdId, k);
      table[entry] := Slot(pid, thdId);
      threads := threads[pid := thdId];
      assert table[..] == t[entry := Slot(pid, thdId)];
    }

    /** `mem_alloc::unregister` forgets every thread. */
    method Unregister()
      requires Valid()
      modifies this`threads, table
      ensures Valid() && threads == map[]
    {
      hide Inv;
      for i := 0 to table.Length
        invariant forall e :: 0 <= e < i ==> table[e] == Slot(0, 0)
        invariant table.Length > 0
      {
        table[i] := Slot(0, 0);
      }
      threads := map[];
      assert Used(table[..]) == {};
    }

    /** The arena of a thread; unknown threads share arena 0. */
    ghost function ArenaOf(pid: nat): nat
      reads this`threads
    {
      if pid in threads then threads[pid] else 0
    }

    /** `mem_alloc::get_arena_id`: the registered arena, or arena 0 for an unknown thread. */
    method GetArenaId(pid: nat) returns (arena: nat)
      requires Valid() && pid != 0
      ensures arena == ArenaOf(pid)
      ensures arena < arenaCnt
    {
      hide Inv, Refines;
      ghost var t := table[..];
      ghost var spare := SpareSlot(t, threads);
      ghost var far := ProbeReaches(pid % table.Length, spare, table.Length);
      var entry := pid % table.Length;
      ghost var k := 0;
      while table[entry].pid != pid
        invariant k <= far < table.Length
        invariant entry == Probe(pid % table.Length, k, table.Length)
        invariant forall d :: 0 <= d < k ==> t[Probe(pid % |t|, d, |t|)].pid != pid
        decreases far - k
      {
        if table[entry].pid == 0 {
          EmptyMeansAbsent(t, threads, pid, k);
          EmptyIsZero(t, threads, entry);
          break;
        }
        ProbeNext(pid % table.Length, k, table.Length);
        entry := (entry + 1) % table.Length;
        k := k + 1;
      }
      arena := table[entry].arena;
      if table[entry].pid == pid {
        MetMeansRegistered(t, threads, entry);
      }
    }

    /** `mem_alloc::get_size_id`: the smallest class that fits. */
    method GetSizeId(size: nat) returns (id: nat)
      requires size <= BlockSize(SIZE_NUM - 1)
      ensures id < SIZE_NUM && Smallest(id, size)
    {
      for i := 0 to SIZE_NUM
        invariant forall j :: 0 <= j < i ==> BlockSize(j) < size
      {
        if size <= BlockSize(i) {
          return i;
        }
      }
      assert false;
    }

    /** `mem_alloc::alloc` with the pool switched on.  `base` is where malloc would put a new
        buffer.  None: too large for the pool, served by malloc itself. */
    method Alloc(pid: nat, size: nat, base: nat) returns (ptr: Option<nat>)
      requires Valid() && pid != 0
      requires forall id :: 0 <= id < SIZE_NUM && Smallest(id, size) ==> FreshBuffer(pool, base, BufferSize(BlockSize(id)))
      modifies this`pool
      ensures Valid()
      ensures size > 1024 <==> ptr.None?
      ensures ptr.None? ==> pool == old(pool)
      ensures ptr.Some? ==>
                && ptr.value >= HEADER
                && var b := ptr.value - HEADER;
                   && b !in old(pool.live) && pool.live == old(pool.live) + {b}
                   && b in pool.carved && size <= pool.carved[b]
                   && forall id :: 0 <= id < SIZE_NUM && Smallest(id, size) ==>
                        Served(old(pool), pool, ArenaOf(pid) * SIZE_NUM + id, b, base)
    {
      hide Refines, Geometry, FreeLists, Served;
      if size > BlockSize(SIZE_NUM - 1) {
        return None;
      }
      var arenaId := GetArenaId(pid);
      var sizeId := GetSizeId(size);
      var a := arenaId * SIZE_NUM + sizeId;
      ArenaIndex(arenaId, sizeId, arenaCnt);
      var b := ArenaAlloc(a, base);
      ptr := Some(b + HEADER);
      SmallestUnique(size, sizeId);
    }

    /** `Arena::alloc` of arena `a`. */
    method ArenaAlloc(a: nat, base: nat) returns (b: nat)
      requires Inv(pool) && a < |pool.arenas| && FreshBuffer(pool, base, BufferSize(ClassOf(a)))
      modifies this`pool
      ensures Inv(pool) && |pool.arenas| == |old(pool.arenas)|
      ensures b !in old(pool.live) && pool.live == old(pool.live) + {b}
      ensures b in pool.carved && pool.carved[b] == ClassOf(a)
      ensures Served(old(pool), pool, a, b, base)
    {
      EmptyList(pool, a);
      if pool.arenas[a].head == None {
        b := ArenaCarve(a, base);
      } else {
        TakeEnabled(pool, a);
        TakeInv(pool, a);
        hide Geometry, FreeLists;
        b := pool.arenas[a].head.value;
        pool := pool.(arenas := pool.arenas[a := pool.arenas[a].(head := pool.headers[b].next)],
                      lists := pool.lists[a := pool.lists[a][1..]], live := pool.live + {b});
      }
    }

    /** The branch of `Arena::alloc` that finds the free list empty. */
    method ArenaCarve(a: nat, base: nat) returns (b: nat)
      requires Inv(pool) && CanCarve(pool, a, base)
      modifies this`pool
      ensures Inv(pool) && |pool.arenas| == |old(pool.arenas)|
      ensures b !in old(pool.live) && pool.live == old(pool.live) + {b}
      ensures b in pool.carved && pool.carved[b] == ClassOf(a) && b !in old(pool.carved)
      ensures pool.lists == old(pool.lists) && pool.carved == old(pool.carved)[b := ClassOf(a)]
      ensures pool.buffers == Obtained(old(pool), a, base)
    {
      CarvedLive(pool);
      CarveInv(pool, a, base);
      hide Geometry, FreeLists;
      var size := Stride(ClassOf(a));
      var arena := pool.arenas[a];
      ghost var spec := Carve(pool, a, base);
      var buffers := pool.buffers;
      if arena.left < size {
        arena := arena.(buffer := base, left := BufferSize(ClassOf(a)));
        buffers := buffers + [(base, BufferSize(ClassOf(a)))];
      }
      Fits(a);
      b := arena.buffer;
      pool := pool.(headers := pool.headers[b := FreeBlock(ClassOf(a), None)],
                    arenas := pool.arenas[a := arena.(left := arena.left - size, buffer := arena.buffer + size)],
                    buffers := buffers, carved := pool.carved[b := ClassOf(a)], live := pool.live + {b});
      assert pool == spec.0;
    }

    /** `mem_alloc::free`: the header names the class; the freeing thread's arena takes it. */
    method Free(pid: nat, ptr: nat)
      requires Valid() && pid != 0 && ptr >= HEADER && ptr - HEADER in pool.live
      modifies this`pool
      ensures Valid() && pool.live == old(pool.live) - {ptr - HEADER} && pool.carved == old(pool.carved)
      ensures ptr - HEADER in old(pool.carved)
      ensures forall id :: 0 <= id < SIZE_NUM && BlockSize(id) == old(pool.carved)[ptr - HEADER] ==>
                Returned(old(pool), pool, ArenaOf(pid) * SIZE_NUM + id, ptr - HEADER)
    {
      hide Refines;
      var b := ptr - HEADER;
      LiveHeader(pool, b);
      hide Geometry, FreeLists;
      var arenaId := GetArenaId(pid);
      var sizeId := GetSizeId(pool.headers[b].size);
      var a := arenaId * SIZE_NUM + sizeId;
      ArenaIndex(arenaId, sizeId, arenaCnt);
      ExactClass(pool.headers[b].size, sizeId);
      GiveInv(pool, a, b);
      SameClass(sizeId);
      pool := Give(pool, a, b);
    }
  }

  lemma {:induction false} CarvedLive(s: Pool)
    requires Inv(s)
    ensures s.live <= s.carved.Keys
  {}

  lemma {:induction false} ArenaIndex(arenaId: nat, sizeId: nat, arenaCnt: nat)
    requires arenaId < arenaCnt && sizeId < SIZE_NUM
    ensures arenaId * SIZE_NUM + sizeId < arenaCnt * SIZE_NUM
    ensures ClassOf(arenaId * SIZE_NUM + sizeId) == BlockSize(sizeId)
  {
    assert (arenaId * SIZE_NUM + sizeId) % SIZE_NUM == sizeId;
  }

  lemma {:induction false} LiveHeader(s: Pool, b: nat)
    requires Inv(s) && b in s.live
    ensures b in s.headers && b in s.carved && s.headers[b].size == s.carved[b]
    ensures s.carved[b] <= BlockSize(SIZE_NUM - 1) && exists id :: 0 <= id < SIZE_NUM && s.carved[b] == BlockSize(id)
  {
    assert BlockOk(s, b);
    assert BlockSize(0) == 32 && BlockSize(1) == 64 && BlockSize(2) == 256 && BlockSize(3) == 1024;
  }

  /** The smallest class that fits a class size is that class. */
  lemma {:induction false} ExactClass(size: nat, id: nat)
    requires id < SIZE_NUM && Smallest(id, size)
    requires exists i :: 0 <= i < SIZE_NUM && size == BlockSize(i)
    ensures size == BlockSize(id)
  {
    assert BlockSize(0) == 32 && BlockSize(1) == 64 && BlockSize(2) == 256 && BlockSize(3) == 1024;
  }
}
