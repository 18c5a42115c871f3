/** The chained hash index under concurrency: inserters hold the bucket's latch, readers
    hold nothing.

    Every shared-memory read of `index_read` is a step, and so is every shared-memory write
    of `index_insert`; an inserter's reads, which its latch protects, go with the next step.
    `events` is an auxiliary log: each operation adds its event at one of its own steps.
    `chains` records, per bucket, the nodes linked so far. */
module IndexConcurrent {

  type NodeId = nat
  type ItemId = nat
  type ThreadId = nat

  datatype Option<+T> = None | Some(value: T)

  datatype Node = Node(key: nat, next: Option<NodeId>, items: ItemId)

  /** An operation that took effect: an insert, or a lookup with what it returned. */
  datatype Event = Inserted(key: nat, item: ItemId) | LookedUp(key: nat, result: Option<ItemId>)

  /** Where a thread is.  `call` is the length of the log when the operation was called. */
  datatype Thread =
    | Idle
      // index_insert
    | WantLatch(key: nat, item: ItemId, call: nat)
    | InsertAt(key: nat, item: ItemId, call: nat, prev: Option<NodeId>, cur: Option<NodeId>)
    | Built(key: nat, item: ItemId, call: nat, prev: Option<NodeId>, node: NodeId)
    | Found(key: nat, item: ItemId, call: nat, node: NodeId)
    | Unlatching(key: nat, item: ItemId, call: nat, at: nat)
      // index_read
    | ReadStart(key: nat, call: nat)
    | ReadAt(key: nat, call: nat, node: NodeId)
    | ReadPast(key: nat, call: nat, node: NodeId)
    | ReadHit(key: nat, call: nat, node: NodeId)
    | ReadDone(key: nat, call: nat, result: Option<ItemId>, at: nat)
    | InsertDone(key: nat, item: ItemId, call: nat, at: nat)

  datatype Index = Index(
    first: seq<Option<NodeId>>,
    latch: seq<bool>,
    nodes: map<NodeId, Node>,
    threads: map<ThreadId, Thread>,
    events: seq<Event>,
    chains: seq<seq<NodeId>>)

  datatype Step =
    | CallInsert(t: ThreadId, key: nat, item: ItemId)
    | GetLatch(t: ThreadId)
    | InsertWalk(t: ThreadId)
    | Build(t: ThreadId, node: NodeId)
    | Link(t: ThreadId)
    | Push(t: ThreadId)
    | ReleaseLatch(t: ThreadId)
    | CallRead(t: ThreadId, key: nat)
    | ReadFirst(t: ThreadId)
    | CheckKey(t: ThreadId)
    | ReadNext(t: ThreadId)
    | ReadItems(t: ThreadId)
    | Return(t: ThreadId)

  function Bucket(s: Index, key: nat): nat
    requires |s.first| > 0
  {
    key % |s.first|
  }

  function ThreadOf(s: Index, t: ThreadId): Thread {
    if t in s.threads then s.threads[t] else Idle
  }

  ghost predicate Enabled(s: Index, a: Step)
  {
    |s.first| > 0 && |s.latch| == |s.first| == |s.chains| &&
    var x := ThreadOf(s, a.t);
    match a
    case CallInsert(_, _, _) => x.Idle?
    case GetLatch(_) => x.WantLatch? && !s.latch[Bucket(s, x.key)]
    case InsertWalk(_) => x.InsertAt? && x.cur.Some? && x.cur.value in s.nodes
    case Build(_, n) => x.InsertAt? && x.cur.None? && n !in s.nodes && (x.prev.Some? ==> x.prev.value in s.nodes)
    case Link(_) => x.Built? && (x.prev.Some? ==> x.prev.value in s.nodes)
    case Push(_) => x.Found? && x.node in s.nodes
    case ReleaseLatch(_) => x.Unlatching?
    case CallRead(_, _) => x.Idle?
    case ReadFirst(_) => x.ReadStart?
    case CheckKey(_) => x.ReadAt? && x.node in s.nodes
    case ReadNext(_) => x.ReadPast? && x.node in s.nodes
    case ReadItems(_) => x.ReadHit? && x.node in s.nodes
    case Return(_) => x.ReadDone? || x.InsertDone?
  }

  function Set(s: Index, t: ThreadId, x: Thread): Index {
    s.(threads := s.threads[t := x])
  }

  /** A thread follows a link: null answers the lookup, a node continues the walk. */
  ghost function Follow(s: Index, t: ThreadId, key: nat, call: nat, link: Option<NodeId>): Index {
    if link.None? then
      Set(s, t, ReadDone(key, call, None, |s.events|)).(events := s.events + [LookedUp(key, None)])
    else
      Set(s, t, ReadAt(key, call, link.value))
  }

  ghost function Do(s: Index, a: Step): Index
    requires Enabled(s, a)
  {
    var x := ThreadOf(s, a.t);
    match a
    case CallInsert(t, key, item) => Set(s, t, WantLatch(key, item, |s.events|))
    case GetLatch(t) =>
      var b := Bucket(s, x.key);
      Set(s, t, InsertAt(x.key, x.item, x.call, None, s.first[b])).(latch := s.latch[b := true])
    case InsertWalk(t) =>
      var n := s.nodes[x.cur.value];
      if n.key == x.key then Set(s, t, Found(x.key, x.item, x.call, x.cur.value))
      else Set(s, t, InsertAt(x.key, x.item, x.call, x.cur, n.next))
    case Build(t, n) =>
      var next := if x.prev.None? then s.first[Bucket(s, x.key)] else s.nodes[x.prev.value].next;
      Set(s, t, Built(x.key, x.item, x.call, x.prev, n)).(nodes := s.nodes[n := Node(x.key, next, x.item)])
    case Link(t) =>
      var b := Bucket(s, x.key);
      var s' := Set(s, t, Unlatching(x.key, x.item, x.call, |s.events|))
                .(events := s.events + [Inserted(x.key, x.item)],
                  chains := s.chains[b := s.chains[b] + [x.node]]);
      if x.prev.None? then s'.(first := s.first[b := Some(x.node)])
      else s'.(nodes := s.nodes[x.prev.value := s.nodes[x.prev.value].(next := Some(x.node))])
    case Push(t) =>
      Set(s, t, Unlatching(x.key, x.item, x.call, |s.events|))
      .(events := s.events + [Inserted(x.key, x.item)],
        nodes := s.nodes[x.node := s.nodes[x.node].(items := x.item)])
    case ReleaseLatch(t) =>
      Set(s, t, InsertDone(x.key, x.item, x.call, x.at)).(latch := s.latch[Bucket(s, x.key) := false])
    case CallRead(t, key) => Set(s, t, ReadStart(key, |s.events|))
    case ReadFirst(t) => Follow(s, t, x.key, x.call, s.first[Bucket(s, x.key)])
    case CheckKey(t) =>
      if s.nodes[x.node].key == x.key then Set(s, t, ReadHit(x.key, x.call, x.node))
      else Set(s, t, ReadPast(x.key, x.call, x.node))
    case ReadNext(t) => Follow(s, t, x.key, x.call, s.nodes[x.node].next)
    case ReadItems(t) =>
      Set(s, t, ReadDone(x.key, x.call, Some(s.nodes[x.node].items), |s.events|))
      .(events := s.events + [LookedUp(x.key, Some(s.nodes[x.node].items))])
    case Return(t) => Set(s, t, Idle)
  }

  ghost predicate Runs(s: Index, steps: seq<Step>, s': Index)
    decreases |steps|
  {
    if steps == [] then s == s'
    else Enabled(s, steps[0]) && Runs(Do(s, steps[0]), steps[1..], s')
  }

  /** `IndexHash::init`: empty buckets, no latch held. */
  function Init(buckets: nat): Index {
    Index(seq(buckets, _ => None), seq(buckets, _ => false), map[], map[], [], seq(buckets, _ => []))
  }

  // ----- the sequential reference: a map from keys to stacks of items -----

  ghost function Apply(m: map<nat, seq<ItemId>>, e: Event): map<nat, seq<ItemId>> {
    if e.LookedUp? then m
    else m[e.key := [e.item] + if e.key in m then m[e.key] else []]
  }

  ghost function Contents(events: seq<Event>): map<nat, seq<ItemId>> {
    if events == [] then map[] else Apply(Contents(events[..|events| - 1]), events[|events| - 1])
  }

  ghost function Lookup(m: map<nat, seq<ItemId>>, key: nat): Option<ItemId> {
    if key in m && m[key] != [] then Some(m[key][0]) else None
  }

  /** Executed one after another, the events are a correct history of the multimap. */
  ghost predicate LegalLog(events: seq<Event>) {
    if events == [] then true
    else
      var e := events[|events| - 1];
      && LegalLog(events[..|events| - 1])
      && (e.LookedUp? ==> e.result == Lookup(Contents(events[..|events| - 1]), e.key))
  }

  // ----- the invariant -----

  /** `chain` lists the nodes reachable from `link`, in order. */
  ghost predicate ChainFrom(nodes: map<NodeId, Node>, link: Option<NodeId>, chain: seq<NodeId>) {
    && (forall i :: 0 <= i < |chain| ==> chain[i] in nodes)
    && link == (if chain == [] then None else Some(chain[0]))
    && (forall i {:trigger nodes[chain[i]]} :: 0 <= i < |chain| ==>
          nodes[chain[i]].next == if i + 1 < |chain| then Some(chain[i + 1]) else None)
  }

  ghost predicate Distinct(nodes: map<NodeId, Node>, chain: seq<NodeId>)
    requires forall i :: 0 <= i < |chain| ==> chain[i] in nodes
  {
    forall i, j :: 0 <= i < j < |chain| ==> nodes[chain[i]].key != nodes[chain[j]].key
  }

  ghost predicate BucketOk(s: Index, b: nat, m: map<nat, seq<ItemId>>)
    requires b < |s.chains| == |s.first|
  {
    && ChainFrom(s.nodes, s.first[b], s.chains[b])
    && Distinct(s.nodes, s.chains[b])
    && forall i {:trigger NodeOk(s.nodes[s.chains[b][i]], b, |s.chains|, m)} :: 0 <= i < |s.chains[b]| ==>
         NodeOk(s.nodes[s.chains[b][i]], b, |s.chains|, m)
  }

  /** A node sits in the bucket its hash names and shows the newest item of its key. */
  ghost predicate NodeOk(n: Node, b: nat, buckets: nat, m: map<nat, seq<ItemId>>)
    requires buckets > 0
  {
    n.key % buckets == b && n.key in m && m[n.key] != [] && n.items == m[n.key][0]
  }

  ghost predicate HasNode(s: Index, chain: seq<NodeId>, key: nat) {
    exists i :: 0 <= i < |chain| && chain[i] in s.nodes && s.nodes[chain[i]].key == key
  }

  /** The buckets hold exactly the keys of `m`, each with its newest item in front. */
  ghost predicate Represents(s: Index, m: map<nat, seq<ItemId>>) {
    && |s.first| == |s.latch| == |s.chains| > 0
    && (forall b :: 0 <= b < |s.chains| ==> BucketOk(s, b, m))
    && (forall k :: k in m ==> HasNode(s, s.chains[k % |s.chains|], k))
  }

  /** The walk for `key` stands at position `i` of its bucket's chain. */
  ghost predicate At(s: Index, key: nat, i: int)
    requires |s.chains| > 0
  {
    var chain := s.chains[key % |s.chains|];
    0 <= i <= |chain| && forall j :: 0 <= j < i ==> chain[j] in s.nodes && s.nodes[chain[j]].key != key
  }

  ghost function ChainOf(s: Index, key: nat): seq<NodeId>
    requires |s.chains| > 0
  {
    s.chains[key % |s.chains|]
  }

  ghost function LinkAt(chain: seq<NodeId>, i: int): Option<NodeId> {
    if 0 <= i < |chain| then Some(chain[i]) else None
  }

  predicate HoldsLatch(x: Thread) {
    x.InsertAt? || x.Built? || x.Found? || x.Unlatching?
  }

  ghost predicate ThreadOk(s: Index, x: Thread)
    requires |s.chains| == |s.latch| > 0
  {
    && (!x.Idle? ==> x.call <= |s.events|)
    && (HoldsLatch(x) ==> s.latch[x.key % |s.chains|])
    && match x
       case InsertAt(key, _, _, prev, cur) =>
         exists i :: At(s, key, i) && cur == LinkAt(ChainOf(s, key), i) && prev == LinkAt(ChainOf(s, key), i - 1)
       case Built(key, item, _, prev, node) =>
         && At(s, key, |ChainOf(s, key)|) && prev == LinkAt(ChainOf(s, key), |ChainOf(s, key)| - 1)
         && node in s.nodes && s.nodes[node] == Node(key, None, item)
         && forall b :: 0 <= b < |s.chains| ==> node !in s.chains[b]
       case Found(key, _, _, node) =>
         node in ChainOf(s, key) && node in s.nodes && s.nodes[node].key == key
       case ReadAt(key, _, node) =>
         exists i :: At(s, key, i) && i < |ChainOf(s, key)| && ChainOf(s, key)[i] == node
       case ReadPast(key, _, node) =>
         exists i :: 0 < i && At(s, key, i) && ChainOf(s, key)[i - 1] == node
       case ReadHit(key, _, node) =>
         node in ChainOf(s, key) && node in s.nodes && s.nodes[node].key == key
       case ReadDone(key, call, result, at) =>
         call <= at < |s.events| && s.events[at] == LookedUp(key, result)
       case Unlatching(key, item, call, at) =>
         call <= at < |s.events| && s.events[at] == Inserted(key, item)
       case InsertDone(key, item, call, at) =>
         call <= at < |s.events| && s.events[at] == Inserted(key, item)
       case _ => true
  }

  ghost predicate ThreadsOk(s: Index)
    requires |s.chains| == |s.latch| > 0
  {
    forall t :: t in s.threads ==> ThreadOk(s, s.threads[t])
  }

  /** At most one thread works in a bucket under its latch. */
  ghost predicate Exclusive(s: Index)
    requires |s.chains| > 0
  {
    forall t, u ::
      (&& t in s.threads && u in s.threads && t != u
       && HoldsLatch(s.threads[t]) && HoldsLatch(s.threads[u])) ==>
        s.threads[t].key % |s.chains| != s.threads[u].key % |s.chains|
  }

  ghost predicate Inv(s: Index) {
    && Represents(s, Contents(s.events))
    && LegalLog(s.events)
    && ThreadsOk(s)
    && Exclusive(s)
  }

  lemma {:induction false} InitInv(buckets: nat)
    requires buckets > 0
    ensures Inv(Init(buckets))
  {}

  // ----- lookups see the reference -----

  /** A walk that has passed the whole chain may answer "not found". */
  lemma {:induction false} PassedAll(s: Index, m: map<nat, seq<ItemId>>, key: nat)
    requires Represents(s, m) && At(s, key, |ChainOf(s, key)|)
    ensures Lookup(m, key) == None
  {
    assert key in m ==> HasNode(s, ChainOf(s, key), key);
  }

  /** A node of the key shows what the reference would return. */
  lemma {:induction false} HitShows(s: Index, m: map<nat, seq<ItemId>>, key: nat, node: NodeId)
    requires Represents(s, m) && node in ChainOf(s, key) && node in s.nodes && s.nodes[node].key == key
    ensures Lookup(m, key) == Some(s.nodes[node].items)
  {
    var b := key % |s.chains|;
    assert BucketOk(s, b, m);
    var i :| 0 <= i < |s.chains[b]| && s.chains[b][i] == node;
    assert NodeOk(s.nodes[s.chains[b][i]], b, |s.chains|, m);
  }

  /** The link after position `i - 1` of a chain leads to position `i`. */
  lemma {:induction false} LinkFollows(s: Index, m: map<nat, seq<ItemId>>, key: nat, i: nat)
    requires Represents(s, m) && i <= |ChainOf(s, key)|
    ensures i == 0 ==> s.first[key % |s.chains|] == LinkAt(ChainOf(s, key), 0)
    ensures i > 0 ==> ChainOf(s, key)[i - 1] in s.nodes
                      && s.nodes[ChainOf(s, key)[i - 1]].next == LinkAt(ChainOf(s, key), i)
  {
    assert BucketOk(s, key % |s.chains|, m);
    ChainLink(s.nodes, s.first[key % |s.chains|], ChainOf(s, key), i);
  }

  lemma {:induction false} ChainLink(nodes: map<NodeId, Node>, link: Option<NodeId>, chain: seq<NodeId>, i: nat)
    requires ChainFrom(nodes, link, chain) && i <= |chain|
    ensures i == 0 ==> link == LinkAt(chain, 0)
    ensures i > 0 ==> chain[i - 1] in nodes && nodes[chain[i - 1]].next == LinkAt(chain, i)
  {}

  lemma {:induction false} ContentsAppend(events: seq<Event>, e: Event)
    ensures Contents(events + [e]) == Apply(Contents(events), e)
    ensures LegalLog(events + [e]) <==>
            LegalLog(events) && (e.LookedUp? ==> e.result == Lookup(Contents(events), e.key))
  {
    assert (events + [e])[..|events|] == events;
  }

  // ----- memory only grows -----

  /** Linked nodes keep their place and key; the log keeps its entries. */
  ghost predicate Grows(s: Index, s': Index) {
    && |s.chains| == |s'.chains| == |s.latch| == |s'.latch| > 0
    && s.events <= s'.events
    && (forall b :: 0 <= b < |s.chains| ==> s.chains[b] <= s'.chains[b])
    && (forall n :: n in s.nodes ==> n in s'.nodes && s'.nodes[n].key == s.nodes[n].key)
  }

  lemma {:induction false} AtKept(s: Index, s': Index, key: nat, i: int)
    requires Grows(s, s') && At(s, key, i)
    ensures At(s', key, i) && ChainOf(s, key) <= ChainOf(s', key)
  {
    var b := key % |s.chains|;
    assert s.chains[b] <= s'.chains[b];
  }

  /** A thread the step does not belong to.  If it holds a latch, its bucket is untouched. */
  lemma {:induction false} ThreadKept(s: Index, s': Index, x: Thread)
    requires Grows(s, s') && ThreadOk(s, x)
    requires HoldsLatch(x) ==> s'.latch[x.key % |s.chains|] && ChainOf(s', x.key) == ChainOf(s, x.key)
    requires x.Built? ==> s'.nodes[x.node] == s.nodes[x.node] && forall b :: 0 <= b < |s'.chains| ==> x.node !in s'.chains[b]
    ensures ThreadOk(s', x)
  {
    match x
    case InsertAt(key, _, _, prev, cur) =>
      var i :| At(s, key, i) && cur == LinkAt(ChainOf(s, key), i) && prev == LinkAt(ChainOf(s, key), i - 1);
      AtKept(s, s', key, i);
    case Built(key, _, _, _, _) => AtKept(s, s', key, |ChainOf(s, key)|);
    case Found(key, _, _, _) => AtKept(s, s', key, 0);
    case ReadAt(key, _, node) =>
      var i :| At(s, key, i) && i < |ChainOf(s, key)| && ChainOf(s, key)[i] == node;
      AtKept(s, s', key, i);
    case ReadPast(key, _, node) =>
      var i :| 0 < i && At(s, key, i) && ChainOf(s, key)[i - 1] == node;
      AtKept(s, s', key, i);
    case ReadHit(key, _, _) => AtKept(s, s', key, 0);
    case _ =>
  }

  // ----- one step, memory side -----

  lemma {:induction false} StepGrows(s: Index, a: Step)
    requires Enabled(s, a)
    ensures Grows(s, Do(s, a))
    ensures Do(s, a).threads == s.threads[a.t := ThreadOf(Do(s, a), a.t)]
    ensures |Do(s, a).first| == |s.first|
  {}

  /** Steps that link nothing and store no item leave the buckets as they are. */
  lemma {:induction false} QuietRepresents(s: Index, s': Index, m: map<nat, seq<ItemId>>)
    requires Represents(s, m) && s'.first == s.first && s'.chains == s.chains && |s'.latch| == |s.latch|
    requires forall n :: n in s.nodes ==> n in s'.nodes && s'.nodes[n] == s.nodes[n]
    ensures Represents(s', m)
  {
    forall b | 0 <= b < |s'.chains| ensures BucketOk(s', b, m) {
      assert BucketOk(s, b, m);
    }
    forall k | k in m ensures HasNode(s', s'.chains[k % |s'.chains|], k) {
      assert HasNode(s, s.chains[k % |s.chains|], k);
    }
  }

  /** Storing a new item in front of a key's list. */
  lemma {:induction false} PushRepresents(s: Index, t: ThreadId, m: map<nat, seq<ItemId>>)
    requires Represents(s, m) && Enabled(s, Push(t)) && ThreadOk(s, ThreadOf(s, t))
    ensures
      var x := ThreadOf(s, t);
      Represents(Do(s, Push(t)), Apply(m, Inserted(x.key, x.item)))
  {
    var x := ThreadOf(s, t);
    var s' := Do(s, Push(t));
    var m' := Apply(m, Inserted(x.key, x.item));
    HitShows(s, m, x.key, x.node);
    forall b | 0 <= b < |s'.chains| ensures BucketOk(s', b, m') {
      PushBucket(s, t, m, b);
    }
    forall k | k in m' ensures HasNode(s', s'.chains[k % |s'.chains|], k) {
      assert HasNode(s, s.chains[k % |s.chains|], k);
      var i :| 0 <= i < |s.chains[k % |s.chains|]| && s.chains[k % |s.chains|][i] in s.nodes && s.nodes[s.chains[k % |s.chains|][i]].key == k;
      assert s'.nodes[s'.chains[k % |s.chains|][i]].key == k;
    }
  }

  lemma {:induction false} PushBucket(s: Index, t: ThreadId, m: map<nat, seq<ItemId>>, b: nat)
    requires Represents(s, m) && Enabled(s, Push(t)) && ThreadOk(s, ThreadOf(s, t)) && b < |s.chains|
    ensures
      var x := ThreadOf(s, t);
      BucketOk(Do(s, Push(t)), b, Apply(m, Inserted(x.key, x.item)))
  {
    var x := ThreadOf(s, t);
    var s' := Do(s, Push(t));
    assert BucketOk(s, b, m);
    forall i | 0 <= i < |s.chains[b]|
      ensures NodeOk(s'.nodes[s.chains[b][i]], b, |s.chains|, Apply(m, Inserted(x.key, x.item)))
    {
      assert NodeOk(s.nodes[s.chains[b][i]], b, |s.chains|, m);
      SameKeySameNode(s, m, x.key, x.node, b, i);
    }
  }

  /** A linked node with the key of a node of the key's own chain is that node. */
  lemma {:induction false} SameKeySameNode(s: Index, m: map<nat, seq<ItemId>>, key: nat, node: NodeId, b: nat, i: nat)
    requires Represents(s, m) && node in ChainOf(s, key) && node in s.nodes && s.nodes[node].key == key
    requires b < |s.chains| && i < |s.chains[b]|
    ensures s.chains[b][i] in s.nodes && (s.nodes[s.chains[b][i]].key == key <==> s.chains[b][i] == node)
  {
    assert BucketOk(s, b, m);
    assert NodeOk(s.nodes[s.chains[b][i]], b, |s.chains|, m);
    var j :| 0 <= j < |ChainOf(s, key)| && ChainOf(s, key)[j] == node;
  }

  /** Hooking a fresh node to the end of a chain. */
  lemma {:induction false} ChainExtends(nodes: map<NodeId, Node>, link: Option<NodeId>, chain: seq<NodeId>, n: NodeId,
                     nodes': map<NodeId, Node>, link': Option<NodeId>)
    requires ChainFrom(nodes, link, chain) && n !in chain && n in nodes && nodes[n].next == None
    requires forall i, j :: 0 <= i < j < |chain| ==> chain[i] != chain[j]
    requires if chain == [] then link' == Some(n) && nodes' == nodes
             else link' == link && nodes' == nodes[chain[|chain| - 1] := nodes[chain[|chain| - 1]].(next := Some(n))]
    ensures ChainFrom(nodes', link', chain + [n])
  {
    var chain' := chain + [n];
    forall i {:trigger nodes'[chain'[i]]} | 0 <= i < |chain'|
      ensures chain'[i] in nodes' && nodes'[chain'[i]].next == if i + 1 < |chain'| then Some(chain'[i + 1]) else None
    {
      if i < |chain| {
        assert chain[i] in nodes && nodes[chain[i]].next == if i + 1 < |chain| then Some(chain[i + 1]) else None;
      }
    }
  }

  /** What a thread in phase Built knows. */
  lemma {:induction false} BuiltKnows(s: Index, t: ThreadId, m: map<nat, seq<ItemId>>)
    requires Represents(s, m) && Enabled(s, Link(t)) && ThreadOk(s, ThreadOf(s, t))
    ensures
      var x := ThreadOf(s, t);
      var chain := ChainOf(s, x.key);
      && x.key !in m && x.node in s.nodes && s.nodes[x.node] == Node(x.key, None, x.item)
      && x.prev == LinkAt(chain, |chain| - 1)
      && (forall j :: 0 <= j < |chain| ==> chain[j] in s.nodes && s.nodes[chain[j]].key != x.key)
      && (forall i, j :: 0 <= i < j < |chain| ==> chain[i] != chain[j])
      && x.node !in chain
  {
    var x := ThreadOf(s, t);
    assert x.key in m ==> HasNode(s, ChainOf(s, x.key), x.key);
    assert BucketOk(s, x.key % |s.chains|, m);
  }

  lemma {:induction false} LinkOwnBucket(s: Index, t: ThreadId, m: map<nat, seq<ItemId>>)
    requires Represents(s, m) && Enabled(s, Link(t)) && ThreadOk(s, ThreadOf(s, t))
    ensures
      var x := ThreadOf(s, t);
      BucketOk(Do(s, Link(t)), x.key % |s.chains|, Apply(m, Inserted(x.key, x.item)))
  {
    var x := ThreadOf(s, t);
    var b := x.key % |s.chains|;
    var s' := Do(s, Link(t));
    var m' := Apply(m, Inserted(x.key, x.item));
    BuiltKnows(s, t, m);
    assert BucketOk(s, b, m);
    ChainExtends(s.nodes, s.first[b], s.chains[b], x.node, s'.nodes, s'.first[b]);
    forall i {:trigger NodeOk(s'.nodes[s'.chains[b][i]], b, |s'.chains|, m')} | 0 <= i < |s'.chains[b]|
      ensures NodeOk(s'.nodes[s'.chains[b][i]], b, |s'.chains|, m')
    {
      if i < |s.chains[b]| {
        assert NodeOk(s.nodes[s.chains[b][i]], b, |s.chains|, m);
      }
    }
  }

  lemma {:induction false} LinkOtherBucket(s: Index, t: ThreadId, m: map<nat, seq<ItemId>>, b: nat)
    requires Represents(s, m) && Enabled(s, Link(t)) && ThreadOk(s, ThreadOf(s, t))
    requires b < |s.chains| && b != ThreadOf(s, t).key % |s.chains|
    ensures
      var x := ThreadOf(s, t);
      BucketOk(Do(s, Link(t)), b, Apply(m, Inserted(x.key, x.item)))
  {
    var x := ThreadOf(s, t);
    var own := x.key % |s.chains|;
    var s' := Do(s, Link(t));
    var m' := Apply(m, Inserted(x.key, x.item));
    BuiltKnows(s, t, m);
    assert BucketOk(s, b, m) && BucketOk(s, own, m);
    forall i | 0 <= i < |s.chains[b]|
      ensures s'.nodes[s.chains[b][i]] == s.nodes[s.chains[b][i]] && NodeOk(s.nodes[s.chains[b][i]], b, |s.chains|, m')
    {
      assert NodeOk(s.nodes[s.chains[b][i]], b, |s.chains|, m);
      if x.prev.Some? {
        var last := |s.chains[own]| - 1;
        assert NodeOk(s.nodes[s.chains[own][last]], own, |s.chains|, m);
      }
    }
    assert s'.chains[b] == s.chains[b] && s'.first[b] == s.first[b];
  }

  lemma {:induction false} LinkRepresents(s: Index, t: ThreadId, m: map<nat, seq<ItemId>>)
    requires Represents(s, m) && Enabled(s, Link(t)) && ThreadOk(s, ThreadOf(s, t))
    ensures
      var x := ThreadOf(s, t);
      Represents(Do(s, Link(t)), Apply(m, Inserted(x.key, x.item)))
  {
    var x := ThreadOf(s, t);
    var own := x.key % |s.chains|;
    var s' := Do(s, Link(t));
    var m' := Apply(m, Inserted(x.key, x.item));
    BuiltKnows(s, t, m);
    forall b | 0 <= b < |s'.chains| ensures BucketOk(s', b, m') {
      if b == own {
        LinkOwnBucket(s, t, m);
      } else {
        LinkOtherBucket(s, t, m, b);
      }
    }
    StepGrows(s, Link(t));
    forall k | k in m' ensures HasNode(s', s'.chains[k % |s'.chains|], k) {
      if k == x.key {
        assert s'.chains[own][|s.chains[own]|] == x.node;
      } else {
        assert HasNode(s, s.chains[k % |s.chains|], k);
        HasNodeKept(s, s', k);
      }
    }
  }

  lemma {:induction false} HasNodeKept(s: Index, s': Index, k: nat)
    requires Grows(s, s') && HasNode(s, ChainOf(s, k), k)
    ensures HasNode(s', ChainOf(s', k), k)
  {
    var b := k % |s.chains|;
    var i :| 0 <= i < |s.chains[b]| && s.chains[b][i] in s.nodes && s.nodes[s.chains[b][i]].key == k;
    assert s.chains[b] <= s'.chains[b];
    assert s'.chains[b][i] == s.chains[b][i];
  }

  /** Every step keeps the buckets in step with the log, and the log legal. */
  lemma {:induction false} StepRepresents(s: Index, a: Step)
    requires Inv(s) && Enabled(s, a)
    ensures Represents(Do(s, a), Contents(Do(s, a).events)) && LegalLog(Do(s, a).events)
  {
    var m := Contents(s.events);
    var x := ThreadOf(s, a.t);
    assert ThreadOk(s, x);
    hide Contents, LegalLog;
    match a
    case Link(t) =>
      LinkRepresents(s, t, m);
      ContentsAppend(s.events, Inserted(x.key, x.item));
    case Push(t) =>
      PushRepresents(s, t, m);
      ContentsAppend(s.events, Inserted(x.key, x.item));
    case ReadItems(t) =>
      HitShows(s, m, x.key, x.node);
      ContentsAppend(s.events, LookedUp(x.key, Some(s.nodes[x.node].items)));
      QuietRepresents(s, Do(s, a), m);
    case ReadFirst(t) =>
      LinkFollows(s, m, x.key, 0);
      FollowRepresents(s, t, x.key, x.call, 0, s.first[Bucket(s, x.key)]);
    case ReadNext(t) =>
      var i :| 0 < i && At(s, x.key, i) && ChainOf(s, x.key)[i - 1] == x.node;
      LinkFollows(s, m, x.key, i);
      FollowRepresents(s, t, x.key, x.call, i, s.nodes[x.node].next);
    case _ =>
      QuietRepresents(s, Do(s, a), m);
  }

  lemma {:induction false} FollowRepresents(s: Index, t: ThreadId, key: nat, call: nat, i: nat, link: Option<NodeId>)
    requires Represents(s, Contents(s.events)) && LegalLog(s.events)
    requires At(s, key, i) && link == LinkAt(ChainOf(s, key), i)
    ensures
      var s' := Follow(s, t, key, call, link);
      Represents(s', Contents(s'.events)) && LegalLog(s'.events)
  {
    var s' := Follow(s, t, key, call, link);
    if link.None? {
      PassedAll(s, Contents(s.events), key);
      ContentsAppend(s.events, LookedUp(key, None));
    }
    QuietRepresents(s, s', Contents(s.events));
  }

  // ----- one step, thread side -----

  /** Holding a latch starts with GetLatch and stays with the same key. */
  lemma {:induction false} HoldsKept(s: Index, a: Step)
    requires Enabled(s, a)
    ensures
      var x, y := ThreadOf(s, a.t), ThreadOf(Do(s, a), a.t);
      HoldsLatch(y) ==> (HoldsLatch(x) && y.key == x.key) || (a.GetLatch? && y.key == x.key)
  {}

  lemma {:induction false} StepExclusive(s: Index, a: Step)
    requires Inv(s) && Enabled(s, a)
    ensures Exclusive(Do(s, a))
  {
    var s' := Do(s, a);
    StepGrows(s, a);
    HoldsKept(s, a);
    hide Represents, Do;
    forall t, u | && t in s'.threads && u in s'.threads && t != u
                  && HoldsLatch(s'.threads[t]) && HoldsLatch(s'.threads[u])
      ensures s'.threads[t].key % |s'.chains| != s'.threads[u].key % |s'.chains|
    {
      if a.GetLatch? && (t == a.t || u == a.t) {
        var other := if t == a.t then u else t;
        assert ThreadOk(s, s.threads[other]);
      }
    }
  }

  /** A bucket held by another thread keeps its chain and stays latched. */
  lemma {:induction false} HeldBucketKept(s: Index, a: Step, u: ThreadId)
    requires Inv(s) && Enabled(s, a) && u in s.threads && u != a.t && HoldsLatch(s.threads[u])
    ensures
      var key := s.threads[u].key;
      Do(s, a).latch[key % |s.chains|] && ChainOf(Do(s, a), key) == ChainOf(s, key)
  {
    assert ThreadOk(s, s.threads[u]);
    hide Represents, LegalLog, Contents;
    var x := ThreadOf(s, a.t);
    if a.Link? || a.ReleaseLatch? {
      assert a.t in s.threads && HoldsLatch(s.threads[a.t]);
    }
  }

  lemma {:induction false} BuiltNodeKept(s: Index, a: Step, u: ThreadId)
    requires Inv(s) && Enabled(s, a) && u in s.threads && u != a.t && s.threads[u].Built?
    ensures
      var n := s.threads[u].node;
      && n in Do(s, a).nodes && n in s.nodes && Do(s, a).nodes[n] == s.nodes[n]
      && forall b :: 0 <= b < |s.chains| ==> n !in Do(s, a).chains[b]
  {
    assert ThreadOk(s, s.threads[u]);
    var x := ThreadOf(s, a.t);
    if a.Link? {
      assert ThreadOk(s, x);
      BuiltKnows(s, a.t, Contents(s.events));
      assert a.t in s.threads && HoldsLatch(s.threads[a.t]) && HoldsLatch(s.threads[u]);
      assert s.threads[u].node != x.node;
    } else if a.Push? {
      assert ThreadOk(s, x);
      assert x.node in ChainOf(s, x.key);
    }
  }

  lemma {:induction false} OtherThread(s: Index, a: Step, u: ThreadId)
    requires Inv(s) && Enabled(s, a) && u in s.threads && u != a.t
    ensures ThreadOk(Do(s, a), s.threads[u])
  {
    var x := s.threads[u];
    assert ThreadOk(s, x);
    StepGrows(s, a);
    if HoldsLatch(x) {
      HeldBucketKept(s, a, u);
    }
    if x.Built? {
      BuiltNodeKept(s, a, u);
    }
    hide Represents, Do, Enabled, ThreadOk, Exclusive;
    ThreadKept(s, Do(s, a), x);
  }

  /** The thread that takes the step stands where its new phase says. */
  lemma {:induction false} OwnThread(s: Index, a: Step)
    requires Inv(s) && Enabled(s, a)
    ensures ThreadOk(Do(s, a), ThreadOf(Do(s, a), a.t))
  {
    var x := ThreadOf(s, a.t);
    assert ThreadOk(s, x);
    hide LegalLog, Contents, Exclusive, Represents;
    match a
    case InsertWalk(t) => OwnWalk(s, t);
    case GetLatch(t) => OwnLatch(s, t);
    case ReadFirst(t) =>
      OwnFirst(s, x.key);
      OwnFollow(s, t, x.key, x.call, 0, s.first[Bucket(s, x.key)]);
    case ReadNext(t) => OwnNext(s, t);
    case CheckKey(t) => OwnCheck(s, t);
    case Build(t, n) => OwnBuild(s, t, n);
    case _ =>
  }

  lemma {:induction false} OwnLatch(s: Index, t: ThreadId)
    requires Inv(s) && Enabled(s, GetLatch(t))
    ensures ThreadOk(Do(s, GetLatch(t)), ThreadOf(Do(s, GetLatch(t)), t))
  {
    var x := ThreadOf(s, t);
    assert ThreadOk(s, x);
    hide LegalLog, Contents, Exclusive, Represents;
    OwnFirst(s, x.key);
    var s' := Do(s, GetLatch(t));
    var chain := ChainOf(s', x.key);
    var y := ThreadOf(s', t);
    assert At(s', x.key, 0) && y.cur == LinkAt(chain, 0) && y.prev == LinkAt(chain, 0 - 1);
  }

  lemma {:induction false} OwnFirst(s: Index, key: nat)
    requires Represents(s, Contents(s.events))
    ensures |s.first| == |s.chains| > 0 && s.first[Bucket(s, key)] == LinkAt(ChainOf(s, key), 0)
  {
    LinkFollows(s, Contents(s.events), key, 0);
  }

  lemma {:induction false} OwnFollow(s: Index, t: ThreadId, key: nat, call: nat, i: nat, link: Option<NodeId>)
    requires |s.chains| == |s.latch| > 0 && call <= |s.events|
    requires At(s, key, i) && link == LinkAt(ChainOf(s, key), i)
    ensures ThreadOk(Follow(s, t, key, call, link), ThreadOf(Follow(s, t, key, call, link), t))
  {
    var s' := Follow(s, t, key, call, link);
    assert At(s', key, i);
  }

  lemma {:induction false} OwnNext(s: Index, t: ThreadId)
    requires Represents(s, Contents(s.events)) && Enabled(s, ReadNext(t)) && ThreadOk(s, ThreadOf(s, t))
    ensures ThreadOk(Do(s, ReadNext(t)), ThreadOf(Do(s, ReadNext(t)), t))
  {
    var x := ThreadOf(s, t);
    var i :| 0 < i && At(s, x.key, i) && ChainOf(s, x.key)[i - 1] == x.node;
    LinkFollows(s, Contents(s.events), x.key, i);
    OwnFollow(s, t, x.key, x.call, i, s.nodes[x.node].next);
  }

  lemma {:induction false} OwnCheck(s: Index, t: ThreadId)
    requires Represents(s, Contents(s.events)) && Enabled(s, CheckKey(t)) && ThreadOk(s, ThreadOf(s, t))
    ensures ThreadOk(Do(s, CheckKey(t)), ThreadOf(Do(s, CheckKey(t)), t))
  {
    var x := ThreadOf(s, t);
    var s' := Do(s, CheckKey(t));
    var i :| At(s, x.key, i) && i < |ChainOf(s, x.key)| && ChainOf(s, x.key)[i] == x.node;
    if s.nodes[x.node].key != x.key {
      assert At(s', x.key, i + 1) && ChainOf(s', x.key)[i + 1 - 1] == x.node;
    }
  }

  lemma {:induction false} OwnWalk(s: Index, t: ThreadId)
    requires Represents(s, Contents(s.events)) && Enabled(s, InsertWalk(t)) && ThreadOk(s, ThreadOf(s, t))
    ensures ThreadOk(Do(s, InsertWalk(t)), ThreadOf(Do(s, InsertWalk(t)), t))
  {
    var x := ThreadOf(s, t);
    var s' := Do(s, InsertWalk(t));
    var chain := ChainOf(s, x.key);
    var i :| At(s, x.key, i) && x.cur == LinkAt(chain, i) && x.prev == LinkAt(chain, i - 1);
    LinkFollows(s, Contents(s.events), x.key, i + 1);
    if s.nodes[x.cur.value].key != x.key {
      assert At(s', x.key, i + 1);
      assert ChainOf(s', x.key) == chain && LinkAt(chain, i + 1 - 1) == x.cur;
    }
  }

  lemma {:induction false} OwnBuild(s: Index, t: ThreadId, n: NodeId)
    requires Represents(s, Contents(s.events)) && Enabled(s, Build(t, n)) && ThreadOk(s, ThreadOf(s, t))
    ensures ThreadOk(Do(s, Build(t, n)), ThreadOf(Do(s, Build(t, n)), t))
  {
    var x := ThreadOf(s, t);
    var s' := Do(s, Build(t, n));
    var chain := ChainOf(s, x.key);
    var i :| At(s, x.key, i) && x.cur == LinkAt(chain, i) && x.prev == LinkAt(chain, i - 1);
    assert i == |chain|;
    LinkFollows(s, Contents(s.events), x.key, i);
    assert At(s', x.key, i) && ChainOf(s', x.key) == chain;
    forall b | 0 <= b < |s.chains| ensures n !in s.chains[b] {
      assert BucketOk(s, b, Contents(s.events));
    }
  }

  lemma {:induction false} StepInv(s: Index, a: Step)
    requires Inv(s) && Enabled(s, a)
    ensures Inv(Do(s, a))
  {
    StepRepresents(s, a);
    StepExclusive(s, a);
    OwnThread(s, a);
    StepGrows(s, a);
    var s' := Do(s, a);
    hide Represents, Do, Enabled, ThreadOk, Exclusive, LegalLog, Contents;
    forall t | t in s'.threads ensures ThreadOk(s', s'.threads[t]) {
      if t != a.t {
        OtherThread(s, a, t);
      }
    }
  }

  lemma {:induction false} RunInv(s: Index, steps: seq<Step>, s': Index)
    requires Inv(s) && Runs(s, steps, s')
    ensures Inv(s')
    decreases |steps|
  {
    hide Inv, Do, Enabled;
    if steps != [] {
      StepInv(s, steps[0]);
      RunInv(Do(s, steps[0]), steps[1..], s');
    }
  }

  // ----- what clients may rely on -----

  /** Linearizability.  In every interleaving the log is a correct sequential history, and
      every finished operation has its event in the log, placed between its call and now. */
  lemma {:induction false} Linearizable(buckets: nat, steps: seq<Step>, s: Index)
    requires buckets > 0 && Runs(Init(buckets), steps, s)
    ensures LegalLog(s.events)
    ensures forall t :: t in s.threads && s.threads[t].ReadDone? ==>
              var x := s.threads[t];
              x.call <= x.at < |s.events| && s.events[x.at] == LookedUp(x.key, x.result)
    ensures forall t :: t in s.threads && s.threads[t].InsertDone? ==>
              var x := s.threads[t];
              x.call <= x.at < |s.events| && s.events[x.at] == Inserted(x.key, x.item)
  {
    InitInv(buckets);
    hide Runs;
    RunInv(Init(buckets), steps, s);
    hide Represents, Exclusive, LegalLog;
    assert forall t :: t in s.threads ==> ThreadOk(s, s.threads[t]);
  }

  /** Keys only ever appear. */
  lemma {:induction false} KeysGrow(events: seq<Event>, i: nat, key: nat)
    requires i <= |events| && key in Contents(events[..i]) && Contents(events[..i])[key] != []
    ensures key in Contents(events) && Contents(events)[key] != []
  {
    if i < |events| {
      var n := |events| - 1;
      assert events[..n][..i] == events[..i];
      KeysGrow(events[..n], i, key);
    } else {
      assert events[..i] == events;
    }
  }

  lemma {:induction false} LegalPrefix(events: seq<Event>, i: nat)
    requires LegalLog(events) && i < |events| && events[i].LookedUp?
    ensures events[i].result == Lookup(Contents(events[..i]), events[i].key)
  {
    var n := |events| - 1;
    if i < n {
      LegalPrefix(events[..n], i);
      assert events[..n][..i] == events[..i];
    }
  }

  /** A lookup finds every key that was in the index when it was called; what it returns was
      in front of the key's list at the moment of its event. */
  lemma {:induction false} PresentKeysAreFound(buckets: nat, steps: seq<Step>, s: Index, t: ThreadId)
    requires buckets > 0 && Runs(Init(buckets), steps, s)
    requires t in s.threads && s.threads[t].ReadDone?
    ensures
      var x := s.threads[t];
      && x.call <= x.at < |s.events|
      && x.result == Lookup(Contents(s.events[..x.at]), x.key)
      && (Lookup(Contents(s.events[..x.call]), x.key).Some? ==> x.result.Some?)
  {
    hide Runs;
    Linearizable(buckets, steps, s);
    var x := s.threads[t];
    LegalPrefix(s.events, x.at);
    if Lookup(Contents(s.events[..x.call]), x.key).Some? {
      assert s.events[..x.at][..x.call] == s.events[..x.call];
      KeysGrow(s.events[..x.at], x.call, x.key);
    }
  }

  /** What a thread in the middle of an operation does next; `n` names a new node. */
  function NextOf(t: ThreadId, x: Thread, n: NodeId): Step {
    match x
    case Idle => CallRead(t, 0)
    case WantLatch(_, _, _) => GetLatch(t)
    case InsertAt(_, _, _, _, cur) => if cur.Some? then InsertWalk(t) else Build(t, n)
    case Built(_, _, _, _, _) => Link(t)
    case Found(_, _, _, _) => Push(t)
    case Unlatching(_, _, _, _) => ReleaseLatch(t)
    case ReadStart(_, _) => ReadFirst(t)
    case ReadAt(_, _, _) => CheckKey(t)
    case ReadPast(_, _, _) => ReadNext(t)
    case ReadHit(_, _, _) => ReadItems(t)
    case ReadDone(_, _, _, _) => Return(t)
    case InsertDone(_, _, _, _) => Return(t)
  }

  lemma {:induction false} LinkedNodes(s: Index, m: map<nat, seq<ItemId>>, key: nat)
    requires Represents(s, m)
    ensures forall i :: 0 <= i < |ChainOf(s, key)| ==> ChainOf(s, key)[i] in s.nodes
  {
    assert BucketOk(s, key % |s.chains|, m);
  }

  /** A thread waits for nothing but a bucket latch: in every run, every reader and every
      inserter past its latch can take its next step, on nodes that exist. */
  lemma {:induction false} OnlyLatchesBlock(buckets: nat, steps: seq<Step>, s: Index, t: ThreadId, n: NodeId)
    requires buckets > 0 && Runs(Init(buckets), steps, s) && n !in s.nodes
    requires t in s.threads && !s.threads[t].WantLatch?
    ensures Enabled(s, NextOf(t, s.threads[t], n))
  {
    InitInv(buckets);
    hide Runs;
    RunInv(Init(buckets), steps, s);
    var x := s.threads[t];
    if !x.Idle? {
      LinkedNodes(s, Contents(s.events), x.key);
    }
    hide BucketOk, HasNode, LegalLog, Contents, Exclusive;
    assert ThreadOk(s, x);
  }

  // ----- calls and their answers -----

  predicate IsCall(a: Step) {
    a.CallRead? || a.CallInsert?
  }

  /** The thread is working on call `a`, made when the log had `n` events. */
  predicate Serves(x: Thread, a: Step, n: nat) {
    match a
    case CallRead(_, key) =>
      (x.ReadStart? || x.ReadAt? || x.ReadPast? || x.ReadHit? || x.ReadDone?) && x.key == key && x.call == n
    case CallInsert(_, key, item) =>
      && (x.WantLatch? || x.InsertAt? || x.Built? || x.Found? || x.Unlatching? || x.InsertDone?)
      && x.key == key && x.item == item && x.call == n
    case _ => false
  }

  lemma {:induction false} StepServes(s: Index, a: Step, call: Step, n: nat)
    requires Enabled(s, a) && !(IsCall(a) && a.t == call.t)
    requires ThreadOf(s, call.t).Idle? || Serves(ThreadOf(s, call.t), call, n)
    ensures var y := ThreadOf(Do(s, a), call.t); y.Idle? || Serves(y, call, n)
    ensures s.events <= Do(s, a).events
  {}

  /** Until its next call, a thread works on its last one. */
  lemma {:induction false} RunServes(s: Index, steps: seq<Step>, s': Index, call: Step, n: nat)
    requires Runs(s, steps, s') && forall k :: 0 <= k < |steps| ==> !(IsCall(steps[k]) && steps[k].t == call.t)
    requires ThreadOf(s, call.t).Idle? || Serves(ThreadOf(s, call.t), call, n)
    ensures var y := ThreadOf(s', call.t); y.Idle? || Serves(y, call, n)
    ensures s.events <= s'.events
    decreases |steps|
  {
    hide Enabled, Do, Serves, ThreadOf;
    if steps != [] {
      StepServes(s, steps[0], call, n);
      RunServes(Do(s, steps[0]), steps[1..], s', call, n);
    }
  }

  lemma {:induction false} JoinRuns(s: Index, p: seq<Step>, m: Index, q: seq<Step>, e: Index)
    requires Runs(s, p, m) && Runs(m, q, e)
    ensures Runs(s, p + q, e)
    decreases |p|
  {
    hide Enabled, Do;
    if p == [] {
      assert p + q == q;
    } else {
      JoinRuns(Do(s, p[0]), p[1..], m, q, e);
      assert (p + q)[1..] == p[1..] + q;
    }
  }

  /** Event `i` is the last insert under `key`. */
  ghost predicate LastInsert(events: seq<Event>, key: nat, i: int) {
    && 0 <= i < |events| && events[i].Inserted? && events[i].key == key
    && forall j :: i < j < |events| && events[j].Inserted? ==> events[j].key != key
  }

  /** Looking a key up in the multimap of a log gives the item inserted last under it. */
  lemma {:induction false} LookupIsLastInsert(events: seq<Event>, key: nat)
    ensures forall i :: LastInsert(events, key, i) ==> Lookup(Contents(events), key) == Some(events[i].item)
    ensures Lookup(Contents(events), key).Some? ==> exists i :: LastInsert(events, key, i)
  {
    if events != [] {
      var n := |events| - 1;
      var before := events[..n];
      LookupIsLastInsert(before, key);
      var e := events[n];
      if e.Inserted? && e.key == key {
        assert LastInsert(events, key, n);
      } else {
        forall i | 0 <= i < n ensures LastInsert(events, key, i) <==> LastInsert(before, key, i) {
          assert forall j :: 0 <= j < n ==> before[j] == events[j];
        }
      }
    }
  }

  /** What a call answers: its event, for exactly its own arguments, took effect after the
      call, and the result of a lookup is right at that moment. */
  ghost predicate Answers(call: Step, x: Thread, before: seq<Event>, after: seq<Event>) {
    match call
    case CallRead(_, key) =>
      && x.ReadDone? && |before| <= x.at < |after| && after[x.at] == LookedUp(key, x.result)
      && x.result == Lookup(Contents(after[..x.at]), key)
      && (forall i :: LastInsert(after[..x.at], key, i) ==> x.result == Some(after[..x.at][i].item))
      && (x.result.Some? ==> exists i :: LastInsert(after[..x.at], key, i))
    case CallInsert(_, key, item) =>
      x.InsertDone? && |before| <= x.at < |after| && after[x.at] == Inserted(key, item)
    case _ => false
  }

  lemma {:induction false} CallMade(s: Index, call: Step)
    requires IsCall(call) && Enabled(s, call)
    ensures Do(s, call).events == s.events && Serves(ThreadOf(Do(s, call), call.t), call, |s.events|)
  {}

  lemma {:induction false} ReturnsWhatItServes(buckets: nat, steps: seq<Step>, s: Index, call: Step, before: seq<Event>)
    requires buckets > 0 && Runs(Init(buckets), steps, s) && before <= s.events
    requires ThreadOf(s, call.t).Idle? || Serves(ThreadOf(s, call.t), call, |before|)
    requires Enabled(s, Return(call.t)) && IsCall(call)
    ensures Answers(call, ThreadOf(s, call.t), before, s.events)
  {
    hide Runs, LegalLog, Contents;
    Linearizable(buckets, steps, s);
    var x := s.threads[call.t];
    if x.ReadDone? {
      LegalPrefix(s.events, x.at);
      LookupIsLastInsert(s.events[..x.at], x.key);
    }
    hide LastInsert;
  }

  /** Linearizability, call by call.  In every run, whenever a thread is about to return from
      its latest call, the answer is the one for the arguments of that call, and its event
      lies between the state of the call and now. */
  lemma {:induction false} ReturnsAnswerTheCall(buckets: nat, prefix: seq<Step>, s: Index, call: Step, mid: seq<Step>, s': Index)
    requires buckets > 0 && Runs(Init(buckets), prefix, s)
    requires IsCall(call) && Enabled(s, call) && Runs(Do(s, call), mid, s')
    requires forall k :: 0 <= k < |mid| ==> !(IsCall(mid[k]) && mid[k].t == call.t)
    requires Enabled(s', Return(call.t))
    ensures Answers(call, ThreadOf(s', call.t), s.events, s'.events)
  {
    hide Do, Enabled, Serves, Answers, ThreadOf;
    CallMade(s, call);
    RunServes(Do(s, call), mid, s', call, |s.events|);
    assert ([call] + mid)[0] == call && ([call] + mid)[1..] == mid;
    assert Runs(s, [call] + mid, s');
    hide Runs;
    JoinRuns(Init(buckets), prefix, s, [call] + mid, s');
    ReturnsWhatItServes(buckets, prefix + ([call] + mid), s', call, s.events);
  }

  // ----- every operation takes effect once -----

  /** Called, and not yet in the log. */
  predicate Pending(x: Thread) {
    x.WantLatch? || x.InsertAt? || x.Built? || x.Found? || x.ReadStart? || x.ReadAt? || x.ReadPast? || x.ReadHit?
  }

  ghost function PendingThreads(s: Index): set<ThreadId> {
    set t | t in s.threads && Pending(s.threads[t])
  }

  function CallCount(steps: seq<Step>): nat {
    if steps == [] then 0 else (if IsCall(steps[0]) then 1 else 0) + CallCount(steps[1..])
  }

  lemma {:induction false} StepEvents(s: Index, a: Step)
    requires Enabled(s, a)
    ensures var x, y := ThreadOf(s, a.t), ThreadOf(Do(s, a), a.t);
            && Do(s, a).threads == s.threads[a.t := y]
            && |Do(s, a).events| == |s.events| + (if Pending(x) && !Pending(y) then 1 else 0)
            && (IsCall(a) <==> !Pending(x) && Pending(y))
  {}

  lemma {:induction false} StepTakesEffect(s: Index, a: Step)
    requires Enabled(s, a)
    ensures |Do(s, a).events| + |PendingThreads(Do(s, a))| == |s.events| + |PendingThreads(s)| + if IsCall(a) then 1 else 0
  {
    hide Do, Enabled, IsCall;
    StepEvents(s, a);
    var y := ThreadOf(Do(s, a), a.t);
    var p, q := PendingThreads(s), PendingThreads(Do(s, a));
    assert a.t in p <==> Pending(ThreadOf(s, a.t));
    hide Pending;
    assert q == if Pending(y) then p + {a.t} else p - {a.t};
  }

  /** Calls and events balance: an operation adds one event, once, and nothing else does. */
  lemma {:induction false} EveryCallTakesEffectOnce(s: Index, steps: seq<Step>, s': Index)
    requires Runs(s, steps, s')
    ensures |s'.events| + |PendingThreads(s')| == |s.events| + |PendingThreads(s)| + CallCount(steps)
    decreases |steps|
  {
    hide Enabled, Do, PendingThreads;
    if steps != [] {
      StepTakesEffect(s, steps[0]);
      EveryCallTakesEffectOnce(Do(s, steps[0]), steps[1..], s');
    }
  }

  // ----- a latch has an owner that can move -----

  ghost predicate HeldIn(s: Index, b: nat)
    requires |s.chains| > 0
  {
    exists t :: t in s.threads && HoldsLatch(s.threads[t]) && s.threads[t].key % |s.chains| == b
  }

  ghost predicate LatchesHeld(s: Index) {
    |s.chains| == |s.latch| > 0 && forall b :: 0 <= b < |s.latch| && s.latch[b] ==> HeldIn(s, b)
  }

  /** The latches after a step: GetLatch sets the thread's own, ReleaseLatch clears it. */
  lemma {:induction false} StepLatch(s: Index, a: Step)
    requires Enabled(s, a) && |s.chains| == |s.latch|
    ensures var s' := Do(s, a); var x, y := ThreadOf(s, a.t), ThreadOf(s', a.t);
            && |s'.chains| == |s.chains| && |s'.latch| == |s.latch|
            && s'.threads == s.threads[a.t := y]
            && s'.latch == (if a.GetLatch? then s.latch[x.key % |s.chains| := true]
                            else if a.ReleaseLatch? then s.latch[x.key % |s.chains| := false] else s.latch)
            && (HoldsLatch(x) && !a.ReleaseLatch? ==> HoldsLatch(y) && y.key == x.key)
            && (a.GetLatch? ==> HoldsLatch(y) && y.key == x.key)
  {}

  lemma {:induction false} StepLatchesHeld(s: Index, a: Step)
    requires Enabled(s, a) && LatchesHeld(s)
    ensures LatchesHeld(Do(s, a))
  {
    var s' := Do(s, a);
    StepLatch(s, a);
    hide Do, Enabled, HoldsLatch;
    forall b | 0 <= b < |s'.latch| && s'.latch[b] ensures HeldIn(s', b) {
      if a.GetLatch? && b == ThreadOf(s, a.t).key % |s.chains| {
        assert s'.threads[a.t].key % |s'.chains| == b;
      } else {
        assert HeldIn(s, b);
        var t :| t in s.threads && HoldsLatch(s.threads[t]) && s.threads[t].key % |s.chains| == b;
        assert t in s'.threads && HoldsLatch(s'.threads[t]) && s'.threads[t].key == s.threads[t].key;
      }
    }
  }

  lemma {:induction false} RunLatchesHeld(s: Index, steps: seq<Step>, s': Index)
    requires LatchesHeld(s) && Runs(s, steps, s')
    ensures LatchesHeld(s')
    decreases |steps|
  {
    hide LatchesHeld, Do, Enabled;
    if steps != [] {
      StepLatchesHeld(s, steps[0]);
      RunLatchesHeld(Do(s, steps[0]), steps[1..], s');
    }
  }

  /** An inserter that cannot take its latch waits for another inserter that can move. */
  lemma {:induction false} WaitsForAMover(buckets: nat, steps: seq<Step>, s: Index, t: ThreadId, n: NodeId)
    requires buckets > 0 && Runs(Init(buckets), steps, s) && n !in s.nodes
    requires t in s.threads && s.threads[t].WantLatch? && !Enabled(s, GetLatch(t))
    ensures exists u :: u in s.threads && u != t && HoldsLatch(s.threads[u]) && Enabled(s, NextOf(u, s.threads[u], n))
  {
    assert LatchesHeld(Init(buckets));
    RunLatchesHeld(Init(buckets), steps, s);
    InitInv(buckets);
    RunInv(Init(buckets), steps, s);
    hide Runs;
    var b := s.threads[t].key % |s.chains|;
    assert HeldIn(s, b) by {
      hide LegalLog, ThreadsOk, Exclusive, BucketOk, HasNode, Contents;
    }
    hide Inv, Enabled;
    var u :| u in s.threads && HoldsLatch(s.threads[u]) && s.threads[u].key % |s.chains| == b;
    OnlyLatchesBlock(buckets, steps, s, u, n);
  }
}
