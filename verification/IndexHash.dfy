/** The chained hash index as linked objects, called by one thread at a time. */
module IndexHash {

  /** An index item (`itemid_t`), known by its identity. */
  type Item = nat

  datatype Option<+T> = None | Some(value: T)

  /** What a node shows: its key and the newest item of that key. */
  datatype Entry = Entry(key: nat, item: Item)

  /** `m` after inserting `item` under `key`: the newest item comes first. */
  function Inserted(m: map<nat, seq<Item>>, key: nat, item: Item): map<nat, seq<Item>> {
    m[key := [item] + if key in m then m[key] else []]
  }

  /** The multimap after the inserts of `log`, oldest first. */
  function Built(log: seq<(nat, Item)>): map<nat, seq<Item>> {
    if log == [] then map[]
    else
      var (key, item) := log[|log| - 1];
      Inserted(Built(log[..|log| - 1]), key, item)
  }

  lemma {:induction false} BuiltLast(log: seq<(nat, Item)>, key: nat, item: Item)
    ensures Built(log + [(key, item)]) == Inserted(Built(log), key, item)
  {
    assert (log + [(key, item)])[..|log|] == log;
  }

  /** Entry `i` of the log is the last insert under `key`. */
  ghost predicate LastInsert(log: seq<(nat, Item)>, key: nat, i: int) {
    && 0 <= i < |log| && log[i].0 == key
    && forall j :: i < j < |log| ==> log[j].0 != key
  }

  lemma {:induction false} NewestIsLastInsert(log: seq<(nat, Item)>, key: nat)
    ensures key in Built(log) ==> Built(log)[key] != [] && exists i :: LastInsert(log, key, i)
    ensures forall i :: LastInsert(log, key, i) ==>
              key in Built(log) && Built(log)[key] != [] && Built(log)[key][0] == log[i].1
  {
    if log != [] {
      var n := |log| - 1;
      var before := log[..n];
      NewestIsLastInsert(before, key);
      if log[n].0 == key {
        assert LastInsert(log, key, n);
      } else {
        forall i | 0 <= i < n ensures LastInsert(log, key, i) <==> LastInsert(before, key, i) {
          assert forall j :: 0 <= j < n ==> before[j] == log[j];
        }
      }
    }
  }

  /** The entries of one bucket: one per key, in the bucket its hash names. */
  ghost predicate BucketStores(entries: seq<Entry>, b: nat, cnt: nat, m: map<nat, seq<Item>>) {
    && cnt > 0
    && (forall i, j :: 0 <= i < j < |entries| ==> entries[i].key != entries[j].key)
    && (forall i :: 0 <= i < |entries| ==> EntryOk(entries[i], b, cnt, m))
  }

  ghost predicate EntryOk(e: Entry, b: nat, cnt: nat, m: map<nat, seq<Item>>)
    requires cnt > 0
  {
    e.key % cnt == b && e.key in m && m[e.key] != [] && e.item == m[e.key][0]
  }

  ghost predicate HasKey(entries: seq<Entry>, key: nat) {
    exists i :: 0 <= i < |entries| && entries[i].key == key
  }

  /** The table is the multimap `m`. */
  ghost predicate Stores(table: seq<seq<Entry>>, m: map<nat, seq<Item>>) {
    && |table| > 0
    && (forall b :: 0 <= b < |table| ==> BucketStores(table[b], b, |table|, m))
    && (forall k :: k in m ==> HasKey(table[k % |table|], k))
  }

  /** A key passed by the whole walk is not stored; a key met is stored as shown. */
  lemma {:induction false} WalkAnswers(table: seq<seq<Entry>>, m: map<nat, seq<Item>>, key: nat, i: nat)
    requires Stores(table, m) && i <= |table[key % |table|]|
    requires forall j :: 0 <= j < i ==> table[key % |table|][j].key != key
    requires i < |table[key % |table|]| ==> table[key % |table|][i].key == key
    ensures i == |table[key % |table|]| ==> key !in m
    ensures i < |table[key % |table|]| ==> key in m && m[key] != [] && m[key][0] == table[key % |table|][i].item
  {
    var b := key % |table|;
    assert BucketStores(table[b], b, |table|, m);
    if i < |table[b]| {
      assert EntryOk(table[b][i], b, |table|, m);
    } else {
      assert key in m ==> HasKey(table[b], key);
    }
  }

  lemma {:induction false} StoresAppend(table: seq<seq<Entry>>, m: map<nat, seq<Item>>, key: nat, item: Item)
    requires Stores(table, m) && key !in m
    ensures
      var b := key % |table|;
      Stores(table[b := table[b] + [Entry(key, item)]], Inserted(m, key, item))
  {
    var b := key % |table|;
    var table' := table[b := table[b] + [Entry(key, item)]];
    var m' := Inserted(m, key, item);
    forall c | 0 <= c < |table'| ensures BucketStores(table'[c], c, |table'|, m') {
      assert BucketStores(table[c], c, |table|, m);
      forall i | 0 <= i < |table'[c]| ensures EntryOk(table'[c][i], c, |table'|, m') {
        if i < |table[c]| {
          assert EntryOk(table[c][i], c, |table|, m);
        }
      }
    }
    forall k | k in m' ensures HasKey(table'[k % |table'|], k) {
      if k == key {
        assert table'[b][|table[b]|].key == k;
      } else {
        assert HasKey(table[k % |table|], k);
        var i :| 0 <= i < |table[k % |table|]| && table[k % |table|][i].key == k;
        assert table'[k % |table|][i].key == k;
      }
    }
  }

  lemma {:induction false} StoresPush(table: seq<seq<Entry>>, m: map<nat, seq<Item>>, key: nat, item: Item, i: nat)
    requires Stores(table, m) && i < |table[key % |table|]| && table[key % |table|][i].key == key
    ensures
      var b := key % |table|;
      Stores(table[b := table[b][i := Entry(key, item)]], Inserted(m, key, item))
  {
    var b := key % |table|;
    var table' := table[b := table[b][i := Entry(key, item)]];
    var m' := Inserted(m, key, item);
    forall c | 0 <= c < |table'| ensures BucketStores(table'[c], c, |table'|, m') {
      assert BucketStores(table[c], c, |table|, m);
      forall j | 0 <= j < |table'[c]| ensures EntryOk(table'[c][j], c, |table'|, m') {
        assert EntryOk(table[c][j], c, |table|, m);
      }
    }
    forall k | k in m' ensures HasKey(table'[k % |table'|], k) {
      if k == key {
        assert table'[b][i].key == k;
      } else {
        assert HasKey(table[k % |table|], k);
        var j :| 0 <= j < |table[k % |table|]| && table[k % |table|][j].key == k;
        assert table'[k % |table|][j].key == k;
      }
    }
  }

  class BucketNode {
    const key: nat
    var next: BucketNode?
    var items: Item

    constructor (k: nat, i: Item)
      ensures key == k && items == i && next == null
    {
      key := k;
      items := i;
      next := null;
    }
  }

  /** `spine` lists the nodes linked from `first`, in order. */
  ghost predicate Chain(first: BucketNode?, spine: seq<BucketNode>)
    reads spine
  {
    && (first == if spine == [] then null else spine[0])
    && (forall i {:trigger spine[i].next} :: 0 <= i < |spine| ==>
          spine[i].next == if i + 1 < |spine| then spine[i + 1] else null)
  }

  ghost function Entries(spine: seq<BucketNode>): (entries: seq<Entry>)
    reads spine
    ensures |entries| == |spine|
    ensures forall i :: 0 <= i < |spine| ==> entries[i] == Entry(spine[i].key, spine[i].items)
  {
    seq(|spine|, i requires 0 <= i < |spine| reads spine => Entry(spine[i].key, spine[i].items))
  }

  ghost function NodesOf(spines: seq<seq<BucketNode>>): set<BucketNode> {
    set b, i | 0 <= b < |spines| && 0 <= i < |spines[b]| :: spines[b][i]
  }

  ghost function TableOf(spines: seq<seq<BucketNode>>): (table: seq<seq<Entry>>)
    reads NodesOf(spines)
    ensures |table| == |spines|
    ensures forall b :: 0 <= b < |spines| ==> table[b] == Entries(spines[b])
  {
    seq(|spines|, b requires 0 <= b < |spines| reads NodesOf(spines) => Entries(spines[b]))
  }

  /** `BucketHeader::read_item`, on the chain that starts at `first`. */
  method ReadItem(first: BucketNode?, ghost spine: seq<BucketNode>, key: nat) returns (item: Option<Item>, ghost i: nat)
    requires Chain(first, spine)
    ensures i <= |spine| && forall j :: 0 <= j < i ==> spine[j].key != key
    ensures i < |spine| ==> spine[i].key == key
    ensures item == if i < |spine| then Some(spine[i].items) else None
  {
    var cur := first;
    i := 0;
    while cur != null
      invariant 0 <= i <= |spine|
      invariant cur == if i < |spine| then spine[i] else null
      invariant forall j :: 0 <= j < i ==> spine[j].key != key
      decreases |spine| - i
    {
      if cur.key == key {
        return Some(cur.items), i;
      }
      cur := cur.next;
      i := i + 1;
    }
    item := None;
  }

  /** The walk of `insert_item`: the node of `key` and the node before it. */
  method FindNode(first: BucketNode?, ghost spine: seq<BucketNode>, key: nat)
    returns (cur: BucketNode?, prev: BucketNode?, ghost i: nat)
    requires Chain(first, spine)
    ensures i <= |spine| && forall j :: 0 <= j < i ==> spine[j].key != key
    ensures cur == if i < |spine| then spine[i] else null
    ensures prev == if i > 0 then spine[i - 1] else null
    ensures cur != null ==> cur.key == key
  {
    cur := first;
    prev := null;
    i := 0;
    while cur != null
      invariant 0 <= i <= |spine|
      invariant cur == if i < |spine| then spine[i] else null
      invariant prev == if i > 0 then spine[i - 1] else null
      invariant forall j :: 0 <= j < i ==> spine[j].key != key
      decreases |spine| - i
    {
      if cur.key == key {
        break;
      }
      prev := cur;
      cur := cur.next;
      i := i + 1;
    }
  }

  /** `IndexHash` with one partition: bucket headers are slots of `first` and `locked`.
      `contents` is the multimap the index implements. */
  class HashIndex {
    const first: array<BucketNode?>
    const locked: array<bool>
    ghost var spines: seq<seq<BucketNode>>
    ghost var contents: map<nat, seq<Item>>
    ghost var log: seq<(nat, Item)>

    ghost function Nodes(): set<BucketNode>
      reads this`spines
    {
      NodesOf(spines)
    }

    ghost predicate Shape()
      reads this`spines
    {
      first.Length == locked.Length == |spines| > 0
    }

    ghost function Table(): (table: seq<seq<Entry>>)
      reads this`spines, Nodes()
      ensures |table| == |spines|
      ensures forall b :: 0 <= b < |spines| ==> table[b] == Entries(spines[b])
    {
      TableOf(spines)
    }

    /** The linked structure holds `contents`. */
    ghost predicate Holds()
      reads this`spines, this`contents, first, Nodes()
    {
      && Shape()
      && (forall b :: 0 <= b < |spines| ==> Chain(first[b], spines[b]))
      && Stores(Table(), contents)
    }

    /** And no bucket is latched. */
    ghost predicate Valid()
      reads this, first, locked, Nodes()
    {
      Holds() && contents == Built(log) && forall b :: 0 <= b < locked.Length ==> !locked[b]
    }

    /** `IndexHash::init`. */
    constructor (bucketCnt: nat)
      requires bucketCnt > 0
      ensures Valid() && log == [] && contents == map[] && first.Length == bucketCnt
    {
      first := new BucketNode?[bucketCnt](_ => null);
      locked := new bool[bucketCnt](_ => false);
      spines := seq(bucketCnt, _ => []);
      contents := map[];
      log := [];
    }

    /** `IndexHash::index_read`: the item inserted last under the key, or none. */
    method IndexRead(key: nat) returns (item: Option<Item>)
      requires Valid()
      ensures item == if key in contents && contents[key] != [] then Some(contents[key][0]) else None
      ensures forall i :: LastInsert(log, key, i) ==> item == Some(log[i].1)
      ensures item.Some? ==> exists i :: LastInsert(log, key, i)
    {
      var b := key % first.Length;
      ghost var i;
      item, i := ReadItem(first[b], spines[b], key);
      WalkAnswers(Table(), contents, key, i);
      NewestIsLastInsert(log, key);
      hide Built;
    }

    /** A node sits in one chain only, at one place: its key says where. */
    lemma {:induction false} NodeOnce(b: nat, i: nat, c: nat, j: nat)
      requires |spines| > 0 && Stores(Table(), contents)
      requires b < |spines| && i < |spines[b]| && c < |spines| && j < |spines[c]| && (b != c || i != j)
      ensures spines[b][i] != spines[c][j]
    {
      var table := Table();
      assert BucketStores(table[b], b, |table|, contents) && BucketStores(table[c], c, |table|, contents);
      assert EntryOk(table[b][i], b, |table|, contents) && EntryOk(table[c][j], c, |table|, contents);
    }

    /** The existing-key branch of `insert_item`. */
    method Push(key: nat, item: Item, cur: BucketNode, ghost i: nat)
      requires Holds() && i < |spines[key % |spines|]| && spines[key % |spines|][i] == cur && cur.key == key
      modifies this`contents, cur`items
      ensures Holds() && contents == Inserted(old(contents), key, item)
    {
      hide Stores;
      ghost var b := key % |spines|;
      ghost var table := Table();
      StoresPush(table, contents, key, item, i);
      forall c, j | 0 <= c < |spines| && 0 <= j < |spines[c]| && (c != b || j != i) ensures spines[c][j] != cur {
        NodeOnce(b, i, c, j);
      }
      cur.items := item;
      contents := Inserted(contents, key, item);
      assert Table() == table[b := table[b][i := Entry(key, item)]] by {
        forall c | 0 <= c < |spines| ensures Table()[c] == table[b := table[b][i := Entry(key, item)]][c] {
          assert Table()[c] == Entries(spines[c]);
        }
      }
    }

    /** Hook a fully built node to the end of bucket `b`. */
    method Hook(b: nat, node: BucketNode, prev: BucketNode?)
      requires Shape() && b < |spines| && node !in Nodes()
      requires forall c :: 0 <= c < |spines| ==> Chain(first[c], spines[c])
      requires prev == if spines[b] == [] then null else spines[b][|spines[b]| - 1]
      requires forall c, j :: 0 <= c < |spines| && 0 <= j < |spines[c]| && (c != b || j != |spines[b]| - 1) ==> spines[c][j] != prev
      modifies this`spines, first, Nodes(), node`next
      ensures Shape() && spines == old(spines)[b := old(spines)[b] + [node]]
      ensures forall c :: 0 <= c < |spines| ==> Chain(first[c], spines[c])
      ensures node.items == old(node.items)
      ensures forall c, j :: 0 <= c < |old(spines)| && 0 <= j < |old(spines)[c]| ==>
                old(spines)[c][j].items == old(spines[c][j].items)
    {
      ghost var was: seq<seq<BucketNode>> := spines;
      assert forall c, j :: 0 <= c < |spines| && 0 <= j < |spines[c]| ==> spines[c][j] in Nodes();
      assert prev != null ==> prev.next == null;
      if prev != null {
        node.next := prev.next;
        prev.next := node;
      } else {
        node.next := first[b];
        first[b] := node;
      }
      spines := spines[b := spines[b] + [node]];
      forall c | 0 <= c < |spines| ensures Chain(first[c], spines[c]) {
        assert old(Chain(first[c], spines[c]));
        forall i {:trigger spines[c][i].next} | 0 <= i < |spines[c]|
          ensures spines[c][i].next == if i + 1 < |spines[c]| then spines[c][i + 1] else null
        {
          if i < |was[c]| {
            assert old(was[c][i].next) == if i + 1 < |was[c]| then was[c][i + 1] else null;
          }
        }
      }
    }

    /** Hooking adds one entry to the table. */
    method Link(b: nat, node: BucketNode, prev: BucketNode?)
      requires Shape() && b < |spines| && node !in Nodes()
      requires forall c :: 0 <= c < |spines| ==> Chain(first[c], spines[c])
      requires prev == if spines[b] == [] then null else spines[b][|spines[b]| - 1]
      requires forall c, j :: 0 <= c < |spines| && 0 <= j < |spines[c]| && (c != b || j != |spines[b]| - 1) ==> spines[c][j] != prev
      modifies this`spines, first, Nodes(), node`next
      ensures Shape() && |spines| == |old(spines)|
      ensures forall c :: 0 <= c < |spines| ==> Chain(first[c], spines[c])
      ensures Table() == old(Table())[b := old(Table())[b] + [Entry(node.key, old(node.items))]]
      ensures Nodes() == old(Nodes()) + {node}
    {
      hide Chain;
      ghost var table := Table();
      Hook(b, node, prev);
      ghost var grown := table[b := table[b] + [Entry(node.key, node.items)]];
      forall c | 0 <= c < |spines| ensures Table()[c] == grown[c] {
        assert Table()[c] == Entries(spines[c]);
      }
      NodesGrow(old(spines), b, node);
    }

    lemma {:induction false} NodesGrow(was: seq<seq<BucketNode>>, b: nat, node: BucketNode)
      requires b < |was| && spines == was[b := was[b] + [node]]
      ensures Nodes() == NodesOf(was) + {node}
    {
      var before := NodesOf(was);
      forall n | n in before ensures n in Nodes() {
        var c, i :| 0 <= c < |was| && 0 <= i < |was[c]| && was[c][i] == n;
        assert spines[c][i] == n;
      }
      assert spines[b][|was[b]|] == node;
      forall n | n in Nodes() ensures n in before + {node} {
        var c, i :| 0 <= c < |spines| && 0 <= i < |spines[c]| && spines[c][i] == n;
        assert i < |was[c]| ==> was[c][i] == n;
      }
    }

    lemma {:induction false} LastOnce(b: nat)
      requires |spines| > 0 && Stores(Table(), contents) && b < |spines|
      ensures forall c, j :: 0 <= c < |spines| && 0 <= j < |spines[c]| && (c != b || j != |spines[b]| - 1) ==>
                spines[b] == [] || spines[c][j] != spines[b][|spines[b]| - 1]
    {
      hide Stores;
      forall c, j | 0 <= c < |spines| && 0 <= j < |spines[c]| && (c != b || j != |spines[b]| - 1) && spines[b] != []
        ensures spines[c][j] != spines[b][|spines[b]| - 1]
      {
        NodeOnce(b, |spines[b]| - 1, c, j);
      }
    }

    /** The new-key branch of `insert_item`: build the node, then hook it to the end. */
    method Append(key: nat, item: Item, prev: BucketNode?)
      requires Holds() && key !in contents
      requires var spine := spines[key % |spines|]; prev == if spine == [] then null else spine[|spine| - 1]
      modifies this`spines, this`contents, first, Nodes()
      ensures Holds() && contents == Inserted(old(contents), key, item)
    {
      hide Stores, Chain, Entries;
      var b := key % first.Length;
      StoresAppend(Table(), contents, key, item);
      LastOnce(b);
      var node := new BucketNode(key, item);
      Link(b, node, prev);
      contents := Inserted(contents, key, item);
    }

    /** `BucketHeader::insert_item`. */
    method InsertItem(key: nat, item: Item)
      requires Holds() && contents == Built(log)
      modifies this`spines, this`contents, this`log, first, Nodes()
      ensures Holds() && contents == Inserted(old(contents), key, item)
      ensures log == old(log) + [(key, item)] && contents == Built(log)
    {
      hide Stores, Entries;
      var b := key % first.Length;
      var cur, prev, i := FindNode(first[b], spines[b], key);
      Walked(key, i);
      if cur == null {
        Append(key, item, prev);
      } else {
        Push(key, item, cur, i);
      }
      LogInsert(key, item);
    }

    /** Note the insert that has just been made. */
    ghost method LogInsert(key: nat, item: Item)
      requires Holds() && contents == Inserted(Built(log), key, item)
      modifies this`log
      ensures Holds() && contents == Built(log) && log == old(log) + [(key, item)]
    {
      hide Stores;
      log := log + [(key, item)];
      BuiltLast(old(log), key, item);
      forall c | 0 <= c < |spines| ensures Chain(first[c], spines[c]) {
        assert old(Chain(first[c], spines[c]));
      }
      assert Table() == old(Table());
    }

    lemma {:induction false} Walked(key: nat, i: nat)
      requires |spines| > 0 && Stores(Table(), contents) && i <= |spines[key % |spines|]|
      requires forall j :: 0 <= j < i ==> spines[key % |spines|][j].key != key
      requires i < |spines[key % |spines|]| ==> spines[key % |spines|][i].key == key
      ensures i == |spines[key % |spines|]| ==> key !in contents
    {
      hide Stores;
      WalkAnswers(Table(), contents, key, i);
    }

    /** `get_latch` finding the bucket free, and `release_latch`: the chains are untouched. */
    method SetLatch(b: nat, taken: bool)
      requires Holds() && b < locked.Length
      modifies locked
      ensures Holds() && locked[..] == old(locked[..])[b := taken]
    {
      hide Stores;
      locked[b] := taken;
      forall c | 0 <= c < |spines| ensures Chain(first[c], spines[c]) {
        assert old(Chain(first[c], spines[c]));
      }
      assert Table() == old(Table());
    }

    /** `IndexHash::index_insert`: latch the bucket, insert, unlatch. */
    method IndexInsert(key: nat, item: Item)
      requires Valid()
      modifies this`spines, this`contents, this`log, first, locked, Nodes()
      ensures Valid() && contents == Inserted(old(contents), key, item) && log == old(log) + [(key, item)]
    {
      hide Stores, Chain, Entries;
      var b := key % first.Length;
      ghost var free := locked[..];
      assert forall c :: 0 <= c < |free| ==> !free[c];
      SetLatch(b, true);
      InsertItem(key, item);
      assert locked[..] == free[b := true];
      SetLatch(b, false);
      assert locked[..] == free;
      assert forall c :: 0 <= c < locked.Length ==> locked[c] == locked[..][c];
    }
  }
}
