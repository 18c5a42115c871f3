/** The in-place bubble sort at the head of `OptCC::validate`. */
module OccSort {
  import opened RowOrder
  import opened OccRowApi

  /** One slot of the access set. */
  class Access<V> {
    var wr: bool
    var row: RowId
    var data: Option<V>

    constructor ()
      ensures !wr && data == None
    {
      wr := false;
      row := RowId("", 0);
      data := None;
    }
  }

  predicate AtMost(a: RowId, b: RowId) {
    !OutOfOrder(a, b)
  }

  lemma {:induction false} AtMostTransitive(a: RowId, b: RowId, c: RowId)
    requires AtMost(a, b) && AtMost(b, c)
    ensures AtMost(a, c)
  {
    BeforeTotal(a, b);
    BeforeTotal(b, c);
    if Before(a, b) && Before(b, c) {
      BeforeTransitive(a, b, c);
    }
    if OutOfOrder(a, c) && a != b && b != c {
      BeforeTransitive(c, a, b);
      BeforeIrreflexive(c);
      BeforeTransitive(c, b, c);
    }
  }

  /** The first `n` slots are in use and pairwise different objects. */
  ghost predicate InUse<V>(a: array<Access?<V>>, n: nat)
    reads a
  {
    && n <= a.Length
    && (forall i :: 0 <= i < n ==> a[i] != null)
    && (forall i, j :: 0 <= i < j < n ==> a[i] != a[j])
  }

  /** Slots k < hi are all at most slot hi. */
  ghost predicate TopAt<V>(a: array<Access?<V>>, m: nat, n: nat, hi: int)
    requires InUse(a, m) && n <= m
    reads a, a[..]
  {
    0 <= hi < n && forall k :: 0 <= k < hi ==> AtMost(a[k].row, a[hi].row)
  }

  /** From slot `lo` on, every slot is at least every slot before it. */
  ghost predicate SettledFrom<V>(a: array<Access?<V>>, m: nat, n: nat, lo: int)
    requires InUse(a, m) && n <= m
    reads a, a[..]
  {
    forall k, l :: 0 <= k < l < n && lo <= l ==> AtMost(a[k].row, a[l].row)
  }

  method Swap<V>(a: array<Access?<V>>, m: nat, n: nat, j: nat)
    requires InUse(a, m) && n <= m && j + 1 < n
    modifies a
    ensures InUse(a, m)
    ensures a[j] == old(a[j + 1]) && a[j + 1] == old(a[j])
    ensures forall k :: 0 <= k < a.Length && k != j && k != j + 1 ==> a[k] == old(a[k])
    ensures multiset(a[..n]) == multiset(old(a[..n]))
  {
    ghost var before := a[..n];
    a[j], a[j + 1] := a[j + 1], a[j];
    assert a[..n] == before[j := before[j + 1]][j + 1 := before[j]];
  }

  /** One pass: the largest of slots 0..hi ends up in slot hi. */
  method Pass<V>(a: array<Access?<V>>, m: nat, n: nat, hi: nat)
    requires InUse(a, m) && n <= m && 0 < hi < n && SettledFrom(a, m, n, hi + 1)
    modifies a
    ensures InUse(a, m) && SettledFrom(a, m, n, hi)
    ensures multiset(a[..n]) == multiset(old(a[..n])) && a[n..] == old(a[n..])
  {
    var j := 0;
    while j < hi
      invariant 0 <= j <= hi
      invariant InUse(a, m) && TopAt(a, m, n, j) && SettledFrom(a, m, n, hi + 1)
      invariant multiset(a[..n]) == multiset(old(a[..n])) && a[n..] == old(a[n..])
    {
      PassStep(a, m, n, hi, j);
      j := j + 1;
    }
    assert SettledFrom(a, m, n, hi) by {
      forall k, l | 0 <= k < l < n && hi <= l ensures AtMost(a[k].row, a[l].row) {
        if l == hi {
          assert TopAt(a, m, n, hi);
        }
      }
    }
  }

  method PassStep<V>(a: array<Access?<V>>, m: nat, n: nat, hi: nat, j: nat)
    requires InUse(a, m) && n <= m && j < hi < n && TopAt(a, m, n, j) && SettledFrom(a, m, n, hi + 1)
    modifies a
    ensures InUse(a, m) && TopAt(a, m, n, j + 1) && SettledFrom(a, m, n, hi + 1)
    ensures multiset(a[..n]) == multiset(old(a[..n])) && a[n..] == old(a[n..])
  {
    hide OutOfOrder;
    ghost var was := a[..];
    if OutOfOrder(a[j].row, a[j + 1].row) {
      Swap(a, m, n, j);
      BeforeAsym(a[j].row, a[j + 1].row);
      assert a[n..] == was[n..];
    } else {
      forall k | 0 <= k < j + 1 ensures AtMost(a[k].row, a[j + 1].row) {
        if k < j {
          AtMostTransitive(a[k].row, a[j].row, a[j + 1].row);
        }
      }
    }
  }

  lemma {:induction false} BeforeAsym(a: RowId, b: RowId)
    requires OutOfOrder(b, a)
    ensures AtMost(a, b)
  {
    if OutOfOrder(a, b) {
      BeforeTransitive(a, b, a);
      BeforeIrreflexive(a);
    }
  }

  /** The sort: a permutation of the first `n` slots in ascending row order. */
  method Sort<V>(a: array<Access?<V>>, m: nat, n: nat)
    requires InUse(a, m) && n <= m
    modifies a
    ensures InUse(a, m)
    ensures forall i, j :: 0 <= i < j < n ==> AtMost(a[i].row, a[j].row)
    ensures multiset(a[..n]) == multiset(old(a[..n])) && a[n..] == old(a[n..])
  {
    var i := n - 1;
    while i > 0
      invariant -1 <= i < n || n == 0
      invariant n > 0 ==> 0 <= i
      invariant InUse(a, m) && SettledFrom(a, m, n, i + 1)
      invariant multiset(a[..n]) == multiset(old(a[..n])) && a[n..] == old(a[n..])
    {
      Pass(a, m, n, i);
      i := i - 1;
    }
  }
}
