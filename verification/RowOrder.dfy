/** Row identities and the order in which a committer latches rows.

    A row is named by its table and its primary key.  `OptCC::validate` compares table
    names with `strcmp` first and primary keys second. */
module RowOrder {

  datatype RowId = RowId(table: string, key: nat)

  /** The sign of C's `strcmp` on NUL-free strings. */
  function StrCmp(a: string, b: string): (c: int)
    ensures -1 <= c <= 1
  {
    if a == [] then (if b == [] then 0 else -1)
    else if b == [] then 1
    else if a[0] < b[0] then -1
    else if b[0] < a[0] then 1
    else StrCmp(a[1..], b[1..])
  }

  /** The condition under which the sort swaps two neighbours. */
  predicate OutOfOrder(a: RowId, b: RowId) {
    var tabcmp := StrCmp(a.table, b.table);
    tabcmp > 0 || (tabcmp == 0 && a.key > b.key)
  }

  /** `a` is latched strictly before `b`. */
  predicate Before(a: RowId, b: RowId) {
    OutOfOrder(b, a)
  }

  predicate StrictlySorted(order: seq<RowId>) {
    forall i, j {:trigger Before(order[i], order[j])} :: 0 <= i < j < |order| ==> Before(order[i], order[j])
  }

  lemma {:induction false} StrCmpAntisymmetric(a: string, b: string)
    ensures StrCmp(a, b) == -StrCmp(b, a)
    decreases |a|
  {
    if a != [] && b != [] {
      StrCmpAntisymmetric(a[1..], b[1..]);
    }
  }

  lemma {:induction false} StrCmpZero(a: string, b: string)
    ensures StrCmp(a, b) == 0 <==> a == b
    decreases |a|
  {
    if a != [] && b != [] {
      StrCmpZero(a[1..], b[1..]);
      assert a == [a[0]] + a[1..] && b == [b[0]] + b[1..];
    }
  }

  lemma {:induction false} StrCmpTransitive(a: string, b: string, c: string)
    requires StrCmp(a, b) <= 0 && StrCmp(b, c) <= 0
    ensures StrCmp(a, c) <= 0
    ensures StrCmp(a, b) < 0 || StrCmp(b, c) < 0 ==> StrCmp(a, c) < 0
    decreases |a|
  {
    if a != [] && b != [] && c != [] && a[0] == b[0] == c[0] {
      StrCmpTransitive(a[1..], b[1..], c[1..]);
    }
  }

  /** The latching order is a strict total order on row identities. */
  lemma {:induction false} BeforeIrreflexive(a: RowId)
    ensures !Before(a, a)
  {
    StrCmpZero(a.table, a.table);
  }

  lemma {:induction false} BeforeTransitive(a: RowId, b: RowId, c: RowId)
    requires Before(a, b) && Before(b, c)
    ensures Before(a, c)
  {
    StrCmpAntisymmetric(a.table, b.table);
    StrCmpAntisymmetric(b.table, c.table);
    StrCmpAntisymmetric(a.table, c.table);
    StrCmpTransitive(a.table, b.table, c.table);
  }

  lemma {:induction false} BeforeTotal(a: RowId, b: RowId)
    ensures Before(a, b) || a == b || Before(b, a)
  {
    StrCmpAntisymmetric(a.table, b.table);
    StrCmpZero(a.table, b.table);
  }

  lemma {:induction false} SortedDistinct(order: seq<RowId>, i: nat, j: nat)
    requires StrictlySorted(order)
    requires i < j < |order|
    ensures order[i] != order[j]
  {
    assert Before(order[i], order[j]);
    BeforeIrreflexive(order[i]);
  }

  /** `a` comes first in a dictionary: at the first difference it ends or has the smaller
      character. */
  ghost predicate LexLess(a: string, b: string) {
    exists k :: DiffersAt(a, b, k) && (k == |a| || (k < |b| && a[k] < b[k]))
  }

  ghost predicate DiffersAt(a: string, b: string, k: int) {
    && 0 <= k <= |a| && k <= |b| && a[..k] == b[..k]
    && (k < |a| || k < |b|) && (k < |a| && k < |b| ==> a[k] != b[k])
  }

  lemma {:induction false} StrCmpMeans(a: string, b: string)
    ensures StrCmp(a, b) < 0 <==> LexLess(a, b)
    decreases |a|
  {
    if a != [] && b != [] && a[0] == b[0] {
      StrCmpMeans(a[1..], b[1..]);
      if LexLess(a[1..], b[1..]) {
        var k :| DiffersAt(a[1..], b[1..], k) && (k == |a| - 1 || (k < |b| - 1 && a[1..][k] < b[1..][k]));
        assert a[..k + 1] == [a[0]] + a[1..][..k] && b[..k + 1] == [b[0]] + b[1..][..k];
        assert DiffersAt(a, b, k + 1);
      }
      if LexLess(a, b) {
        var k :| DiffersAt(a, b, k) && (k == |a| || (k < |b| && a[k] < b[k]));
        assert a[1..][..k - 1] == a[..k][1..] && b[1..][..k - 1] == b[..k][1..];
        assert DiffersAt(a[1..], b[1..], k - 1);
      }
    } else if LexLess(a, b) {
      var k :| DiffersAt(a, b, k) && (k == |a| || (k < |b| && a[k] < b[k]));
      assert a[..k] == b[..k];
    } else {
      assert DiffersAt(a, b, 0) || a == b == [];
    }
  }

  /** The latching order: by table name as in a dictionary, then by primary key. */
  lemma {:induction false} BeforeMeans(a: RowId, b: RowId)
    ensures Before(a, b) <==> LexLess(a.table, b.table) || (a.table == b.table && a.key < b.key)
  {
    StrCmpAntisymmetric(a.table, b.table);
    StrCmpZero(a.table, b.table);
    StrCmpMeans(a.table, b.table);
  }
}
