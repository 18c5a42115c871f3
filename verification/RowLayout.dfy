/** Table schemas (`Catalog`) and rows as byte buffers (`row_t`).

    Column sizes and offsets are 32-bit unsigned; the arithmetic that lays the fields out
    wraps around, and the layout law says exactly when that is harmless. */
module RowLayout {
  const U32: nat := 0x1_0000_0000
  const INT_LIMIT: nat := 0x8000_0000

  type Byte = b: int | 0 <= b < 256

  /** What `add_col` is told about a column. */
  datatype Decl = Decl(name: string, size: nat, typ: string)

  datatype Column = Column(id: nat, size: nat, index: nat, typ: string, name: string)

  /** The columns built by adding `ds` one by one. */
  function Layout(ds: seq<Decl>): (cols: seq<Column>)
    ensures |cols| == |ds|
  {
    if ds == [] then []
    else
      var d := ds[|ds| - 1];
      Layout(ds[..|ds| - 1]) + [Column(|ds| - 1, d.size % U32, TupleSize(ds[..|ds| - 1]), d.typ, d.name)]
  }

  /** The running 32-bit sum of the sizes. */
  function TupleSize(ds: seq<Decl>): (n: nat)
    ensures n < U32
  {
    if ds == [] then 0 else (TupleSize(ds[..|ds| - 1]) + ds[|ds| - 1].size) % U32
  }

  /** The exact sum of the sizes. */
  function Sum(ds: seq<Decl>): nat {
    if ds == [] then 0 else Sum(ds[..|ds| - 1]) + ds[|ds| - 1].size
  }

  /** Every field has its declared size, lies in the tuple, and starts after the fields before it. */
  ghost predicate Disjoint(ds: seq<Decl>, cols: seq<Column>, total: nat)
    requires |cols| == |ds|
  {
    && (forall i :: 0 <= i < |cols| ==> cols[i].size == ds[i].size && cols[i].index + cols[i].size <= total)
    && (forall i, j :: 0 <= i < j < |cols| ==> cols[i].index + cols[i].size <= cols[j].index)
  }

  /** Every byte of the tuple belongs to a field. */
  ghost predicate Covered(cols: seq<Column>, total: nat) {
    forall p :: 0 <= p < total ==> Belongs(cols, p)
  }

  ghost predicate Belongs(cols: seq<Column>, p: nat) {
    exists i :: 0 <= i < |cols| && InField(cols[i], p)
  }

  predicate InField(c: Column, p: nat) {
    c.index <= p < c.index + c.size
  }

  ghost predicate Tiles(ds: seq<Decl>, cols: seq<Column>, total: nat)
    requires |cols| == |ds|
  {
    Disjoint(ds, cols, total) && Covered(cols, total)
  }

  lemma {:induction false} SumWraps(ds: seq<Decl>)
    ensures TupleSize(ds) == Sum(ds) % U32
  {
    if ds != [] {
      var rest := ds[..|ds| - 1];
      SumWraps(rest);
      WrapAdd(Sum(rest), ds[|ds| - 1].size);
    }
  }

  lemma {:induction false} WrapAdd(a: nat, b: nat)
    ensures (a % U32 + b) % U32 == (a + b) % U32
  {
    assert a == a / U32 * U32 + a % U32;
    var c := a % U32 + b;
    assert a + b == a / U32 * U32 + c;
  }

  /** Sizes that add up below 2^32 are tiled. */
  lemma {:induction false} SmallTiles(ds: seq<Decl>)
    requires Sum(ds) < U32
    ensures TupleSize(ds) == Sum(ds)
    ensures Tiles(ds, Layout(ds), Sum(ds))
  {
    SumWraps(ds);
    if ds != [] {
      var rest := ds[..|ds| - 1];
      SmallTiles(rest);
      var cols := Layout(ds);
      var last := cols[|ds| - 1];
      assert last.index == Sum(rest) && last.size == ds[|ds| - 1].size;
      assert forall i :: 0 <= i < |rest| ==> cols[i] == Layout(rest)[i] && ds[i] == rest[i];
      forall p | 0 <= p < Sum(ds) ensures Belongs(cols, p) {
        if p < Sum(rest) {
          assert Belongs(Layout(rest), p);
          var i :| 0 <= i < |Layout(rest)| && InField(Layout(rest)[i], p);
          assert InField(cols[i], p);
        } else {
          assert InField(last, p);
        }
      }
    }
  }

  /** Disjoint fields of the declared sizes need at least as much room as the sizes add up to. */
  lemma {:induction false} DisjointNeedsRoom(ds: seq<Decl>, cols: seq<Column>, total: nat, n: nat)
    requires |cols| == |ds| && Disjoint(ds, cols, total) && n <= |ds|
    ensures Sum(ds[..n]) <= total
    ensures n < |ds| ==> Sum(ds[..n]) <= cols[n].index
  {
    if n > 0 {
      DisjointNeedsRoom(ds, cols, total, n - 1);
      assert ds[..n][..n - 1] == ds[..n - 1];
    }
  }

  /** The fields tile the tuple exactly when the declared sizes add up below 2^32. */
  lemma {:induction false} LayoutTilesIff(ds: seq<Decl>)
    ensures Tiles(ds, Layout(ds), TupleSize(ds)) <==> Sum(ds) < U32
  {
    if Sum(ds) < U32 {
      SmallTiles(ds);
    }
    if Disjoint(ds, Layout(ds), TupleSize(ds)) {
      DisjointNeedsRoom(ds, Layout(ds), TupleSize(ds), |ds|);
      assert ds[..|ds|] == ds;
    }
  }

  class Catalog {
    const columns: array<Column>
    var fieldCnt: nat
    var tupleSize: nat
    ghost var decls: seq<Decl>

    ghost predicate Valid()
      reads this, columns
    {
      && fieldCnt <= columns.Length && |decls| == fieldCnt
      && columns[..fieldCnt] == Layout(decls)
      && tupleSize == TupleSize(decls)
    }

    /** `Catalog::init`. */
    constructor (fieldCnt: nat)
      ensures Valid() && decls == [] && columns.Length == fieldCnt && fresh(columns)
    {
      columns := new Column[fieldCnt](_ => Column(0, 0, 0, "", ""));
      this.fieldCnt := 0;
      tupleSize := 0;
      decls := [];
    }

    /** `Catalog::add_col`.  The caller announced the number of columns to `init`. */
    method AddCol(name: string, size: nat, typ: string)
      requires Valid() && fieldCnt < columns.Length
      modifies this, columns
      ensures Valid() && decls == old(decls) + [Decl(name, size, typ)]
    {
      columns[fieldCnt] := Column(fieldCnt, size % U32, tupleSize, typ, name);
      tupleSize := (tupleSize + size) % U32;
      fieldCnt := fieldCnt + 1;
      decls := decls + [Decl(name, size, typ)];
      assert decls[..|decls| - 1] == old(decls);
      assert columns[..fieldCnt] == old(columns[..fieldCnt]) + [columns[fieldCnt - 1]];
    }

    /** `Catalog::get_field_id`: the first column of that name, which must exist. */
    method GetFieldId(name: string) returns (id: nat)
      requires Valid() && exists i :: 0 <= i < |decls| && decls[i].name == name
      ensures id < |decls| && decls[id].name == name
      ensures forall i :: 0 <= i < id ==> decls[i].name != name
    {
      id := 0;
      LayoutKeeps(decls);
      while id < fieldCnt
        invariant 0 <= id <= fieldCnt
        invariant forall i :: 0 <= i < id ==> decls[i].name != name
      {
        assert columns[id] == columns[..fieldCnt][id];
        if columns[id].name == name {
          break;
        }
        id := id + 1;
      }
    }
  }

  lemma {:induction false} LayoutKeeps(ds: seq<Decl>)
    ensures forall i :: 0 <= i < |ds| ==>
              var c := Layout(ds)[i]; c.name == ds[i].name && c.typ == ds[i].typ && c.id == i && c.size == ds[i].size % U32
  {
    if ds != [] {
      LayoutKeeps(ds[..|ds| - 1]);
    }
  }

  /** `src` written over `data` at `pos`. */
  function Patch(data: seq<Byte>, pos: nat, src: seq<Byte>): (r: seq<Byte>)
    requires pos + |src| <= |data|
    ensures |r| == |data|
  {
    data[..pos] + src + data[pos + |src|..]
  }

  /** The bytes of column `c`. */
  function FieldOf(data: seq<Byte>, c: Column): seq<Byte>
    requires c.index + c.size <= |data|
  {
    data[c.index..c.index + c.size]
  }

  /** What is written to a field reads back, and the other fields are as before. */
  lemma {:induction false} PatchField(ds: seq<Decl>, cols: seq<Column>, data: seq<Byte>, id: nat, src: seq<Byte>)
    requires |cols| == |ds| && Disjoint(ds, cols, |data|) && id < |ds| && |src| <= ds[id].size
    ensures FieldOf(Patch(data, cols[id].index, src), cols[id]) == src + FieldOf(data, cols[id])[|src|..]
    ensures forall j :: 0 <= j < |ds| && j != id ==>
              FieldOf(Patch(data, cols[id].index, src), cols[j]) == FieldOf(data, cols[j])
  {
    var r := Patch(data, cols[id].index, src);
    assert FieldOf(r, cols[id]) == src + FieldOf(data, cols[id])[|src|..];
    forall j | 0 <= j < |ds| && j != id ensures FieldOf(r, cols[j]) == FieldOf(data, cols[j]) {
      assert j < id ==> cols[j].index + cols[j].size <= cols[id].index;
      assert j > id ==> cols[id].index + cols[id].size <= cols[j].index;
      PatchElsewhere(data, cols[id].index, src, cols[j]);
    }
  }

  lemma {:induction false} PatchElsewhere(data: seq<Byte>, pos: nat, src: seq<Byte>, c: Column)
    requires pos + |src| <= |data| && c.index + c.size <= |data|
    requires c.index + c.size <= pos || pos + |src| <= c.index
    ensures FieldOf(Patch(data, pos, src), c) == FieldOf(data, c)
  {
    var r := Patch(data, pos, src);
    assert forall k :: c.index <= k < c.index + c.size ==> r[k] == data[k];
    assert FieldOf(r, c) == FieldOf(data, c);
  }

  /** Rows that agree on every field are equal: nothing is hidden between fields. */
  lemma {:induction false} FieldsDetermineRow(ds: seq<Decl>, cols: seq<Column>, a: seq<Byte>, b: seq<Byte>)
    requires |a| == |b| && |cols| == |ds| && Tiles(ds, cols, |a|)
    requires forall j :: 0 <= j < |ds| ==> FieldOf(a, cols[j]) == FieldOf(b, cols[j])
    ensures a == b
  {
    forall p | 0 <= p < |a| ensures a[p] == b[p] {
      assert Belongs(cols, p);
      var i :| 0 <= i < |cols| && InField(cols[i], p);
      assert a[p] == FieldOf(a, cols[i])[p - cols[i].index];
      assert b[p] == FieldOf(b, cols[i])[p - cols[i].index];
    }
  }

  class Row {
    const schema: Catalog
    const data: array<Byte>

    /** The schema's sizes add up within `int` range, so the offsets are exact. */
    ghost predicate Valid()
      reads this, schema, schema.columns, data
    {
      schema.Valid() && Sum(schema.decls) < INT_LIMIT && data.Length == schema.tupleSize
    }

    ghost function Field(id: nat): (bytes: seq<Byte>)
      requires Valid() && id < |schema.decls|
      reads this, schema, schema.columns, data
      ensures |bytes| == schema.decls[id].size
    {
      SmallTiles(schema.decls);
      FieldOf(data[..], Layout(schema.decls)[id])
    }

    /** `row_t::init`: a buffer of the schema's tuple size, with whatever bytes it holds. */
    constructor (host: Catalog, bytes: nat -> Byte)
      requires host.Valid() && Sum(host.decls) < INT_LIMIT
      ensures Valid() && schema == host && fresh(data)
    {
      schema := host;
      data := new Byte[host.tupleSize](i requires 0 <= i => bytes(i));
    }

    /** The column of field `id`, as the catalog lays it out. */
    lemma {:induction false} FieldColumn(id: nat)
      requires Valid() && id < |schema.decls|
      ensures id < schema.fieldCnt && schema.columns[id] == Layout(schema.decls)[id]
      ensures Disjoint(schema.decls, Layout(schema.decls), data.Length)
      ensures schema.columns[id].size == schema.decls[id].size
      ensures schema.columns[id].index + schema.columns[id].size <= data.Length
    {
      SmallTiles(schema.decls);
      assert schema.columns[id] == schema.columns[..schema.fieldCnt][id];
    }

    /** memcpy into the buffer. */
    method CopyIn(pos: nat, src: seq<Byte>, size: nat)
      requires size <= |src| && pos + size <= data.Length
      modifies data
      ensures data[..] == Patch(old(data[..]), pos, src[..size])
    {
      for i := 0 to size
        invariant forall k :: 0 <= k < i ==> data[pos + k] == src[k]
        invariant forall k :: 0 <= k < data.Length && !(pos <= k < pos + i) ==> data[k] == old(data[k])
      {
        data[pos + i] := src[i];
      }
    }

    /** `row_t::set_value(id, ptr)`: copies the whole field. */
    method SetValue(id: nat, src: seq<Byte>)
      requires Valid() && id < |schema.decls| && schema.decls[id].size <= |src|
      modifies data
      ensures Valid() && Field(id) == src[..schema.decls[id].size]
      ensures forall j :: 0 <= j < |schema.decls| && j != id ==> Field(j) == old(Field(j))
    {
      FieldColumn(id);
      SetValueSized(id, src, schema.columns[id].size);
      assert old(Field(id))[schema.decls[id].size..] == [];
    }

    /** `row_t::set_value(id, ptr, size)`: overwrites the first `size` bytes of the field. */
    method SetValueSized(id: nat, src: seq<Byte>, size: nat)
      requires Valid() && id < |schema.decls| && size <= |src| && size <= schema.decls[id].size
      modifies data
      ensures Valid() && Field(id) == src[..size] + old(Field(id))[size..]
      ensures forall j :: 0 <= j < |schema.decls| && j != id ==> Field(j) == old(Field(j))
    {
      FieldColumn(id);
      PatchField(schema.decls, Layout(schema.decls), data[..], id, src[..size]);
      CopyIn(schema.columns[id].index, src, size);
    }

    /** `row_t::set_value(col_name, ptr)`. */
    method SetNamed(name: string, src: seq<Byte>) returns (id: nat)
      requires Valid() && exists i :: 0 <= i < |schema.decls| && schema.decls[i].name == name
      requires forall i :: 0 <= i < |schema.decls| && schema.decls[i].name == name ==> schema.decls[i].size <= |src|
      modifies data
      ensures Valid() && id < |schema.decls| && schema.decls[id].name == name
      ensures forall i :: 0 <= i < id ==> schema.decls[i].name != name
      ensures Field(id) == src[..schema.decls[id].size]
      ensures forall j :: 0 <= j < |schema.decls| && j != id ==> Field(j) == old(Field(j))
    {
      id := schema.GetFieldId(name);
      SetValue(id, src);
    }

    /** `row_t::get_value(id)`: where the field starts in the buffer. */
    method GetValue(id: nat) returns (pos: nat)
      requires Valid() && id < |schema.decls|
      ensures pos + schema.decls[id].size <= data.Length
      ensures data[pos..pos + schema.decls[id].size] == Field(id)
    {
      FieldColumn(id);
      pos := schema.columns[id].index;
    }

    /** `row_t::copy`: this row gets every field of `src`. */
    method CopyRow(src: Row)
      requires Valid() && src.Valid() && src.schema == schema
      modifies data
      ensures Valid() && src.Valid()
      ensures forall j :: 0 <= j < |schema.decls| ==> Field(j) == old(src.Field(j)) == src.Field(j)
      ensures data[..] == old(src.data[..])
    {
      CopyIn(0, src.data[..], src.schema.tupleSize);
      assert data[..] == old(src.data[..]);
    }
  }
}
