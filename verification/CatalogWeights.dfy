/** The manifest object the publisher and the loader hold: built row by row, written and read column by column. */
module CatalogWeights {
  import opened Common
  import opened CatalogManifest

  /** The first `n` cells of one precision's columns. */
  ghost predicate ColumnsSoFar(m: Manifest, p: string, n: nat, dtypes: seq<Option<string>>, keys: seq<Option<seq<Key>>>,
                               offsets: seq<Option<seq<int>>>, sizes: seq<Option<seq<int>>>)
  {
    && n <= |m.names| && |dtypes| == |keys| == |offsets| == |sizes| == n
    && forall i | 0 <= i < n ::
         var v := VariantAt(m, m.names[i], p);
         if v.Some? then dtypes[i] == Some(v.value.dtype) && keys[i] == Some(v.value.keys)
           && offsets[i] == Some(v.value.offsets) && sizes[i] == Some(v.value.sizes)
         else dtypes[i] == None && keys[i] == None && offsets[i] == None && sizes[i] == None
  }

  lemma ColumnsAreGroup(m: Manifest, p: string, dtypes: seq<Option<string>>, keys: seq<Option<seq<Key>>>,
                        offsets: seq<Option<seq<int>>>, sizes: seq<Option<seq<int>>>)
    requires ColumnsSoFar(m, p, |m.names|, dtypes, keys, offsets, sizes)
    ensures [Named(DtypeCol(p), Texts(dtypes)), Named(KeysCol(p), KeyLists(keys)),
             Named(OffsetsCol(p), IntLists(offsets)), Named(SizesCol(p), IntLists(sizes))] == Group(m, p)
  {
    var g := Group(m, p);
    assert dtypes == g[0].column.texts && keys == g[1].column.keys && offsets == g[2].column.ints
        && sizes == g[3].column.ints;
  }

  lemma {:induction false} GroupsSnoc(m: Manifest, ps: seq<string>, p: string)
    ensures Groups(m, ps + [p]) == Groups(m, ps) + Group(m, p)
    decreases |ps|
  {
    hide Group;
    if ps == [] {
      assert [p][1..] == [] && Groups(m, [p]) == Group(m, p) + [] && [] + [p] == [p];
    } else {
      GroupsSnoc(m, ps[1..], p);
      assert (ps + [p])[1..] == ps[1..] + [p];
    }
  }

  class WeightManifest {
    var names: seq<string>
    var rows: map<string, Row>
    var precisions: seq<string>

    ghost function Abs(): Manifest
      reads this
    {
      Manifest(names, rows, precisions)
    }

    constructor ()
      ensures Abs() == EMPTY
    {
      names, rows, precisions := [], map[], [];
    }

    /** A manifest already read. */
    constructor Of(m: Manifest)
      ensures Abs() == m
    {
      names, rows, precisions := m.names, m.rows, m.precisions;
    }

    method AddTensor(name: string, precision: string, dtype: string, shape: seq<int>,
                     keys: seq<Key>, sizes: seq<int>, offsets: Option<seq<int>>) returns (error: Option<ManifestError>)
      modifies this
      ensures match CatalogManifest.AddTensor(old(Abs()), name, precision, dtype, shape, keys, sizes, offsets)
              case Ok(m) => error == None && Abs() == m
              case Err(e) => error == Some(e) && Abs() == old(Abs())
    {
      var offs := if offsets.Some? then offsets.value else seq(|keys|, _ => 0);
      if !(|keys| == |sizes| == |offs|) { return Some(LengthMismatch); }
      var row := Row(shape, map[]);
      if name in rows {
        row := rows[name];
        if shape != row.shape { return Some(ShapeMismatch); }
        if precision in row.variants { return Some(PrecisionExists); }
      } else {
        names := names + [name];
      }
      if precision !in precisions { precisions := precisions + [precision]; }
      rows := rows[name := row.(variants := row.variants[precision := Variant(dtype, keys, offs, sizes)])];
      return None;
    }

    /** One precision's four columns, a cell per tensor. */
    method Columns(p: string) returns (group: seq<Named>)
      ensures group == Group(Abs(), p)
    {
      hide Group, VariantAt;
      var dtypes, keys, offsets, sizes := [], [], [], [];
      for i := 0 to |names|
        invariant ColumnsSoFar(Abs(), p, i, dtypes, keys, offsets, sizes)
      {
        var v := VariantAt(Manifest(names, rows, precisions), names[i], p);
        dtypes := dtypes + [if v.Some? then Some(v.value.dtype) else None];
        keys := keys + [if v.Some? then Some(v.value.keys) else None];
        offsets := offsets + [if v.Some? then Some(v.value.offsets) else None];
        sizes := sizes + [if v.Some? then Some(v.value.sizes) else None];
      }
      ColumnsAreGroup(Abs(), p, dtypes, keys, offsets, sizes);
      group := [Named(DtypeCol(p), Texts(dtypes)), Named(KeysCol(p), KeyLists(keys)),
                Named(OffsetsCol(p), IntLists(offsets)), Named(SizesCol(p), IntLists(sizes))];
    }

    method ToTable() returns (t: Table)
      ensures t == CatalogManifest.ToTable(Abs())
    {
      hide Group;
      var columns := [];
      for i := 0 to |precisions|
        invariant columns == Groups(Abs(), precisions[..i])
      {
        var group := Columns(precisions[i]);
        GroupsSnoc(Abs(), precisions[..i], precisions[i]);
        assert precisions[..i + 1] == precisions[..i] + [precisions[i]];
        columns := columns + group;
      }
      assert precisions[..|precisions|] == precisions;
      var m := Manifest(names, rows, precisions);
      var shapes := seq(|m.names|, i requires 0 <= i < |m.names| => ShapeOf(m, m.names[i]));
      assert shapes == CatalogManifest.ToTable(m).shapes;
      t := Table(names, shapes, columns, Join(precisions));
    }

    /** One cell of a table being read: nothing where it is null. */
    method ReadCell(t: Table, i: nat, p: string) returns (error: Option<ManifestError>)
      requires i < |t.names| == |t.shapes| && HasGroup(t, p)
      modifies this
      ensures match AddCell(t, old(Abs()), i, p)
              case Ok(m) => error == None && Abs() == m
              case Err(e) => error == Some(e)
    {
      hide CatalogManifest.AddTensor;
      var dtype := Find(t.columns, DtypeCol(p)).value.texts[i];
      if dtype.None? { return None; }
      var keys := Find(t.columns, KeysCol(p)).value.keys[i];
      var sizes := Find(t.columns, SizesCol(p)).value.ints[i];
      var offsets := Find(t.columns, OffsetsCol(p));
      if keys.None? || sizes.None? || (offsets.Some? && offsets.value.ints[i].None?) { return Some(NullCell); }
      error := AddTensor(t.names[i], p, dtype.value, t.shapes[i], keys.value, sizes.value,
                         if offsets.Some? then offsets.value.ints[i] else None);
    }

    method ReadRow(t: Table, i: nat, ps: seq<string>) returns (error: Option<ManifestError>)
      requires i < |t.names| == |t.shapes| && forall p | p in ps :: HasGroup(t, p)
      modifies this
      ensures match AddRow(t, old(Abs()), i, ps)
              case Ok(m) => error == None && Abs() == m
              case Err(e) => error == Some(e)
    {
      hide HasGroup, AddCell;
      assert ps[0..] == ps;
      for j := 0 to |ps|
        invariant AddRow(t, old(Abs()), i, ps) == AddRow(t, Abs(), i, ps[j..])
      {
        assert ps[j..][0] == ps[j] && ps[j..][1..] == ps[j + 1..];
        error := ReadCell(t, i, ps[j]);
        if error.Some? { return; }
      }
      error := None;
    }

    /** Read a table into an empty manifest. */
    method FromTable(t: Table) returns (error: Option<ManifestError>)
      requires Abs() == EMPTY
      modifies this
      ensures match CatalogManifest.FromTable(t)
              case Ok(m) => error == None && Abs() == m
              case Err(e) => error == Some(e)
    {
      hide HasGroup, AddRow, Precisions;
      var ps := Precisions(t);
      if |t.names| != |t.shapes| || exists p | p in ps :: !HasGroup(t, p) { return Some(MissingColumn); }
      for i := 0 to |t.names|
        invariant AddRows(t, EMPTY, 0, ps) == AddRows(t, Abs(), i, ps)
      {
        error := ReadRow(t, i, ps);
        if error.Some? { return; }
      }
      error := None;
    }
  }
}
