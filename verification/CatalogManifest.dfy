/**
 * The Weight manifest: one row per tensor, one nullable column group per precision, and its
 * translation to and from a table of named columns. The precisions travel as one
 * comma-separated metadata string.
 */
module CatalogManifest {
  import opened Common

  type Key = Bytes

  datatype Variant = Variant(dtype: string, keys: seq<Key>, offsets: seq<int>, sizes: seq<int>)

  datatype Row = Row(shape: seq<int>, variants: map<string, Variant>)

  /** Rows keyed by tensor name, with the insertion order of names and of precisions. */
  datatype Manifest = Manifest(names: seq<string>, rows: map<string, Row>, precisions: seq<string>)

  datatype ManifestError = LengthMismatch | ShapeMismatch | PrecisionExists | MissingColumn | NullCell | NotATable

  const EMPTY := Manifest([], map[], [])

  // ---- build ----

  function AddTensor(m: Manifest, name: string, precision: string, dtype: string, shape: seq<int>,
                     keys: seq<Key>, sizes: seq<int>, offsets: Option<seq<int>>): Result<Manifest, ManifestError>
  {
    var offs := if offsets.Some? then offsets.value else seq(|keys|, _ => 0);
    if !(|keys| == |sizes| == |offs|) then Err(LengthMismatch)
    else if name in m.rows && shape != m.rows[name].shape then Err(ShapeMismatch)
    else if name in m.rows && precision in m.rows[name].variants then Err(PrecisionExists)
    else
      var row := if name in m.rows then m.rows[name] else Row(shape, map[]);
      var v := Variant(dtype, keys, offs, sizes);
      Ok(Manifest(
           if name in m.rows then m.names else m.names + [name],
           m.rows[name := row.(variants := row.variants[precision := v])],
           if precision in m.precisions then m.precisions else m.precisions + [precision]))
  }

  // ---- the table ----

  datatype Column =
    | Texts(texts: seq<Option<string>>)
    | KeyLists(keys: seq<Option<seq<Key>>>)
    | IntLists(ints: seq<Option<seq<int>>>)

  datatype Named = Named(name: string, column: Column)

  datatype Table = Table(names: seq<string>, shapes: seq<seq<int>>, columns: seq<Named>, meta: string)

  function DtypeCol(p: string): string { p + "__dtype" }
  function KeysCol(p: string): string { p + "__keys" }
  function OffsetsCol(p: string): string { p + "__offsets" }
  function SizesCol(p: string): string { p + "__sizes" }

  function Join(ps: seq<string>): string {
    if ps == [] then "" else if |ps| == 1 then ps[0] else ps[0] + "," + Join(ps[1..])
  }

  /** `str.split(",")`: always at least one piece. */
  function Split(s: string): (r: seq<string>)
    ensures r != []
  {
    if s == "" then [""]
    else if s[0] == ',' then [""] + Split(s[1..])
    else
      var rest := Split(s[1..]);
      [[s[0]] + rest[0]] + rest[1..]
  }

  function VariantAt(m: Manifest, name: string, p: string): Option<Variant> {
    if name in m.rows && p in m.rows[name].variants then Some(m.rows[name].variants[p]) else None
  }

  function Cells(m: Manifest, p: string): (r: seq<Option<Variant>>)
    ensures |r| == |m.names| && forall i | 0 <= i < |r| :: r[i] == VariantAt(m, m.names[i], p)
  {
    seq(|m.names|, i requires 0 <= i < |m.names| => VariantAt(m, m.names[i], p))
  }

  /** The four columns of one precision; null where a tensor does not carry it. */
  function Group(m: Manifest, p: string): seq<Named> {
    var cs := Cells(m, p);
    [ Named(DtypeCol(p),
      Texts(seq(|cs|, i requires 0 <= i < |cs| => if cs[i].Some? then Some(cs[i].value.dtype) else None))),
      Named(KeysCol(p),
        KeyLists(seq(|cs|, i requires 0 <= i < |cs| => if cs[i].Some? then Some(cs[i].value.keys) else None))),
      Named(OffsetsCol(p),
        IntLists(seq(|cs|, i requires 0 <= i < |cs| => if cs[i].Some? then Some(cs[i].value.offsets) else None))),
      Named(SizesCol(p),
        IntLists(seq(|cs|, i requires 0 <= i < |cs| => if cs[i].Some? then Some(cs[i].value.sizes) else None))) ]
  }

  function Groups(m: Manifest, ps: seq<string>): seq<Named> {
    if ps == [] then [] else Group(m, ps[0]) + Groups(m, ps[1..])
  }

  function ShapeOf(m: Manifest, name: string): seq<int> {
    if name in m.rows then m.rows[name].shape else []
  }

  function ToTable(m: Manifest): Table {
    Table(m.names, seq(|m.names|, i requires 0 <= i < |m.names| => ShapeOf(m, m.names[i])),
          Groups(m, m.precisions), Join(m.precisions))
  }

  // ---- parse ----

  function Find(columns: seq<Named>, name: string): Option<Column> {
    if columns == [] then None
    else if columns[0].name == name then Some(columns[0].column)
    else Find(columns[1..], name)
  }

  predicate EndsWith(s: string, suffix: string) {
    |suffix| <= |s| && s[|s| - |suffix|..] == suffix
  }

  /** Fallback when the metadata is empty: the precisions named by the dtype columns. */
  function DtypePrecisions(columns: seq<Named>): seq<string> {
    if columns == [] then []
    else
      var n := columns[0].name;
      (if EndsWith(n, "__dtype") then [n[..|n| - 7]] else []) + DtypePrecisions(columns[1..])
  }

  function Precisions(t: Table): seq<string> {
    if t.meta != "" then Split(t.meta) else DtypePrecisions(t.columns)
  }

  predicate HasGroup(t: Table, p: string) {
    && (var c := Find(t.columns, DtypeCol(p)); c.Some? && c.value.Texts? && |c.value.texts| == |t.names|)
    && (var c := Find(t.columns, KeysCol(p)); c.Some? && c.value.KeyLists? && |c.value.keys| == |t.names|)
    && (var c := Find(t.columns, SizesCol(p)); c.Some? && c.value.IntLists? && |c.value.ints| == |t.names|)
    && (var c := Find(t.columns, OffsetsCol(p)); c.Some? ==> c.value.IntLists? && |c.value.ints| == |t.names|)
  }

  /** Row `i`, precision `p` of the table, added to the manifest under construction. */
  function AddCell(t: Table, m: Manifest, i: nat, p: string): Result<Manifest, ManifestError>
    requires i < |t.names| == |t.shapes| && HasGroup(t, p)
  {
    var dtype := Find(t.columns, DtypeCol(p)).value.texts[i];
    var keys := Find(t.columns, KeysCol(p)).value.keys[i];
    var sizes := Find(t.columns, SizesCol(p)).value.ints[i];
    var offsets := Find(t.columns, OffsetsCol(p));
    if dtype.None? then Ok(m)
    else if keys.None? || sizes.None? || (offsets.Some? && offsets.value.ints[i].None?) then Err(NullCell)
    else AddTensor(m, t.names[i], p, dtype.value, t.shapes[i], keys.value, sizes.value,
                   if offsets.Some? then offsets.value.ints[i] else None)
  }

  /** The precisions of row `i`, left to right. */
  function AddRow(t: Table, m: Manifest, i: nat, ps: seq<string>): Result<Manifest, ManifestError>
    requires i < |t.names| == |t.shapes| && forall p | p in ps :: HasGroup(t, p)
    decreases |ps|
  {
    if ps == [] then Ok(m)
    else
      var r := AddCell(t, m, i, ps[0]);
      if r.Err? then r else AddRow(t, r.value, i, ps[1..])
  }

  function AddRows(t: Table, m: Manifest, i: nat, ps: seq<string>): Result<Manifest, ManifestError>
    requires i <= |t.names| == |t.shapes| && forall p | p in ps :: HasGroup(t, p)
    decreases |t.names| - i
  {
    if i == |t.names| then Ok(m)
    else
      var r := AddRow(t, m, i, ps);
      if r.Err? then r else AddRows(t, r.value, i + 1, ps)
  }

  function FromTable(t: Table): Result<Manifest, ManifestError> {
    var ps := Precisions(t);
    if |t.names| != |t.shapes| || exists p | p in ps :: !HasGroup(t, p) then Err(MissingColumn)
    else AddRows(t, EMPTY, 0, ps)
  }

  // ---- well-formed manifests ----

  /** A row carries at least one variant, of recorded precisions, with equally long lists. */
  ghost predicate RowOk(m: Manifest, n: string)
    requires n in m.rows
  {
    var vs := m.rows[n].variants;
    && vs != map[]
    && forall p | p in vs :: p in m.precisions && |vs[p].keys| == |vs[p].offsets| == |vs[p].sizes|
  }

  ghost predicate Carried(m: Manifest, p: string) {
    exists n :: n in m.rows && p in m.rows[n].variants
  }

  ghost predicate WellFormed(m: Manifest) {
    && Distinct(m.names) && Distinct(m.precisions)
    && (forall n :: n in m.names <==> n in m.rows)
    && (forall n | n in m.rows :: RowOk(m, n))
    && (forall p | p in m.precisions :: Carried(m, p))
  }

  /** The same rows in the same order; the precisions as a set. */
  ghost predicate Same(a: Manifest, b: Manifest) {
    a.names == b.names && a.rows == b.rows && Distinct(a.precisions) && forall p :: p in a.precisions <==>
      p in b.precisions
  }

  predicate NoComma(ps: seq<string>) {
    forall p | p in ps :: ',' !in p
  }

  lemma EmptyWellFormed()
    ensures WellFormed(EMPTY)
  {
  }

  /**
   * Adding is refused for lists of different lengths, then for another shape of the tensor, then for a
   * precision it has; otherwise that variant is recorded, with its shape, and no other changes.
   */
  lemma AddTensorVariants(m: Manifest, name: string, precision: string, dtype: string, shape: seq<int>,
                          keys: seq<Key>, sizes: seq<int>, offsets: Option<seq<int>>)
    ensures var r := AddTensor(m, name, precision, dtype, shape, keys, sizes, offsets);
            var offs := if offsets.Some? then offsets.value else seq(|keys|, _ => 0);
            && (r == Err(LengthMismatch) <==> !(|keys| == |sizes| == |offs|))
            && (r == Err(ShapeMismatch) <==> |keys| == |sizes| == |offs| && name in m.rows && ShapeOf(m, name) != shape)
            && (r == Err(PrecisionExists) <==>
                  && |keys| == |sizes| == |offs| && ShapeOf(m, name) == (if name in m.rows then shape else [])
                  && VariantAt(m, name, precision).Some?)
            && (r.Err? ==> r.error in {LengthMismatch, ShapeMismatch, PrecisionExists})
            && (r.Ok? ==>
                  && (forall n, p :: VariantAt(r.value, n, p) ==
                        if n == name && p == precision then Some(Variant(dtype, keys, offs, sizes))
                        else VariantAt(m, n, p))
                  && (forall n | n == name || n in m.rows ::
                        n in r.value.rows && ShapeOf(r.value, n) == if n == name then shape else ShapeOf(m, n)))
  {
  }

  /** Adding a tensor keeps a manifest well formed. */
  lemma AddTensorWellFormed(m: Manifest, name: string, precision: string, dtype: string, shape: seq<int>,
                            keys: seq<Key>, sizes: seq<int>, offsets: Option<seq<int>>)
    requires WellFormed(m)
    ensures var r := AddTensor(m, name, precision, dtype, shape, keys, sizes, offsets); r.Ok? ==> WellFormed(r.value)
  {
    hide RowOk, Carried;
    var r := AddTensor(m, name, precision, dtype, shape, keys, sizes, offsets);
    if r.Ok? {
      var m' := r.value;
      forall p | p in m'.precisions ensures Carried(m', p) {
        if p == precision { CarriedBy(m', name, p); } else { CarriedStays(m, m', name, p); }
      }
      forall n | n in m'.rows ensures RowOk(m', n) {
        if n in m.rows { RowStays(m, m', name, precision, n); } else { RowFresh(m', n, precision); }
      }
    }
  }

  lemma CarriedBy(m: Manifest, n: string, p: string)
    requires n in m.rows && p in m.rows[n].variants
    ensures Carried(m, p)
  {
  }

  lemma CarriedStays(m: Manifest, m': Manifest, name: string, p: string)
    requires Carried(m, p)
    requires forall n | n in m.rows :: n in m'.rows && m.rows[n].variants.Keys <= m'.rows[n].variants.Keys
    ensures Carried(m', p)
  {
    var n :| n in m.rows && p in m.rows[n].variants;
    assert n in m'.rows && p in m'.rows[n].variants;
  }

  lemma RowStays(m: Manifest, m': Manifest, name: string, precision: string, n: string)
    requires n in m.rows && RowOk(m, n) && n in m'.rows
    requires forall p | p in m.precisions :: p in m'.precisions
    requires precision in m'.precisions
    requires n != name ==> m'.rows[n] == m.rows[n]
    requires n == name ==> precision in m'.rows[n].variants
                           && (var v := m'.rows[n].variants[precision]; |v.keys| == |v.offsets| == |v.sizes|)
                           && m'.rows[n].variants == m.rows[n].variants[precision := m'.rows[n].variants[precision]]
    ensures RowOk(m', n)
  {
  }

  lemma RowFresh(m: Manifest, n: string, precision: string)
    requires n in m.rows && m.rows[n].variants.Keys == {precision} && precision in m.precisions
    requires var v := m.rows[n].variants[precision]; |v.keys| == |v.offsets| == |v.sizes|
    ensures RowOk(m, n)
  {
    assert precision in m.rows[n].variants;
  }
}
