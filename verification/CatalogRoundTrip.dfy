/**
 * Writing a manifest to a table and parsing it back: rows, shapes, slices and the set of
 * precisions survive if and only if no precision name contains a comma.
 */
module CatalogRoundTrip {
  import opened Common
  import opened CatalogManifest

  // ---- join and split ----

  function Pieces(ps: seq<string>): seq<string> {
    if ps == [] then [] else Split(ps[0]) + Pieces(ps[1..])
  }

  lemma {:induction false} SplitAtComma(p: string, s: string)
    ensures Split(p + "," + s) == Split(p) + Split(s)
    decreases |p|
  {
    var whole := p + "," + s;
    if p == "" {
      assert whole[1..] == s;
    } else {
      assert whole[1..] == p[1..] + "," + s;
      SplitAtComma(p[1..], s);
    }
  }

  lemma {:induction false} SplitPlain(p: string)
    requires ',' !in p
    ensures Split(p) == [p]
    decreases |p|
  {
    if p != "" {
      assert ',' !in p[1..];
      SplitPlain(p[1..]);
      assert [p[0]] + p[1..] == p;
    }
  }

  lemma {:induction false} SplitJoin(ps: seq<string>)
    requires ps != []
    ensures Split(Join(ps)) == Pieces(ps)
  {
    if |ps| == 1 {
      assert ps[1..] == [];
      assert Split(ps[0]) + [] == Split(ps[0]);
    } else {
      SplitAtComma(ps[0], Join(ps[1..]));
      SplitJoin(ps[1..]);
    }
  }

  lemma {:induction false} PiecesPlain(ps: seq<string>)
    requires NoComma(ps)
    ensures Pieces(ps) == ps
  {
    if ps != [] {
      SplitPlain(ps[0]);
      assert forall p | p in ps[1..] :: p in ps;
      PiecesPlain(ps[1..]);
      assert [ps[0]] + ps[1..] == ps;
    }
  }

  /** Pieces hold no comma, and a name with a comma splits into pieces other than itself. */
  lemma {:induction false} SplitPieces(p: string)
    ensures forall q | q in Split(p) :: ',' !in q
    decreases |p|
  {
    if p != "" {
      SplitPieces(p[1..]);
      if p[0] != ',' {
        var rest := Split(p[1..]);
        var head := [p[0]] + rest[0];
        assert ',' !in rest[0];
        assert ',' !in head;
        forall q | q in Split(p) ensures ',' !in q {
          if q != head { assert q in rest[1..]; assert q in rest; }
        }
      }
    }
  }

  lemma JoinIsEmpty(ps: seq<string>)
    requires Join(ps) == ""
    ensures ps == [] || ps == [""]
  {
  }

  // ---- columns ----

  lemma ColumnNames(p: string, q: string)
    ensures DtypeCol(p) == DtypeCol(q) <==> p == q
    ensures KeysCol(p) == KeysCol(q) <==> p == q
    ensures OffsetsCol(p) == OffsetsCol(q) <==> p == q
    ensures SizesCol(p) == SizesCol(q) <==> p == q
    ensures DtypeCol(p) != KeysCol(q) && DtypeCol(p) != OffsetsCol(q) && DtypeCol(p) != SizesCol(q)
    ensures KeysCol(p) != OffsetsCol(q) && KeysCol(p) != SizesCol(q) && OffsetsCol(p) != SizesCol(q)
    ensures EndsWith(DtypeCol(p), "__dtype") && DtypeCol(p)[..|DtypeCol(p)| - 7] == p
    ensures !EndsWith(KeysCol(p), "__dtype") && !EndsWith(OffsetsCol(p), "__dtype") && !EndsWith(SizesCol(p), "__dtype")
  {
    SuffixInjective(p, q, "__dtype");
    SuffixInjective(p, q, "__keys");
    SuffixInjective(p, q, "__offsets");
    SuffixInjective(p, q, "__sizes");
    Endings(p);
    Endings(q);
    hide Ending;
    assert DtypeCol(p)[|DtypeCol(p)| - 7..] == "__dtype";
  }

  /** The last two characters, which tell the four kinds of column apart. */
  function Ending(s: string): string {
    if |s| < 2 then s else s[|s| - 2..]
  }

  lemma EndingOf(p: string, suffix: string)
    requires |suffix| >= 2
    ensures Ending(p + suffix) == Ending(suffix)
    ensures EndsWith(p, suffix) ==> Ending(p) == Ending(suffix)
  {
    assert (p + suffix)[|p + suffix| - 2..] == suffix[|suffix| - 2..];
    if EndsWith(p, suffix) { assert p[|p| - 2..] == p[|p| - |suffix|..][|suffix| - 2..]; }
  }

  lemma Endings(p: string)
    ensures Ending(DtypeCol(p)) == "pe" && Ending(KeysCol(p)) == "ys"
    ensures Ending(OffsetsCol(p)) == "ts" && Ending(SizesCol(p)) == "es"
    ensures !EndsWith(KeysCol(p), "__dtype") && !EndsWith(OffsetsCol(p), "__dtype") && !EndsWith(SizesCol(p), "__dtype")
    ensures !EndsWith(DtypeCol(p), "__offsets") && !EndsWith(KeysCol(p), "__offsets")
    ensures !EndsWith(SizesCol(p), "__offsets")
  {
    EndingOf(p, "__dtype");
    EndingOf(p, "__keys");
    EndingOf(p, "__offsets");
    EndingOf(p, "__sizes");
    var d, o := "__dtype", "__offsets";
    assert Ending(d) == "pe" && Ending("__keys") == "ys" && Ending(o) == "ts" && Ending("__sizes") == "es";
    EndingOf(KeysCol(p), d);
    EndingOf(OffsetsCol(p), d);
    EndingOf(SizesCol(p), d);
    EndingOf(DtypeCol(p), o);
    EndingOf(KeysCol(p), o);
    EndingOf(SizesCol(p), o);
    assert "pe"[0] == 'p' && "ys"[0] == 'y' && "ts"[0] == 't' && "es"[0] == 'e';
    hide Ending, EndsWith;
  }

  lemma SuffixInjective(p: string, q: string, suffix: string)
    ensures p + suffix == q + suffix <==> p == q
  {
    if p + suffix == q + suffix {
      assert p == (p + suffix)[..|p|] && q == (q + suffix)[..|q|];
    }
  }

  lemma {:induction false} DtypeGroups(m: Manifest, ps: seq<string>)
    ensures DtypePrecisions(Groups(m, ps)) == ps
    decreases |ps|
  {
    if ps != [] {
      DtypeGroups(m, ps[1..]);
      GroupNames(m, ps[0]);
      hide Group, EndsWith;
      DtypeOne(Group(m, ps[0]), Groups(m, ps[1..]), ps[0]);
      assert [ps[0]] + ps[1..] == ps;
    }
  }

  lemma GroupNames(m: Manifest, p: string)
    ensures var g := Group(m, p);
            && |g| == 4 && EndsWith(g[0].name, "__dtype") && g[0].name[..|g[0].name| - 7] == p
            && forall i | 1 <= i < 4 :: !EndsWith(g[i].name, "__dtype")
  {
    ColumnNames(p, p);
    var g := Group(m, p);
    assert g[0].name == DtypeCol(p) && g[1].name == KeysCol(p) && g[2].name == OffsetsCol(p)
        && g[3].name == SizesCol(p);
    hide EndsWith;
  }

  lemma DtypeOne(g: seq<Named>, rest: seq<Named>, p: string)
    requires |g| == 4 && EndsWith(g[0].name, "__dtype") && g[0].name[..|g[0].name| - 7] == p
    requires forall i | 1 <= i < 4 :: !EndsWith(g[i].name, "__dtype")
    ensures DtypePrecisions(g + rest) == [p] + DtypePrecisions(rest)
  {
    hide EndsWith;
    assert (g + rest)[1..] == g[1..] + rest;
    assert (g[1..] + rest)[1..] == g[2..] + rest;
    assert (g[2..] + rest)[1..] == g[3..] + rest;
    assert (g[3..] + rest)[1..] == rest;
    assert DtypePrecisions(g[3..] + rest) == DtypePrecisions(rest);
    assert DtypePrecisions(g[2..] + rest) == DtypePrecisions(rest);
    assert DtypePrecisions(g[1..] + rest) == DtypePrecisions(rest);
  }

  lemma {:induction false} FindGroups(m: Manifest, ps: seq<string>, q: string)
    ensures var cs := Groups(m, ps);
            if q in ps then
              && Find(cs, DtypeCol(q)) == Some(Group(m, q)[0].column)
              && Find(cs, KeysCol(q)) == Some(Group(m, q)[1].column)
              && Find(cs, OffsetsCol(q)) == Some(Group(m, q)[2].column)
              && Find(cs, SizesCol(q)) == Some(Group(m, q)[3].column)
            else Find(cs, DtypeCol(q)) == None
    decreases |ps|
  {
    hide Group, DtypeCol, KeysCol, OffsetsCol, SizesCol;
    if ps != [] {
      FindGroups(m, ps[1..], q);
      FindOne(m, ps[0], q, Groups(m, ps[1..]));
    }
  }

  lemma FindOne(m: Manifest, p: string, q: string, rest: seq<Named>)
    ensures var cs := Group(m, p) + rest;
            if p == q then
              && Find(cs, DtypeCol(q)) == Some(Group(m, q)[0].column)
              && Find(cs, KeysCol(q)) == Some(Group(m, q)[1].column)
              && Find(cs, OffsetsCol(q)) == Some(Group(m, q)[2].column)
              && Find(cs, SizesCol(q)) == Some(Group(m, q)[3].column)
            else
              && Find(cs, DtypeCol(q)) == Find(rest, DtypeCol(q)) && Find(cs, KeysCol(q)) == Find(rest, KeysCol(q))
              && Find(cs, OffsetsCol(q)) == Find(rest, OffsetsCol(q))
              && Find(cs, SizesCol(q)) == Find(rest, SizesCol(q))
  {
    var g := Group(m, p);
    ColumnNames(p, q);
    ColumnNames(q, p);
    assert g[0].name == DtypeCol(p) && g[1].name == KeysCol(p) && g[2].name == OffsetsCol(p)
        && g[3].name == SizesCol(p);
    hide Group, DtypeCol, KeysCol, OffsetsCol, SizesCol, EndsWith;
    FindInFour(g, rest, DtypeCol(q));
    FindInFour(g, rest, KeysCol(q));
    FindInFour(g, rest, OffsetsCol(q));
    FindInFour(g, rest, SizesCol(q));
  }

  lemma FindInFour(g: seq<Named>, rest: seq<Named>, name: string)
    requires |g| == 4
    ensures Find(g + rest, name) ==
            if g[0].name == name then Some(g[0].column) else if g[1].name == name then Some(g[1].column)
            else if g[2].name == name then Some(g[2].column) else if g[3].name == name then Some(g[3].column)
            else Find(rest, name)
  {
    assert (g + rest)[1..] == g[1..] + rest;
    assert (g[1..] + rest)[1..] == g[2..] + rest;
    assert (g[2..] + rest)[1..] == g[3..] + rest;
    assert (g[3..] + rest)[1..] == rest;
    assert Find(g[3..] + rest, name) == if g[3].name == name then Some(g[3].column) else Find(rest, name);
    assert Find(g[2..] + rest, name) == if g[2].name == name then Some(g[2].column) else Find(g[3..] + rest, name);
    assert Find(g[1..] + rest, name) == if g[1].name == name then Some(g[1].column) else Find(g[2..] + rest, name);
  }

  /** A column group is present exactly for the recorded precisions. */
  lemma GroupPresent(m: Manifest, p: string)
    ensures HasGroup(ToTable(m), p) <==> p in m.precisions
  {
    hide DtypeCol, KeysCol, OffsetsCol, SizesCol;
    FindGroups(m, m.precisions, p);
  }

  lemma CellOfTable(m: Manifest, acc: Manifest, i: nat, p: string)
    requires i < |m.names| && p in m.precisions
    ensures HasGroup(ToTable(m), p)
    ensures AddCell(ToTable(m), acc, i, p) ==
            match VariantAt(m, m.names[i], p)
            case None => Ok(acc)
            case Some(v) =>
              AddTensor(acc, m.names[i], p, v.dtype, ShapeOf(m, m.names[i]), v.keys, v.sizes, Some(v.offsets))
  {
    GroupPresent(m, p);
    hide DtypeCol, KeysCol, OffsetsCol, SizesCol, AddTensor, VariantAt;
    FindGroups(m, m.precisions, p);
  }

  // ---- rebuilding row by row ----

  /** `acc` holds rows 0..i of `m`, and of row i the precisions in `ps[..j]`. */
  ghost predicate Rebuilt(acc: Manifest, m: Manifest, ps: seq<string>, i: nat, j: nat)
    requires i <= |m.names| && j <= |ps|
  {
    && WellFormed(acc)
    && (forall n | n in acc.rows :: acc.rows[n].shape == ShapeOf(m, n))
    && (forall n, p :: VariantAt(acc, n, p) ==
          if n in m.names[..i] || (i < |m.names| && n == m.names[i] && p in ps[..j]) then VariantAt(m, n, p) else None)
    && acc.names == m.names[..i] + (if i < |m.names| && m.names[i] in acc.rows then [m.names[i]] else [])
  }

  lemma RebuildCell(acc: Manifest, m: Manifest, ps: seq<string>, i: nat, j: nat)
    requires WellFormed(m) && i < |m.names| && j < |ps| && Distinct(ps) && ps[j] in m.precisions
    requires Rebuilt(acc, m, ps, i, j)
    ensures HasGroup(ToTable(m), ps[j])
    ensures var r := AddCell(ToTable(m), acc, i, ps[j]); r.Ok? && Rebuilt(r.value, m, ps, i, j + 1)
  {
    hide AddCell, HasGroup, ToTable, RowOk, Carried, AddTensor, WellFormed, VariantAt;
    var n, p := m.names[i], ps[j];
    CellOfTable(m, acc, i, p);
    assert ps[..j + 1] == ps[..j] + [p];
    match VariantAt(m, n, p) {
      case None =>
      case Some(v) =>
        RebuildAdd(acc, m, ps, i, j, v);
    }
  }

  lemma RebuildAddRows(acc: Manifest, m: Manifest, ps: seq<string>, i: nat, j: nat, v: Variant)
    requires WellFormed(m) && i < |m.names| && j < |ps| && Distinct(ps)
    requires Rebuilt(acc, m, ps, i, j) && VariantAt(m, m.names[i], ps[j]) == Some(v)
    ensures var r := AddTensor(acc, m.names[i], ps[j], v.dtype, ShapeOf(m, m.names[i]), v.keys, v.sizes,
        Some(v.offsets));
            && r.Ok? && r.value.names == m.names[..i] + [m.names[i]] && m.names[i] in r.value.rows
            && forall k | k in r.value.rows :: r.value.rows[k].shape == ShapeOf(m, k)
  {
    hide RowOk, Carried;
    var n, p := m.names[i], ps[j];
    assert n !in m.names[..i] && p !in ps[..j];
    assert VariantAt(acc, n, p) == None;
    VariantLengths(m, n, p);
  }

  lemma RebuildAdd(acc: Manifest, m: Manifest, ps: seq<string>, i: nat, j: nat, v: Variant)
    requires WellFormed(m) && i < |m.names| && j < |ps| && Distinct(ps)
    requires Rebuilt(acc, m, ps, i, j) && VariantAt(m, m.names[i], ps[j]) == Some(v)
    ensures var r := AddTensor(acc, m.names[i], ps[j], v.dtype, ShapeOf(m, m.names[i]), v.keys, v.sizes,
        Some(v.offsets));
            r.Ok? && Rebuilt(r.value, m, ps, i, j + 1)
  {
    hide WellFormed, AddTensor, VariantAt, ShapeOf;
    var n, p := m.names[i], ps[j];
    RebuildAddRows(acc, m, ps, i, j, v);
    AddTensorWellFormed(acc, n, p, v.dtype, ShapeOf(m, n), v.keys, v.sizes, Some(v.offsets));
    AddTensorVariants(acc, n, p, v.dtype, ShapeOf(m, n), v.keys, v.sizes, Some(v.offsets));
    assert ps[..j + 1] == ps[..j] + [p];
  }

  lemma VariantLengths(m: Manifest, n: string, p: string)
    requires WellFormed(m) && VariantAt(m, n, p).Some?
    ensures var v := VariantAt(m, n, p).value; |v.keys| == |v.offsets| == |v.sizes|
  {
    assert RowOk(m, n);
  }

  lemma {:induction false} RebuildRow(acc: Manifest, m: Manifest, ps: seq<string>, i: nat, j: nat)
    requires WellFormed(m) && i < |m.names| && j <= |ps| && Distinct(ps) && (forall p | p in ps :: p in m.precisions)
    requires Rebuilt(acc, m, ps, i, j)
    ensures forall p | p in ps :: HasGroup(ToTable(m), p)
    ensures var r := AddRow(ToTable(m), acc, i, ps[j..]); r.Ok? && Rebuilt(r.value, m, ps, i, |ps|)
    decreases |ps| - j
  {
    hide Rebuilt, WellFormed, HasGroup, AddCell;
    forall p | p in ps ensures HasGroup(ToTable(m), p) { GroupPresent(m, p); }
    if j < |ps| {
      RebuildCell(acc, m, ps, i, j);
      assert ps[j..][1..] == ps[j + 1..];
      RebuildRow(AddCell(ToTable(m), acc, i, ps[j]).value, m, ps, i, j + 1);
    }
  }

  /** A finished row: all its precisions are in, and it has at least one. */
  lemma RowDone(acc: Manifest, m: Manifest, ps: seq<string>, i: nat)
    requires WellFormed(m) && i < |m.names| && (forall p | p in m.precisions :: p in ps)
    requires Rebuilt(acc, m, ps, i, |ps|)
    ensures Rebuilt(acc, m, ps, i + 1, 0)
  {
    hide RowOk, Carried;
    var n := m.names[i];
    assert ps[..|ps|] == ps && ps[..0] == [];
    assert m.names[..i + 1] == m.names[..i] + [n];
    forall q | VariantAt(m, n, q).Some? ensures q in ps { VariantRecorded(m, n, q); }
    var p := SomeVariant(m, n);
    assert VariantAt(acc, n, p).Some?;
    assert acc.names == m.names[..i + 1];
    if i + 1 < |m.names| {
      assert m.names[i + 1] !in m.names[..i + 1];
    }
  }

  lemma SomeVariant(m: Manifest, n: string) returns (p: string)
    requires WellFormed(m) && n in m.rows
    ensures VariantAt(m, n, p).Some?
  {
    assert RowOk(m, n);
    assert m.rows[n].variants.Keys != {};
    p :| p in m.rows[n].variants;
  }

  lemma VariantRecorded(m: Manifest, n: string, p: string)
    requires WellFormed(m) && VariantAt(m, n, p).Some?
    ensures p in m.precisions
  {
    assert RowOk(m, n);
  }

  lemma {:induction false} RebuildRows(acc: Manifest, m: Manifest, i: nat)
    requires WellFormed(m) && i <= |m.names| && Rebuilt(acc, m, m.precisions, i, 0)
    ensures forall p | p in m.precisions :: HasGroup(ToTable(m), p)
    ensures var r := AddRows(ToTable(m), acc, i, m.precisions);
            r.Ok? && Rebuilt(r.value, m, m.precisions, |m.names|, 0)
    decreases |m.names| - i
  {
    hide Rebuilt, HasGroup, AddRow, RowOk, Carried;
    var ps := m.precisions;
    forall p | p in ps ensures HasGroup(ToTable(m), p) { GroupPresent(m, p); }
    if i < |m.names| {
      RebuildRow(acc, m, ps, i, 0);
      assert ps[0..] == ps;
      var acc' := AddRow(ToTable(m), acc, i, ps).value;
      RowDone(acc', m, ps, i);
      RebuildRows(acc', m, i + 1);
    }
  }

  lemma RebuiltAll(acc: Manifest, m: Manifest)
    requires WellFormed(m) && Rebuilt(acc, m, m.precisions, |m.names|, 0)
    ensures Same(acc, m) && WellFormed(acc)
  {
    hide RowOk, Carried;
    assert m.names[..|m.names|] == m.names;
    assert acc.names == m.names;
    forall n | n in m.rows ensures n in acc.rows && acc.rows[n] == m.rows[n] {
      assert n in acc.names;
      assert acc.rows[n].shape == m.rows[n].shape;
      forall p ensures p in acc.rows[n].variants <==> p in m.rows[n].variants
               ensures p in m.rows[n].variants ==> acc.rows[n].variants[p] == m.rows[n].variants[p] {
        assert VariantAt(acc, n, p) == VariantAt(m, n, p);
      }
      assert acc.rows[n].variants == m.rows[n].variants;
    }
    assert acc.rows.Keys == m.rows.Keys;
    assert acc.rows == m.rows;
    forall p ensures p in acc.precisions <==>
      p in m.precisions { PrecisionsFollow(acc, m, p); PrecisionsFollow(m, acc, p); }
  }

  lemma PrecisionsFollow(a: Manifest, b: Manifest, p: string)
    requires WellFormed(a) && WellFormed(b) && a.rows == b.rows
    ensures p in a.precisions ==> p in b.precisions
  {
    if p in a.precisions {
      assert Carried(a, p);
      var n :| n in a.rows && p in a.rows[n].variants;
      assert RowOk(b, n);
    }
  }

  lemma PrecisionsOfTable(m: Manifest)
    requires NoComma(m.precisions)
    ensures Precisions(ToTable(m)) == m.precisions
  {
    if Join(m.precisions) == "" {
      DtypeGroups(m, m.precisions);
    } else {
      SplitJoin(m.precisions);
      PiecesPlain(m.precisions);
    }
  }

  lemma RoundTrip(m: Manifest)
    requires WellFormed(m) && NoComma(m.precisions)
    ensures var r := FromTable(ToTable(m)); r.Ok? && Same(r.value, m) && WellFormed(r.value)
  {
    hide HasGroup, AddRows, WellFormed, NoComma, Precisions, Rebuilt;
    PrecisionsOfTable(m);
    assert Rebuilt(EMPTY, m, m.precisions, 0, 0) by { StartRebuild(m); }
    RebuildRows(EMPTY, m, 0);
    RebuiltAll(AddRows(ToTable(m), EMPTY, 0, m.precisions).value, m);
  }

  lemma StartRebuild(m: Manifest)
    ensures Rebuilt(EMPTY, m, m.precisions, 0, 0)
  {
    assert m.names[..0] == [] && m.precisions[..0] == [];
  }

  // ---- names with commas ----

  lemma {:induction false} PiecesOf(ps: seq<string>, i: nat)
    requires i < |ps|
    ensures forall q | q in Split(ps[i]) :: q in Pieces(ps)
  {
    if i > 0 {
      PiecesOf(ps[1..], i - 1);
      assert ps[1..][i - 1] == ps[i];
    }
  }

  /** A piece that comes from two different names occurs twice. */
  lemma {:induction false} PieceTwice(ps: seq<string>, i: nat, j: nat, a: string) returns (x: nat, y: nat)
    requires i < |ps| && j < |ps| && i != j && a in Split(ps[i]) && a in Split(ps[j])
    ensures x < y < |Pieces(ps)| && Pieces(ps)[x] == a && Pieces(ps)[y] == a
    decreases |ps|
  {
    hide Split;
    var head, rest := Split(ps[0]), Pieces(ps[1..]);
    if i == 0 || j == 0 {
      var k := if i == 0 then j else i;
      assert ps[1..][k - 1] == ps[k];
      PiecesOf(ps[1..], k - 1);
      var u :| 0 <= u < |head| && head[u] == a;
      var v :| 0 <= v < |rest| && rest[v] == a;
      x, y := u, |head| + v;
    } else {
      assert ps[1..][i - 1] == ps[i] && ps[1..][j - 1] == ps[j];
      var u, v := PieceTwice(ps[1..], i - 1, j - 1, a);
      x, y := |head| + u, |head| + v;
    }
  }

  /** Once a precision is recorded for the row, meeting it again fails the parse. */
  lemma {:induction false} SecondTimeFails(m: Manifest, acc: Manifest, i: nat, ps: seq<string>, y: nat)
    requires i < |m.names| && (forall p | p in ps :: p in m.precisions)
    requires y < |ps| && VariantAt(m, m.names[i], ps[y]).Some? && VariantAt(acc, m.names[i], ps[y]).Some?
    ensures forall p | p in ps :: HasGroup(ToTable(m), p)
    ensures AddRow(ToTable(m), acc, i, ps).Err?
    decreases |ps|
  {
    hide HasGroup, AddCell;
    forall p | p in ps ensures HasGroup(ToTable(m), p) { GroupPresent(m, p); }
    CellOfTable(m, acc, i, ps[0]);
    var r := AddCell(ToTable(m), acc, i, ps[0]);
    if r.Ok? {
      match VariantAt(m, m.names[i], ps[0]) {
        case None =>
        case Some(v) =>
          AddTensorVariants(acc, m.names[i], ps[0], v.dtype, ShapeOf(m, m.names[i]), v.keys, v.sizes, Some(v.offsets));
      }
      assert y > 0;
      assert ps[1..][y - 1] == ps[y];
      SecondTimeFails(m, r.value, i, ps[1..], y - 1);
    }
  }

  lemma {:induction false} RepeatFails(m: Manifest, acc: Manifest, i: nat, ps: seq<string>, x: nat, y: nat)
    requires i < |m.names| && (forall p | p in ps :: p in m.precisions)
    requires x < y < |ps| && ps[x] == ps[y] && VariantAt(m, m.names[i], ps[x]).Some?
    ensures forall p | p in ps :: HasGroup(ToTable(m), p)
    ensures AddRow(ToTable(m), acc, i, ps).Err?
    decreases |ps|
  {
    hide HasGroup, AddCell;
    forall p | p in ps ensures HasGroup(ToTable(m), p) { GroupPresent(m, p); }
    CellOfTable(m, acc, i, ps[0]);
    var r := AddCell(ToTable(m), acc, i, ps[0]);
    if r.Ok? {
      assert ps[1..][y - 1] == ps[y];
      if x == 0 {
        var v := VariantAt(m, m.names[i], ps[0]).value;
        AddTensorVariants(acc, m.names[i], ps[0], v.dtype, ShapeOf(m, m.names[i]), v.keys, v.sizes, Some(v.offsets));
        SecondTimeFails(m, r.value, i, ps[1..], y - 1);
      } else {
        assert ps[1..][x - 1] == ps[x];
        RepeatFails(m, r.value, i, ps[1..], x - 1, y - 1);
      }
    }
  }

  lemma {:induction false} BadRowFails(m: Manifest, acc: Manifest, i: nat, k: nat, ps: seq<string>)
    requires i <= k < |m.names| && (forall p | p in ps :: HasGroup(ToTable(m), p))
    requires forall a: Manifest :: AddRow(ToTable(m), a, k, ps).Err?
    ensures AddRows(ToTable(m), acc, i, ps).Err?
    decreases |m.names| - i
  {
    hide HasGroup, AddRow;
    var r := AddRow(ToTable(m), acc, i, ps);
    if r.Ok? { BadRowFails(m, r.value, i + 1, k, ps); }
  }

  lemma CommaFails(m: Manifest)
    requires WellFormed(m) && !NoComma(m.precisions)
    ensures FromTable(ToTable(m)).Err?
  {
    hide HasGroup, AddRows, AddRow, RowOk, Split, Join, Pieces;
    var ps := m.precisions;
    var q :| q in ps && ',' in q;
    var j :| 0 <= j < |ps| && ps[j] == q;
    if Join(ps) == "" { JoinIsEmpty(ps); assert false; }
    SplitJoin(ps);
    var pieces := Pieces(ps);
    if forall p | p in pieces :: HasGroup(ToTable(m), p) {
      forall p | p in pieces ensures p in ps { GroupPresent(m, p); }
      var a := Split(q)[0];
      SplitPieces(q);
      assert a in Split(q);
      PiecesOf(ps, j);
      assert a in ps && a != q;
      var i :| 0 <= i < |ps| && ps[i] == a;
      SplitPlain(a);
      var x, y := PieceTwice(ps, i, j, a);
      var k := CarrierOf(m, a);
      forall acc: Manifest ensures AddRow(ToTable(m), acc, k, pieces).Err? {
        RepeatFails(m, acc, k, pieces, x, y);
      }
      BadRowFails(m, EMPTY, 0, k, pieces);
    }
  }

  lemma CarriedWitness(m: Manifest, p: string) returns (n: string)
    requires Carried(m, p)
    ensures n in m.rows && p in m.rows[n].variants
  {
    n :| n in m.rows && p in m.rows[n].variants;
  }

  lemma CarrierOf(m: Manifest, p: string) returns (k: nat)
    requires WellFormed(m) && p in m.precisions
    ensures k < |m.names| && VariantAt(m, m.names[k], p).Some?
  {
    hide RowOk, Carried;
    var n := CarriedWitness(m, p);
    assert n in m.names;
    k :| 0 <= k < |m.names| && m.names[k] == n;
  }

  /**
   * Parsing what was written gives the same rows, shapes, slices and set of precisions, if and
   * only if no precision name contains a comma; otherwise the written manifest cannot be parsed.
   */
  lemma RoundTripExact(m: Manifest)
    requires WellFormed(m)
    ensures var r := FromTable(ToTable(m)); (r.Ok? && Same(r.value, m)) <==> NoComma(m.precisions)
    ensures FromTable(ToTable(m)).Err? <==> !NoComma(m.precisions)
  {
    hide FromTable, ToTable, WellFormed, NoComma;
    if NoComma(m.precisions) { RoundTrip(m); } else { CommaFails(m); }
  }

  // ---- manifests from before packing ----

  /** A table written before slices had offsets: the same columns without the offset ones. */
  function WithoutOffsets(columns: seq<Named>): seq<Named> {
    if columns == [] then []
    else (if EndsWith(columns[0].name, "__offsets") then [] else [columns[0]]) + WithoutOffsets(columns[1..])
  }

  lemma {:induction false} FindWithout(columns: seq<Named>, name: string)
    ensures Find(WithoutOffsets(columns), name) == if EndsWith(name, "__offsets") then None else Find(columns, name)
    decreases |columns|
  {
    hide EndsWith;
    if columns != [] {
      FindWithout(columns[1..], name);
      var rest := WithoutOffsets(columns[1..]);
      assert ([columns[0]] + rest)[1..] == rest && [] + rest == rest;
    }
  }

  lemma OffsetNames(p: string)
    ensures EndsWith(OffsetsCol(p), "__offsets") && !EndsWith(DtypeCol(p), "__offsets")
    ensures !EndsWith(KeysCol(p), "__offsets") && !EndsWith(SizesCol(p), "__offsets")
  {
    Endings(p);
    assert OffsetsCol(p)[|OffsetsCol(p)| - 9..] == "__offsets";
  }

  lemma {:induction false} DtypesWithout(columns: seq<Named>)
    ensures DtypePrecisions(WithoutOffsets(columns)) == DtypePrecisions(columns)
    decreases |columns|
  {
    if columns != [] {
      DtypesWithout(columns[1..]);
      var rest := WithoutOffsets(columns[1..]);
      assert ([columns[0]] + rest)[1..] == rest && [] + rest == rest;
      if EndsWith(columns[0].name, "__offsets") { NotBothSuffixes(columns[0].name); }
    }
  }

  lemma NotBothSuffixes(s: string)
    requires EndsWith(s, "__offsets")
    ensures !EndsWith(s, "__dtype")
  {
    EndingOf(s, "__offsets");
    EndingOf(s, "__dtype");
    assert Ending("__offsets") == "ts" && Ending("__dtype") == "pe" && "ts"[0] != "pe"[0];
  }

  /** Every slice is a whole Value from its beginning. */
  ghost predicate ZeroOffsets(m: Manifest) {
    forall n, p | VariantAt(m, n, p).Some? ::
      VariantAt(m, n, p).value.offsets == seq(|VariantAt(m, n, p).value.keys|, _ => 0)
  }

  ghost function Legacy(m: Manifest): Table {
    ToTable(m).(columns := WithoutOffsets(ToTable(m).columns))
  }

  lemma LegacyGroup(m: Manifest, p: string)
    requires p in m.precisions
    ensures HasGroup(ToTable(m), p) && HasGroup(Legacy(m), p)
  {
    hide HasGroup;
    GroupPresent(m, p);
    LegacyFinds(m, p);
    assert HasGroup(Legacy(m), p) by { SameGroup(ToTable(m), Legacy(m), p); }
  }

  lemma SameGroup(t: Table, u: Table, p: string)
    requires HasGroup(t, p) && u.names == t.names && Find(u.columns, OffsetsCol(p)) == None
    requires Find(u.columns, DtypeCol(p)) == Find(t.columns, DtypeCol(p))
    requires Find(u.columns, KeysCol(p)) == Find(t.columns, KeysCol(p))
    requires Find(u.columns, SizesCol(p)) == Find(t.columns, SizesCol(p))
    ensures HasGroup(u, p)
  {
  }

  lemma LegacyFinds(m: Manifest, p: string)
    ensures var t, u := ToTable(m), Legacy(m);
            && Find(u.columns, OffsetsCol(p)) == None
            && Find(u.columns, DtypeCol(p)) == Find(t.columns, DtypeCol(p))
            && Find(u.columns, KeysCol(p)) == Find(t.columns, KeysCol(p))
            && Find(u.columns, SizesCol(p)) == Find(t.columns, SizesCol(p))
  {
    hide EndsWith, DtypeCol, KeysCol, OffsetsCol, SizesCol, WithoutOffsets, Find, Groups;
    var cs := ToTable(m).columns;
    OffsetNames(p);
    FindWithout(cs, OffsetsCol(p));
    FindWithout(cs, DtypeCol(p));
    FindWithout(cs, KeysCol(p));
    FindWithout(cs, SizesCol(p));
  }

  lemma LegacyCell(m: Manifest, acc: Manifest, i: nat, p: string)
    requires WellFormed(m) && ZeroOffsets(m) && i < |m.names| && p in m.precisions
    ensures HasGroup(ToTable(m), p) && HasGroup(Legacy(m), p)
    ensures AddCell(Legacy(m), acc, i, p) == AddCell(ToTable(m), acc, i, p)
  {
    hide HasGroup, Find, WithoutOffsets, Groups, WellFormed, CatalogManifest.AddTensor, DtypeCol, KeysCol, OffsetsCol,
         SizesCol, Join;
    LegacyGroup(m, p);
    LegacyFinds(m, p);
    FindGroups(m, m.precisions, p);
    var v := VariantAt(m, m.names[i], p);
    if v.Some? { ZeroAdd(acc, m.names[i], p, ShapeOf(m, m.names[i]), v.value); }
  }

  lemma ZeroAdd(acc: Manifest, n: string, p: string, shape: seq<int>, v: Variant)
    requires v.offsets == seq(|v.keys|, _ => 0)
    ensures AddTensor(acc, n, p, v.dtype, shape, v.keys, v.sizes, None) ==
            AddTensor(acc, n, p, v.dtype, shape, v.keys, v.sizes, Some(v.offsets))
  {
  }

  lemma {:induction false} LegacyRow(m: Manifest, acc: Manifest, i: nat, ps: seq<string>)
    requires WellFormed(m) && ZeroOffsets(m) && i < |m.names| && forall p | p in ps :: p in m.precisions
    ensures forall p | p in ps :: HasGroup(ToTable(m), p) && HasGroup(Legacy(m), p)
    ensures AddRow(Legacy(m), acc, i, ps) == AddRow(ToTable(m), acc, i, ps)
    decreases |ps|
  {
    hide HasGroup, AddCell, WellFormed, ZeroOffsets, Groups, WithoutOffsets;
    forall p | p in ps ensures HasGroup(ToTable(m), p) && HasGroup(Legacy(m), p) { LegacyGroup(m, p); }
    if ps != [] {
      LegacyCell(m, acc, i, ps[0]);
      var r := AddCell(ToTable(m), acc, i, ps[0]);
      if r.Ok? { LegacyRow(m, r.value, i, ps[1..]); }
    }
  }

  lemma {:induction false} LegacyRows(m: Manifest, acc: Manifest, i: nat, ps: seq<string>)
    requires WellFormed(m) && ZeroOffsets(m) && i <= |m.names| && forall p | p in ps :: p in m.precisions
    ensures forall p | p in ps :: HasGroup(ToTable(m), p) && HasGroup(Legacy(m), p)
    ensures AddRows(Legacy(m), acc, i, ps) == AddRows(ToTable(m), acc, i, ps)
    decreases |m.names| - i
  {
    hide HasGroup, AddRow, WellFormed, ZeroOffsets, Groups, WithoutOffsets;
    forall p | p in ps ensures HasGroup(ToTable(m), p) && HasGroup(Legacy(m), p) { LegacyGroup(m, p); }
    if i < |m.names| {
      LegacyRow(m, acc, i, ps);
      var r := AddRow(ToTable(m), acc, i, ps);
      if r.Ok? { LegacyRows(m, r.value, i + 1, ps); }
    }
  }

  /** A table written before packing existed, without offset columns, reads back as whole Values from offset 0. */
  lemma LegacyReads(m: Manifest)
    requires WellFormed(m) && NoComma(m.precisions) && ZeroOffsets(m)
    ensures FromTable(Legacy(m)).Ok? && Same(FromTable(Legacy(m)).value, m)
  {
    hide HasGroup, AddRows, WellFormed, ZeroOffsets, Groups, WithoutOffsets, Same, NoComma;
    RoundTrip(m);
    PrecisionsOfTable(m);
    DtypesWithout(ToTable(m).columns);
    var ps := Precisions(ToTable(m));
    LegacyRows(m, EMPTY, 0, ps);
  }
}
