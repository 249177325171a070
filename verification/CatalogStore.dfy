/**
 * Keys, chunking, the key-value store and the reader of the Weights catalog.
 *
 * The hash, the canonical spelling of a revision and the byte layout of a stored table are
 * foreign code; they arrive in a `Codec`. What is assumed of them is stated by `Sound`: distinct
 * inputs have distinct digests, and decoding undoes encoding.
 */
module CatalogStore {
  import opened Common
  import opened CatalogManifest

  datatype Codec = Codec(
    hash: Bytes -> Bytes,
    canonical: string -> Bytes,
    encode: Table -> Bytes,
    decode: Bytes -> Option<Table>)

  ghost predicate CollisionFree(c: Codec) {
    forall a, b :: c.hash(a) == c.hash(b) ==> a == b
  }

  ghost predicate Lossless(c: Codec) {
    forall t :: c.decode(c.encode(t)) == Some(t)
  }

  ghost predicate Sound(c: Codec) {
    CollisionFree(c) && Lossless(c)
  }

  // ---- keys ----

  const MANIFEST_TAG: byte := 0
  const CHUNK_TAG: byte := 1

  function ChunkKey(c: Codec, value: Bytes): Key {
    [CHUNK_TAG] + c.hash(value)
  }

  function ManifestKey(c: Codec, revision: string): Key {
    [MANIFEST_TAG] + c.hash(c.canonical(revision))
  }

  predicate IsChunkKey(k: Key) {
    k != [] && k[0] == CHUNK_TAG
  }

  /** The two keyspaces never meet, and each key names one value or one revision. */
  lemma KeyspacesDisjoint(c: Codec, a: Bytes, b: Bytes, r: string, q: string)
    requires CollisionFree(c)
    ensures ChunkKey(c, a) != ManifestKey(c, r)
    ensures ChunkKey(c, a) == ChunkKey(c, b) <==> a == b
    ensures ManifestKey(c, r) == ManifestKey(c, q) <==> c.canonical(r) == c.canonical(q)
  {
    assert ChunkKey(c, a)[0] != ManifestKey(c, r)[0];
    assert ChunkKey(c, a)[1..] == c.hash(a) && ChunkKey(c, b)[1..] == c.hash(b);
    assert ManifestKey(c, r)[1..] == c.hash(c.canonical(r)) && ManifestKey(c, q)[1..] == c.hash(c.canonical(q));
  }

  // ---- chunking ----

  function Flat(parts: seq<Bytes>): Bytes {
    if parts == [] then [] else parts[0] + Flat(parts[1..])
  }

  lemma {:induction false} FlatPlus(a: seq<Bytes>, b: seq<Bytes>)
    ensures Flat(a + b) == Flat(a) + Flat(b)
  {
    if a == [] {
      assert a + b == b;
    } else {
      assert (a + b)[1..] == a[1..] + b;
      FlatPlus(a[1..], b);
    }
  }

  lemma FlatSnoc(parts: seq<Bytes>, x: Bytes)
    ensures Flat(parts + [x]) == Flat(parts) + x
  {
    FlatPlus(parts, [x]);
    assert [x][1..] == [] && Flat([x]) == x;
  }

  function IterChunks(data: Bytes, maxLen: nat): seq<Bytes>
    requires maxLen > 0
    decreases |data|
  {
    if data == [] then []
    else if |data| <= maxLen then [data]
    else [data[..maxLen]] + IterChunks(data[maxLen..], maxLen)
  }

  /** Chunks are non-empty and within the cap, all but the last fill it, and they join to the data. */
  lemma {:induction false} ChunksRejoin(data: Bytes, maxLen: nat)
    requires maxLen > 0
    ensures var cs := IterChunks(data, maxLen);
            && Flat(cs) == data
            && (forall i | 0 <= i < |cs| :: 0 < |cs[i]| <= maxLen)
            && (forall i | 0 <= i < |cs| - 1 :: |cs[i]| == maxLen)
    decreases |data|
  {
    if data == [] {
    } else if |data| <= maxLen {
      assert [data][1..] == [] && Flat([data]) == data;
    } else {
      ChunksRejoin(data[maxLen..], maxLen);
      var rest := IterChunks(data[maxLen..], maxLen);
      var cs := [data[..maxLen]] + rest;
      assert cs[1..] == rest;
      assert data == data[..maxLen] + data[maxLen..];
      assert rest != [];
      forall i | 0 <= i < |cs| - 1 ensures |cs[i]| == maxLen {
        if i > 0 { assert cs[i] == rest[i - 1]; }
      }
    }
  }

  // ---- the store ----

  type Store = map<Key, Bytes>

  /** Every Value under a chunk key is the one its key names. */
  ghost predicate ChunksIntact(c: Codec, s: Store) {
    forall k | k in s && IsChunkKey(k) :: ChunkKey(c, s[k]) == k
  }

  class KvClient {
    var data: Store
    var storeCalls: nat

    constructor ()
      ensures data == map[] && storeCalls == 0
    {
      data := map[];
      storeCalls := 0;
    }

    method StoreValue(key: Key, value: Bytes)
      modifies this
      ensures data == old(data)[key := value] && storeCalls == old(storeCalls) + 1
    {
      data := data[key := value];
      storeCalls := storeCalls + 1;
    }

    /** Deleting an absent key is a no-op. */
    method Delete(key: Key)
      modifies this`data
      ensures data == old(data) - {key}
    {
      data := data - {key};
    }
  }

  // ---- reading ----

  datatype LoadError =
    | ManifestNotFound
    | Unparseable
    | PrecisionNotFound
    | MissingChunk
    | IntegrityError
    | OutOfRange
    | WrongLength

  /** Retrieve a Value and check that it hashes to the key it was asked under. */
  function Fetch(c: Codec, s: Store, key: Key): Result<Bytes, LoadError> {
    if key !in s then Err(MissingChunk)
    else if ChunkKey(c, s[key]) != key then Err(IntegrityError)
    else Ok(s[key])
  }

  /** Python's `value[offset:end]` for `0 <= offset` and `end <= len(value)`. */
  function Slice(value: Bytes, offset: int, end: int): Bytes
    requires 0 <= offset && end <= |value|
  {
    var e := if end >= 0 then end else if |value| + end < 0 then 0 else |value| + end;
    if e <= offset then [] else value[offset..e]
  }

  function Cut(value: Bytes, offset: int, size: int): Result<Bytes, LoadError> {
    if offset < 0 || offset + size > |value| then Err(OutOfRange)
    else Ok(Slice(value, offset, offset + size))
  }

  function Count(v: Variant): nat {
    Min(|v.keys|, Min(|v.offsets|, |v.sizes|))
  }

  /** The slices of a variant from the `i`-th on, joined. */
  function JoinFrom(c: Codec, s: Store, v: Variant, i: nat): Result<Bytes, LoadError>
    requires i <= Count(v)
    decreases Count(v) - i
  {
    if i == Count(v) then Ok([])
    else
      var value := Fetch(c, s, v.keys[i]);
      if value.Err? then Err(value.error) else
      var piece := Cut(value.value, v.offsets[i], v.sizes[i]);
      if piece.Err? then piece else
      var rest := JoinFrom(c, s, v, i + 1);
      if rest.Err? then rest else Ok(piece.value + rest.value)
  }

  function Total(sizes: seq<int>): int {
    if sizes == [] then 0 else sizes[0] + Total(sizes[1..])
  }

  function TensorBytes(c: Codec, s: Store, v: Variant): Result<Bytes, LoadError> {
    var r := JoinFrom(c, s, v, 0);
    if r.Err? then r
    else if |r.value| != Total(v.sizes[..Count(v)]) then Err(WrongLength)
    else r
  }

  /** Tensors `i..` of the manifest at one precision; a tensor without it is skipped. */
  function Tensors(c: Codec, s: Store, m: Manifest, p: string, i: nat): Result<map<string, Bytes>, LoadError>
    requires i <= |m.names|
    decreases i
  {
    if i == 0 then Ok(map[])
    else
      var before := Tensors(c, s, m, p, i - 1);
      if before.Err? then before else
      match VariantAt(m, m.names[i - 1], p)
      case None => before
      case Some(v) =>
        var t := TensorBytes(c, s, v);
        if t.Err? then Err(t.error) else Ok(before.value[m.names[i - 1] := t.value])
  }

  function Reassemble(c: Codec, s: Store, m: Manifest, p: string): Result<map<string, Bytes>, LoadError> {
    if p !in m.precisions then Err(PrecisionNotFound) else Tensors(c, s, m, p, |m.names|)
  }

  function Parse(c: Codec, raw: Bytes): Result<Manifest, ManifestError> {
    match c.decode(raw)
    case None => Err(NotATable)
    case Some(t) => FromTable(t)
  }

  function Load(c: Codec, s: Store, revision: string, p: string): Result<map<string, Bytes>, LoadError> {
    var k := ManifestKey(c, revision);
    if k !in s then Err(ManifestNotFound)
    else
      var m := Parse(c, s[k]);
      if m.Err? then Err(Unparseable) else Reassemble(c, s, m.value, p)
  }

  /** A tensor as it was given: element type, shape and bytes. */
  datatype Tensor = Tensor(dtype: string, shape: seq<int>, data: Bytes)

  /** The loaded bytes with the element type and shape the manifest records for them. */
  function Described(m: Manifest, p: string, raw: map<string, Bytes>): map<string, Tensor> {
    map n | n in raw && VariantAt(m, n, p).Some? :: Tensor(VariantAt(m, n, p).value.dtype, ShapeOf(m, n), raw[n])
  }

  function LoadArrays(c: Codec, s: Store, revision: string, p: string): Result<map<string, Tensor>, LoadError> {
    var k := ManifestKey(c, revision);
    if k !in s then Err(ManifestNotFound)
    else
      var m := Parse(c, s[k]);
      if m.Err? then Err(Unparseable)
      else
        var raw := Reassemble(c, s, m.value, p);
        if raw.Err? then Err(raw.error) else Ok(Described(m.value, p, raw.value))
  }

  // ---- what a readable variant is ----

  ghost predicate SliceOk(c: Codec, s: Store, v: Variant, i: nat)
    requires i < Count(v)
  {
    && v.keys[i] in s && ChunkKey(c, s[v.keys[i]]) == v.keys[i]
    && 0 <= v.offsets[i] && 0 <= v.sizes[i] && v.offsets[i] + v.sizes[i] <= |s[v.keys[i]]|
  }

  function SliceBytes(s: Store, v: Variant, i: nat): Bytes
    requires i < Count(v)
  {
    if v.keys[i] in s && 0 <= v.offsets[i] <= v.offsets[i] + v.sizes[i] <= |s[v.keys[i]]|
    then s[v.keys[i]][v.offsets[i]..v.offsets[i] + v.sizes[i]]
    else []
  }

  /** Every slice lies inside an intact Value, and the slices join to `data`. */
  ghost predicate Reads(c: Codec, s: Store, v: Variant, data: Bytes) {
    && |v.keys| == |v.offsets| == |v.sizes|
    && (forall i: nat | i < |v.keys| :: SliceOk(c, s, v, i))
    && data == Flat(seq(|v.keys|, i requires 0 <= i < |v.keys| => SliceBytes(s, v, i)))
  }

  lemma CutSlice(c: Codec, s: Store, v: Variant, i: nat)
    requires i < Count(v) && SliceOk(c, s, v, i)
    ensures Fetch(c, s, v.keys[i]) == Ok(s[v.keys[i]])
    ensures Cut(s[v.keys[i]], v.offsets[i], v.sizes[i]) == Ok(SliceBytes(s, v, i))
    ensures |SliceBytes(s, v, i)| == v.sizes[i]
  {
    var value, offset := s[v.keys[i]], v.offsets[i];
    assert value[offset..offset] == [];
  }

  lemma {:induction false} JoinReads(c: Codec, s: Store, v: Variant, i: nat)
    requires i <= |v.keys| == |v.offsets| == |v.sizes| && forall k: nat | k < |v.keys| :: SliceOk(c, s, v, k)
    ensures var parts := seq(|v.keys|, k requires 0 <= k < |v.keys| => SliceBytes(s, v, k));
            && JoinFrom(c, s, v, i) == Ok(Flat(parts[i..]))
            && |Flat(parts[i..])| == Total(v.sizes[i..])
    decreases |v.keys| - i
  {
    var parts := seq(|v.keys|, k requires 0 <= k < |v.keys| => SliceBytes(s, v, k));
    assert Count(v) == |v.keys|;
    if i < |v.keys| {
      JoinReads(c, s, v, i + 1);
      assert parts[i..] == [parts[i]] + parts[i + 1..];
      assert v.sizes[i..] == [v.sizes[i]] + v.sizes[i + 1..];
      CutSlice(c, s, v, i);
    } else {
      assert parts[i..] == [] && v.sizes[i..] == [];
    }
  }

  // ---- exactly when a variant loads ----

  /** What is wrong with one slice, if anything: its Value is gone, is not the one named, or is too short. */
  function Fault(c: Codec, s: Store, v: Variant, i: nat): Option<LoadError>
    requires i < Count(v)
  {
    if v.keys[i] !in s then Some(MissingChunk)
    else if ChunkKey(c, s[v.keys[i]]) != v.keys[i] then Some(IntegrityError)
    else if v.offsets[i] < 0 || v.offsets[i] + v.sizes[i] > |s[v.keys[i]]| then Some(OutOfRange)
    else None
  }

  ghost predicate FirstFault(c: Codec, s: Store, v: Variant, from: nat, i: nat, e: LoadError) {
    from <= i < Count(v) && Fault(c, s, v, i) == Some(e) && forall j | from <= j < i :: Fault(c, s, v, j).None?
  }

  /** The part of a Python slice that is there is at least as long as asked, and longer for a negative size. */
  lemma CutLength(value: Bytes, offset: int, size: int)
    requires 0 <= offset && offset + size <= |value|
    ensures |Slice(value, offset, offset + size)| >= size
    ensures |Slice(value, offset, offset + size)| == size <==> size >= 0
  {
  }

  lemma {:induction false} JoinExact(c: Codec, s: Store, v: Variant, i: nat)
    requires i <= Count(v)
    ensures var r, sizes := JoinFrom(c, s, v, i), v.sizes[i..Count(v)];
            && (r.Ok? <==> forall j | i <= j < Count(v) :: Fault(c, s, v, j).None?)
            && (r.Err? ==> exists j: nat :: FirstFault(c, s, v, i, j, r.error))
            && (r.Ok? ==> |r.value| >= Total(sizes))
            && (r.Ok? ==> (|r.value| == Total(sizes) <==> forall j | i <= j < Count(v) :: v.sizes[j] >= 0))
    decreases Count(v) - i
  {
    hide Slice;
    if i < Count(v) {
      JoinExact(c, s, v, i + 1);
      assert v.sizes[i..Count(v)] == [v.sizes[i]] + v.sizes[i + 1..Count(v)];
      var f := Fault(c, s, v, i);
      if f.Some? {
        assert FirstFault(c, s, v, i, i, f.value);
      } else {
        CutLength(s[v.keys[i]], v.offsets[i], v.sizes[i]);
        var rest := JoinFrom(c, s, v, i + 1);
        if rest.Err? {
          var j: nat :| FirstFault(c, s, v, i + 1, j, rest.error);
          assert FirstFault(c, s, v, i, j, rest.error);
        }
      }
    }
  }

  /**
   * A variant loads if and only if each of its slices lies in an intact Value and has no negative size;
   * otherwise the first slice at fault decides the error, and a negative size alone is a wrong length.
   */
  lemma TensorBytesExact(c: Codec, s: Store, v: Variant)
    ensures var r := TensorBytes(c, s, v);
            && (r.Ok? <==> forall i | 0 <= i < Count(v) :: Fault(c, s, v, i).None? && v.sizes[i] >= 0)
            && (r.Err? ==> if exists i | 0 <= i < Count(v) :: Fault(c, s, v, i).Some?
                           then exists i: nat :: FirstFault(c, s, v, 0, i, r.error) else r.error == WrongLength)
  {
    JoinExact(c, s, v, 0);
    assert v.sizes[0..Count(v)] == v.sizes[..Count(v)];
  }

  lemma ReadsLoads(c: Codec, s: Store, v: Variant, data: Bytes)
    requires Reads(c, s, v, data)
    ensures TensorBytes(c, s, v) == Ok(data)
  {
    JoinReads(c, s, v, 0);
    var parts := seq(|v.keys|, k requires 0 <= k < |v.keys| => SliceBytes(s, v, k));
    assert parts[0..] == parts && v.sizes[0..] == v.sizes == v.sizes[..Count(v)];
  }

  /** Readability survives any change that keeps the chunk Values it uses. */
  lemma ReadsStays(c: Codec, s: Store, s': Store, v: Variant, data: Bytes)
    requires Reads(c, s, v, data)
    requires forall k | k in v.keys && k in s :: k in s' && s'[k] == s[k]
    ensures Reads(c, s', v, data)
  {
    forall i: nat | i < |v.keys| ensures SliceOk(c, s', v, i) && SliceBytes(s', v, i) == SliceBytes(s, v, i) {
      assert SliceOk(c, s, v, i);
      assert v.keys[i] in v.keys;
    }
    assert seq(|v.keys|, i requires 0 <= i < |v.keys| => SliceBytes(s', v, i))
        == seq(|v.keys|, i requires 0 <= i < |v.keys| => SliceBytes(s, v, i));
  }
}
