/**
 * The loader as it is written: one pass over the tensors with a cache of verified Values, proved
 * equal to the plain reader that fetches and verifies every slice anew.
 */
module CatalogLoader {
  import opened Common
  import opened CatalogManifest
  import opened CatalogStore

  ghost predicate CacheOk(c: Codec, s: Store, verified: map<Key, Bytes>) {
    forall k | k in verified :: k in s && s[k] == verified[k] && ChunkKey(c, s[k]) == k
  }

  /** A Value shared by several slices is retrieved and hashed once, then served from the cache. */
  method GetVerified(c: Codec, kv: KvClient, verified: map<Key, Bytes>, key: Key)
    returns (r: Result<Bytes, LoadError>, verified': map<Key, Bytes>)
    requires CacheOk(c, kv.data, verified)
    ensures r == Fetch(c, kv.data, key) && CacheOk(c, kv.data, verified')
  {
    verified' := verified;
    if key in verified { return Ok(verified[key]), verified; }
    if key !in kv.data { return Err(MissingChunk), verified; }
    var value := kv.data[key];
    if ChunkKey(c, value) != key { return Err(IntegrityError), verified; }
    verified' := verified[key := value];
    r := Ok(value);
  }

  method LoadTensor(c: Codec, kv: KvClient, verified: map<Key, Bytes>, v: Variant)
    returns (r: Result<Bytes, LoadError>, verified': map<Key, Bytes>)
    requires CacheOk(c, kv.data, verified)
    ensures r == TensorBytes(c, kv.data, v) && CacheOk(c, kv.data, verified')
  {
    hide CacheOk, Cut;
    verified' := verified;
    var data: Bytes := [];
    var total := 0;
    assert forall x: Bytes :: [] + x == x;
    for i := 0 to Count(v)
      invariant CacheOk(c, kv.data, verified')
      invariant total == Total(v.sizes[..i])
      invariant JoinFrom(c, kv.data, v, 0) ==
                var rest := JoinFrom(c, kv.data, v, i);
                if rest.Err? then rest else Ok(data + rest.value)
    {
      var value;
      value, verified' := GetVerified(c, kv, verified', v.keys[i]);
      if value.Err? { return Err(value.error), verified'; }
      var piece := Cut(value.value, v.offsets[i], v.sizes[i]);
      if piece.Err? { return piece, verified'; }
      ghost var before := data;
      data := data + piece.value;
      total := total + v.sizes[i];
      TotalSnoc(v.sizes[..i], v.sizes[i]);
      assert v.sizes[..i + 1] == v.sizes[..i] + [v.sizes[i]];
      ghost var rest := JoinFrom(c, kv.data, v, i + 1);
      if rest.Ok? { assert before + (piece.value + rest.value) == data + rest.value; }
    }
    assert data + [] == data;
    r := if |data| != total then Err(WrongLength) else Ok(data);
  }

  lemma {:induction false} TotalSnoc(sizes: seq<int>, x: int)
    ensures Total(sizes + [x]) == Total(sizes) + x
  {
    if sizes == [] {
      assert [] + [x] == [x] && [x][1..] == [];
    } else {
      assert (sizes + [x])[1..] == sizes[1..] + [x];
      TotalSnoc(sizes[1..], x);
    }
  }

  method ReassembleTensors(c: Codec, kv: KvClient, m: Manifest, p: string)
    returns (r: Result<map<string, Bytes>, LoadError>)
    ensures r == Reassemble(c, kv.data, m, p)
  {
    if p !in m.precisions { return Err(PrecisionNotFound); }
    var verified: map<Key, Bytes> := map[];
    var out: map<string, Bytes> := map[];
    for i := 0 to |m.names|
      invariant CacheOk(c, kv.data, verified)
      invariant Tensors(c, kv.data, m, p, i) == Ok(out)
    {
      var v := VariantAt(m, m.names[i], p);
      if v.Some? {
        var t;
        t, verified := LoadTensor(c, kv, verified, v.value);
        if t.Err? {
          TensorsStop(c, kv.data, m, p, i + 1, |m.names|);
          return Err(t.error);
        }
        out := out[m.names[i] := t.value];
      }
    }
    r := Ok(out);
  }

  /** The first failing tensor decides the outcome. */
  lemma {:induction false} TensorsStop(c: Codec, s: Store, m: Manifest, p: string, i: nat, j: nat)
    requires i <= j <= |m.names| && Tensors(c, s, m, p, i).Err?
    ensures Tensors(c, s, m, p, j) == Tensors(c, s, m, p, i)
    decreases j
  {
    if i < j { TensorsStop(c, s, m, p, i, j - 1); }
  }

  method LoadRevision(c: Codec, kv: KvClient, revision: string, p: string)
    returns (r: Result<map<string, Bytes>, LoadError>)
    ensures r == Load(c, kv.data, revision, p)
  {
    var key := ManifestKey(c, revision);
    if key !in kv.data { return Err(ManifestNotFound); }
    var m := Parse(c, kv.data[key]);
    if m.Err? { return Err(Unparseable); }
    r := ReassembleTensors(c, kv, m.value, p);
  }

  /** The tensors of a load in manifest order, each with its recorded element type and shape. */
  method Describe(m: Manifest, p: string, raw: map<string, Bytes>) returns (out: map<string, Tensor>)
    requires forall n | n in raw :: n in m.names && VariantAt(m, n, p).Some?
    ensures out == Described(m, p, raw)
  {
    out := map[];
    for i := 0 to |m.names|
      invariant forall n :: n in out <==> n in raw && n in m.names[..i]
      invariant forall n | n in out :: out[n] == Tensor(VariantAt(m, n, p).value.dtype, ShapeOf(m, n), raw[n])
    {
      var n := m.names[i];
      if n in raw { out := out[n := Tensor(VariantAt(m, n, p).value.dtype, ShapeOf(m, n), raw[n])]; }
    }
    assert m.names[..|m.names|] == m.names;
  }

  method LoadTensors(c: Codec, kv: KvClient, revision: string, p: string)
    returns (r: Result<map<string, Tensor>, LoadError>)
    ensures r == LoadArrays(c, kv.data, revision, p)
  {
    var key := ManifestKey(c, revision);
    if key !in kv.data { return Err(ManifestNotFound); }
    var m := Parse(c, kv.data[key]);
    if m.Err? { return Err(Unparseable); }
    var raw := ReassembleTensors(c, kv, m.value, p);
    if raw.Err? { return Err(raw.error); }
    TensorsCarried(c, kv.data, m.value, p, |m.value.names|);
    var out := Describe(m.value, p, raw.value);
    r := Ok(out);
  }

  lemma {:induction false} TensorsCarried(c: Codec, s: Store, m: Manifest, p: string, i: nat)
    requires i <= |m.names|
    ensures var r := Tensors(c, s, m, p, i);
            r.Ok? ==> forall n | n in r.value :: n in m.names && VariantAt(m, n, p).Some?
    decreases i
  {
    if i > 0 { TensorsCarried(c, s, m, p, i - 1); }
  }

  // ---- what a load returns when every variant reads ----

  /** The tensors carried at precision `p` among the first `i` rows. */
  ghost predicate LoadedAs(m: Manifest, p: string, i: nat, want: map<string, Bytes>, got: map<string, Bytes>)
    requires i <= |m.names|
  {
    && (forall n :: n in got <==> n in m.names[..i] && VariantAt(m, n, p).Some?)
    && (forall n | n in got :: n in want && got[n] == want[n])
  }

  lemma {:induction false} TensorsRead(c: Codec, s: Store, m: Manifest, p: string, i: nat, want: map<string, Bytes>)
    requires i <= |m.names|
    requires forall n | n in m.names && VariantAt(m, n, p).Some? ::
               n in want && Reads(c, s, VariantAt(m, n, p).value, want[n])
    ensures var r := Tensors(c, s, m, p, i); r.Ok? && LoadedAs(m, p, i, want, r.value)
    decreases i
  {
    hide Reads, TensorBytes, VariantAt, LoadedAs;
    if i == 0 {
      NothingLoaded(m, p, want);
    } else {
      TensorsRead(c, s, m, p, i - 1, want);
      var n, got := m.names[i - 1], Tensors(c, s, m, p, i - 1).value;
      if VariantAt(m, n, p).Some? {
        ReadsLoads(c, s, VariantAt(m, n, p).value, want[n]);
      }
      LoadedNext(m, p, i, want, got);
    }
  }

  lemma NothingLoaded(m: Manifest, p: string, want: map<string, Bytes>)
    ensures LoadedAs(m, p, 0, want, map[])
  {
  }

  lemma LoadedNext(m: Manifest, p: string, i: nat, want: map<string, Bytes>, got: map<string, Bytes>)
    requires 0 < i <= |m.names| && LoadedAs(m, p, i - 1, want, got)
    requires VariantAt(m, m.names[i - 1], p).Some? ==> m.names[i - 1] in want
    ensures var n := m.names[i - 1];
            LoadedAs(m, p, i, want, if VariantAt(m, n, p).Some? then got[n := want[n]] else got)
  {
    hide VariantAt;
    assert m.names[..i] == m.names[..i - 1] + [m.names[i - 1]];
  }

  // ---- exactly when a load succeeds ----

  ghost predicate VariantSound(c: Codec, s: Store, v: Variant) {
    forall i | 0 <= i < Count(v) :: Fault(c, s, v, i).None? && v.sizes[i] >= 0
  }

  lemma {:induction false} TensorsExact(c: Codec, s: Store, m: Manifest, p: string, i: nat)
    requires i <= |m.names|
    ensures var r := Tensors(c, s, m, p, i);
            && (r.Ok? <==> forall k | 0 <= k < i && VariantAt(m, m.names[k], p).Some? ::
                             VariantSound(c, s, VariantAt(m, m.names[k], p).value))
            && (r.Err? ==> exists k :: FailsFirst(c, s, m, p, i, k, r.error))
    decreases i
  {
    hide TensorBytes, VariantSound;
    if i > 0 {
      TensorsExact(c, s, m, p, i - 1);
      var v := VariantAt(m, m.names[i - 1], p);
      if v.Some? {
        assert TensorBytes(c, s, v.value).Ok? <==> VariantSound(c, s, v.value) by { SoundLoads(c, s, v.value); }
      }
      if Tensors(c, s, m, p, i - 1).Err? {
        var k :| FailsFirst(c, s, m, p, i - 1, k, Tensors(c, s, m, p, i - 1).error);
        assert FailsFirst(c, s, m, p, i, k, Tensors(c, s, m, p, i).error);
      } else if Tensors(c, s, m, p, i).Err? {
        assert FailsFirst(c, s, m, p, i, i - 1, Tensors(c, s, m, p, i).error);
      }
    }
  }

  lemma SoundLoads(c: Codec, s: Store, v: Variant)
    ensures TensorBytes(c, s, v).Ok? <==> VariantSound(c, s, v)
  {
    hide TensorBytes;
    TensorBytesExact(c, s, v);
  }

  /** Tensor `k` is the first of the first `i` that does not load, with this error. */
  ghost predicate FailsFirst(c: Codec, s: Store, m: Manifest, p: string, i: nat, k: int, e: LoadError) {
    && 0 <= k < i <= |m.names|
    && VariantAt(m, m.names[k], p).Some? && TensorBytes(c, s, VariantAt(m, m.names[k], p).value) == Err(e)
    && forall j | 0 <= j < k && VariantAt(m, m.names[j], p).Some? ::
         VariantSound(c, s, VariantAt(m, m.names[j], p).value)
  }

  /**
   * On any store, damaged or not: a load succeeds if and only if the revision's manifest is there and
   * parses, carries the precision, and each variant it needs is sound.
   */
  lemma LoadSucceedsExactly(c: Codec, s: Store, revision: string, p: string)
    ensures var r, k := Load(c, s, revision, p), ManifestKey(c, revision);
            && (r == Err(ManifestNotFound) <==> k !in s)
            && (r == Err(Unparseable) <==> k in s && Parse(c, s[k]).Err?)
            && (k in s && Parse(c, s[k]).Ok? ==>
                  var m := Parse(c, s[k]).value;
                  && (r == Err(PrecisionNotFound) <==> p !in m.precisions)
                  && (r.Ok? <==> && p in m.precisions
                                 && forall i | 0 <= i < |m.names| && VariantAt(m, m.names[i], p).Some? ::
                                      VariantSound(c, s, VariantAt(m, m.names[i], p).value)))
  {
    hide Tensors, VariantSound, Parse;
    var k := ManifestKey(c, revision);
    if k in s && Parse(c, s[k]).Ok? {
      var m := Parse(c, s[k]).value;
      TensorsExact(c, s, m, p, |m.names|);
      TensorFaults(c, s, m, p, |m.names|);
    }
  }

  /** No tensor fails with an error that is about the manifest. */
  lemma TensorFaults(c: Codec, s: Store, m: Manifest, p: string, i: nat)
    requires i <= |m.names|
    ensures var r := Tensors(c, s, m, p, i);
            r.Err? ==> r.error in {MissingChunk, IntegrityError, OutOfRange, WrongLength}
  {
    hide Tensors, TensorBytes;
    TensorsExact(c, s, m, p, i);
    var r := Tensors(c, s, m, p, i);
    if r.Err? {
      var k :| FailsFirst(c, s, m, p, i, k, r.error);
      TensorBytesExact(c, s, VariantAt(m, m.names[k], p).value);
    }
  }

  // ---- integrity ----

  /** A fetch that succeeds on a damaged store returns what the intact store held. */
  lemma FetchIntegrity(c: Codec, s: Store, s': Store, key: Key)
    requires CollisionFree(c) && Fetch(c, s, key).Ok? && Fetch(c, s', key).Ok?
    ensures Fetch(c, s', key) == Fetch(c, s, key)
  {
    KeyspacesDisjoint(c, s[key], s'[key], "", "");
  }

  lemma {:induction false} JoinIntegrity(c: Codec, s: Store, s': Store, v: Variant, i: nat)
    requires CollisionFree(c) && i <= Count(v) && JoinFrom(c, s, v, i).Ok? && JoinFrom(c, s', v, i).Ok?
    ensures JoinFrom(c, s', v, i) == JoinFrom(c, s, v, i)
    decreases Count(v) - i
  {
    if i < Count(v) {
      FetchIntegrity(c, s, s', v.keys[i]);
      JoinIntegrity(c, s, s', v, i + 1);
    }
  }

  lemma {:induction false} TensorsIntegrity(c: Codec, s: Store, s': Store, m: Manifest, p: string, i: nat)
    requires CollisionFree(c) && i <= |m.names| && Tensors(c, s, m, p, i).Ok? && Tensors(c, s', m, p, i).Ok?
    ensures Tensors(c, s', m, p, i) == Tensors(c, s, m, p, i)
    decreases i
  {
    if i > 0 {
      TensorsIntegrity(c, s, s', m, p, i - 1);
      match VariantAt(m, m.names[i - 1], p)
      case None =>
      case Some(v) => JoinIntegrity(c, s, s', v, 0);
    }
  }

  /**
   * Whatever happens to every other Value (deleted, replaced by anything), as long as the
   * manifest Value is intact a load either fails or returns exactly what it returned before.
   */
  lemma IntegrityUnderDamage(c: Codec, s: Store, damaged: Store, revision: string, p: string)
    requires CollisionFree(c) && Load(c, s, revision, p).Ok?
    requires var k := ManifestKey(c, revision); k in damaged && k in s && damaged[k] == s[k]
    ensures Load(c, damaged, revision, p).Ok? ==> Load(c, damaged, revision, p) == Load(c, s, revision, p)
  {
    if Load(c, damaged, revision, p).Ok? {
      var m := Parse(c, s[ManifestKey(c, revision)]).value;
      TensorsIntegrity(c, s, damaged, m, p, |m.names|);
    }
  }
}
