/** Publishing a revision: chunk and pack every tensor, then write the manifest. */
module CatalogPublish {
  import opened Common
  import opened CatalogManifest
  import opened CatalogStore
  import opened CatalogPublisher
  import opened CatalogWeights

  /** One (tensor, precision) of the input dictionary, in iteration order. */
  datatype Entry = Entry(part: Part, dtype: string, shape: seq<int>, data: Bytes)

  ghost predicate DistinctParts(es: seq<Entry>) {
    forall i, j | 0 <= i < j < |es| :: es[i].part != es[j].part
  }

  function TotalBytes(es: seq<Entry>): nat {
    if es == [] then 0 else TotalBytes(es[..|es| - 1]) + |es[|es| - 1].data|
  }

  class Builder {
    const c: Codec
    const kv: KvClient
    const max: nat
    const pack: bool
    var stats: Stats
    var records: Records
    var buf: Bytes
    var members: seq<Member>
    ghost const base: Store
    ghost const healthy: bool
    ghost var pieces: map<Part, seq<Bytes>>
    ghost var sealed: seq<Sealed>

    ghost function Abs(): B
      reads this, kv
    {
      B(base, kv.data, max, healthy, records, pieces, buf, members, sealed, stats)
    }

    ghost predicate Valid(loose: Option<Slot>)
      reads this, kv
    {
      max > 0 && BuilderOk(c, Abs(), loose)
    }

    /** Bytes already placed in some Value, sealed or pending, in order. */
    ghost function Placed(): Bytes
      reads this
    {
      Joined(sealed) + buf
    }

    /** The Values so far, the pending one last. */
    ghost function All(): seq<Sealed>
      reads this
    {
      if members == [] then sealed else sealed + [Sealed(buf, members)]
    }

    /** The policy is kept, and nothing is left open that a small chunk could still have joined. */
    ghost predicate Policy()
      reads this
    {
      && Greedy(All(), max, pack)
      && (members == [] && sealed != [] && pack ==> Whole(sealed[|sealed| - 1], max))
      && (members != [] ==> pack && !Whole(Sealed(buf, members), max))
    }

    constructor (c: Codec, kv: KvClient, max: nat, pack: bool)
      requires max > 0
      ensures this.c == c && this.kv == kv && this.max == max && this.pack == pack
      ensures base == kv.data && healthy == (ChunksIntact(c, kv.data) && CollisionFree(c))
      ensures Valid(None) && Policy() && members == [] && pieces == map[] && stats.bytesTotal == 0 && Placed() == []
      ensures stats.valuesStored == 0
    {
      this.c, this.kv, this.max, this.pack := c, kv, max, pack;
      stats := Stats(0, 0, 0, 0, 0);
      records, buf, members := map[], [], [];
      base := kv.data;
      healthy := ChunksIntact(c, kv.data) && CollisionFree(c);
      pieces, sealed := map[], [];
    }

    /** Open a placeholder record for the next slice of `part`. */
    method NewSlice(part: Part, chunk: Bytes) returns (slot: nat)
      requires Valid(None)
      modifies this
      ensures Valid(Some(Slot(part, slot))) && Abs() == Opened(old(Abs()), part, chunk)
      ensures slot == (if part in old(pieces) then |old(pieces)[part]| else 0)
      ensures Placed() == old(Placed()) && All() == old(All())
    {
      hide BuilderOk;
      OpenedOk(c, Abs(), part, chunk);
      SameLength(c, Abs(), None, part);
      var recs := if part in records then records[part] else [];
      slot := |recs|;
      records := records[part := recs + [Rec(None, None, |chunk|)]];
      stats := stats.(chunksTotal := stats.chunksTotal + 1);
      pieces := pieces[part := (if part in pieces then pieces[part] else []) + [chunk]];
    }

    /** Exist-before-Store. */
    method StoreValue(key: Key, value: Bytes)
      modifies this`stats, kv
      ensures kv.data == Stored(old(kv.data), key, value)
      ensures var dup := key in old(kv.data);
              && stats == old(stats).(valuesTotal := old(stats).valuesTotal + 1,
                                      valuesStored := old(stats).valuesStored + (if dup then 0 else 1),
                                      valuesDeduped := old(stats).valuesDeduped + (if dup then 1 else 0))
              && kv.storeCalls == old(kv.storeCalls) + (if dup then 0 else 1)
    {
      stats := stats.(valuesTotal := stats.valuesTotal + 1);
      if key in kv.data {
        stats := stats.(valuesDeduped := stats.valuesDeduped + 1);
      } else {
        kv.StoreValue(key, value);
        stats := stats.(valuesStored := stats.valuesStored + 1);
      }
    }

    /** Fill one placeholder; it is still empty, and its size is the one recorded. */
    method Fill(m: Member, key: Key)
      requires Slotted(records, m) && records[m.part][m.slot].key.None? && records[m.part][m.slot].size == m.size
      modifies this`records
      ensures records == FillOne(old(records), m, key)
    {
      var rec := records[m.part][m.slot].(key := Some(key), offset := Some(m.offset));
      assert rec.size == m.size;
      records := records[m.part := records[m.part][m.slot := rec]];
    }

    /** Fill the slices of the pending Value, in order. */
    method FillMembers(key: Key, ghost b: B, ghost loose: Option<Slot>)
      requires BuilderOk(c, b, loose) && records == b.records && members == b.members
      requires forall m | m in b.members :: Slotted(b.records, m)
      modifies this`records
      ensures records == FillAll(b.records, b.members, key)
    {
      hide BuilderOk, SameSlots;
      var j := 0;
      while j < |members|
        invariant 0 <= j <= |members|
        invariant (forall m | m in members[..j] :: m in b.members) && records == FillAll(b.records, members[..j], key)
      {
        FillStep(c, b, loose, j, key);
        Fill(members[j], key);
        j := j + 1;
      }
      assert members[..j] == members;
    }

    /** Seal the pending Value under its content key and fill every slice placed in it. */
    method FlushPending(ghost loose: Option<Slot>)
      requires Valid(loose)
      modifies this, kv
      ensures Valid(loose) && members == [] && buf == [] && pieces == old(pieces)
      ensures Placed() == old(Placed()) && sealed == old(All()) && stats.bytesTotal == old(stats).bytesTotal
      ensures kv.storeCalls - stats.valuesStored == old(kv.storeCalls - stats.valuesStored)
    {
      hide BuilderOk, FillAll, SameSlots, SealedBytes, Joined, SealedSlices, ChunkKey, Stored, Slotted;
      if members == [] {
        assert buf == [] by { NoMembersNoBytes(c, Abs(), loose); }
        return;
      }
      ghost var b := Abs();
      SealOk(c, b, loose);
      var value := buf;
      var key := ChunkKey(c, value);
      StoreValue(key, value);
      FillMembers(key, b, loose);
      sealed := sealed + [Sealed(buf, members)];
      SealedSnoc(b.sealed, Sealed(b.buf, b.members));
      buf, members := [], [];
      assert Abs() == SealedState(c, b);
    }

    method StoreWhole(s: Slot, chunk: Bytes)
      requires Valid(Some(s)) && members == [] && buf == [] && |chunk| <= max
      requires s.part in pieces && s.slot < |pieces[s.part]| && pieces[s.part][s.slot] == chunk
      modifies this, kv
      ensures Valid(None) && members == [] && buf == [] && pieces == old(pieces)
      ensures sealed == old(sealed) + [Sealed(chunk, [Member(s.part, s.slot, 0, |chunk|)])]
      ensures Placed() == old(Placed()) + chunk && stats.bytesTotal == old(stats).bytesTotal
      ensures kv.storeCalls - stats.valuesStored == old(kv.storeCalls - stats.valuesStored)
    {
      hide BuilderOk, ChunkKey, SealedBytes, Joined, FillOne, Stored;
      ghost var b := Abs();
      WholeOk(c, b, s, chunk);
      var m := Member(s.part, s.slot, 0, |chunk|);
      var key := ChunkKey(c, chunk);
      StoreValue(key, chunk);
      Fill(m, key);
      sealed := sealed + [Sealed(chunk, [m])];
      SealedSnoc(old(sealed), Sealed(chunk, [m]));
      assert Abs() == StoredWhole(c, b, m, chunk);
    }

    method AppendPacked(s: Slot, chunk: Bytes)
      requires Valid(Some(s)) && Policy() && pack && |chunk| < max
      requires s.part in pieces && s.slot < |pieces[s.part]| && pieces[s.part][s.slot] == chunk
      modifies this, kv
      ensures Valid(None) && Policy() && pieces == old(pieces)
      ensures Placed() == old(Placed()) + chunk && stats.bytesTotal == old(stats).bytesTotal
      ensures kv.storeCalls - stats.valuesStored == old(kv.storeCalls - stats.valuesStored)
    {
      hide BuilderOk, Greedy, Joined;
      ghost var over := |buf| + |chunk| > max;
      if members == [] { NoMembersNoBytes(c, Abs(), Some(s)); }
      if |buf| + |chunk| > max { FlushPending(Some(s)); }
      AppendedOk(c, Abs(), s, chunk);
      var offset := |buf|;
      ghost var was, m := Sealed(buf, members), Member(s.part, s.slot, |buf|, |chunk|);
      PolicyAppend(old(All()), old(members != []), over, sealed, was, m, chunk, max);
      ghost var b := Appended(Abs(), s, chunk);
      buf := buf + chunk;
      members := members + [Member(s.part, s.slot, offset, |chunk|)];
      assert Abs() == b;
      assert old(Joined(sealed) + buf) + chunk == Joined(sealed) + buf;
    }

    /** One chunk: stored whole if it fills the cap or packing is off, packed otherwise. */
    method AddChunk(part: Part, chunk: Bytes)
      requires Valid(None) && Policy() && |chunk| <= max
      modifies this, kv
      ensures Valid(None) && Policy()
      ensures pieces == old(pieces)[part := (if part in old(pieces) then old(pieces)[part] else []) + [chunk]]
      ensures Placed() == old(Placed()) + chunk && stats.bytesTotal == old(stats).bytesTotal
      ensures kv.storeCalls - stats.valuesStored == old(kv.storeCalls - stats.valuesStored)
    {
      hide BuilderOk, Greedy, Joined;
      var slot := NewSlice(part, chunk);
      if !pack || |chunk| == max {
        FlushPending(Some(Slot(part, slot)));
        ghost var before := sealed;
        StoreWhole(Slot(part, slot), chunk);
        PolicyWhole(before, Member(part, slot, 0, |chunk|), chunk, max, pack);
      } else {
        AppendPacked(Slot(part, slot), chunk);
      }
    }

    method AddTensor(part: Part, data: Bytes)
      requires Valid(None) && Policy()
      modifies this, kv
      ensures Valid(None) && Policy()
      ensures pieces ==
          old(pieces)[part := (if part in old(pieces) then old(pieces)[part] else []) + IterChunks(data, max)]
      ensures Placed() == old(Placed()) + data && stats.bytesTotal == old(stats).bytesTotal + |data|
      ensures kv.storeCalls - stats.valuesStored == old(kv.storeCalls - stats.valuesStored)
    {
      hide BuilderOk, Greedy, Joined;
      stats := stats.(bytesTotal := stats.bytesTotal + |data|);
      BytesIgnored(c, old(Abs()), Abs());
      if |data| == 0 {
        if part !in records {
          EmptyPartOk(c, Abs(), part);
          SameLength(c, Abs(), None, part);
          records := records[part := []];
          pieces := pieces[part := []];
        } else {
          SameLength(c, Abs(), None, part);
          assert pieces == pieces[part := pieces[part]];
        }
        var none := IterChunks(data, max);
        assert none == [] && forall x: seq<Bytes> :: x + none == x;
        assert data == [] && old(Placed()) + data == old(Placed());
        return;
      }
      var chunks := IterChunks(data, max);
      ChunksRejoin(data, max);
      AddChunks(part, chunks);
    }

    method AddChunks(part: Part, chunks: seq<Bytes>)
      requires Valid(None) && Policy() && forall i | 0 <= i < |chunks| :: |chunks[i]| <= max
      modifies this, kv
      ensures Valid(None) && Policy() && pieces == Extended(old(pieces), part, chunks)
      ensures Placed() == old(Placed()) + Flat(chunks) && stats.bytesTotal == old(stats).bytesTotal
      ensures kv.storeCalls - stats.valuesStored == old(kv.storeCalls - stats.valuesStored)
    {
      hide BuilderOk, Flat, Greedy, Joined, Whole;
      assert Extended(pieces, part, []) == pieces;
      hide Extended, Policy, All, Placed;
      assert chunks[..0] == [] && Flat([]) == [] by { FlatNil(); }
      for i := 0 to |chunks|
        invariant Valid(None) && Policy() && pieces == Extended(old(pieces), part, chunks[..i])
        invariant Placed() == old(Placed()) + Flat(chunks[..i]) && stats.bytesTotal == old(stats).bytesTotal
        invariant kv.storeCalls - stats.valuesStored == old(kv.storeCalls - stats.valuesStored)
      {
        FlatSnoc(chunks[..i], chunks[i]);
        ExtendedSnoc(old(pieces), part, chunks[..i], chunks[i]);
        assert chunks[..i + 1] == chunks[..i] + [chunks[i]];
        ghost var before := Placed();
        AddChunk(part, chunks[i]);
        assert before + chunks[i] == old(Placed()) + (Flat(chunks[..i]) + chunks[i]);
      }
      assert chunks[..|chunks|] == chunks;
    }
  }

  lemma PolicyWhole(vs: seq<Sealed>, m: Member, chunk: Bytes, max: nat, pack: bool)
    requires Greedy(vs, max, pack) && m.size == |chunk| && (!pack || |chunk| == max)
    ensures Greedy(vs + [Sealed(chunk, [m])], max, pack)
    ensures pack ==> Whole(Sealed(chunk, [m]), max)
  {
    GreedySnoc(vs, Sealed(chunk, [m]), max, pack);
  }

  /** A small chunk joins the pending Value, or starts one when it did not fit or nothing was pending. */
  lemma PolicyAppend(all: seq<Sealed>, open: bool, over: bool, sealed: seq<Sealed>, was: Sealed, m: Member,
                     chunk: Bytes, max: nat)
    requires Greedy(all, max, true) && m.size == |chunk| < max
    requires open && !over ==> all == sealed + [was] && was.members != [] && !Whole(was, max)
    requires !open || over ==> all == sealed && was == Sealed([], [])
    requires !open && all != [] ==> Whole(all[|all| - 1], max)
    requires open && over ==> all != [] && |all[|all| - 1].value| + |chunk| > max
    ensures var v := Sealed(was.value + chunk, was.members + [m]);
            Greedy(sealed + [v], max, true) && !Whole(v, max) && v.members != []
  {
    var v := Sealed(was.value + chunk, was.members + [m]);
    if open && !over {
      GreedyGrow(sealed, was, v, max);
    } else {
      assert [] + [m] == [m];
      GreedySnoc(all, v, max, true);
    }
  }

  /** The builder after one slice was stored as a Value of its own. */
  function StoredWhole(c: Codec, b: B, m: Member, chunk: Bytes): B
    requires Slotted(b.records, m)
  {
    var key := ChunkKey(c, chunk);
    var dup := key in b.data;
    b.(data := Stored(b.data, key, chunk), records := FillOne(b.records, m, key),
       sealed := b.sealed + [Sealed(chunk, [m])],
       stats := b.stats.(valuesTotal := b.stats.valuesTotal + 1,
                         valuesStored := b.stats.valuesStored + (if dup then 0 else 1),
                         valuesDeduped := b.stats.valuesDeduped + (if dup then 1 else 0)))
  }

  /** That is appending the slice to an empty pending Value and sealing it. */
  lemma WholeOk(c: Codec, b: B, s: Slot, chunk: Bytes)
    requires BuilderOk(c, b, Some(s)) && b.members == [] && b.buf == [] && |chunk| <= b.max
    requires s.part in b.pieces && s.slot < |b.pieces[s.part]| && b.pieces[s.part][s.slot] == chunk
    ensures var m := Member(s.part, s.slot, 0, |chunk|);
            && Slotted(b.records, m) && b.records[m.part][m.slot].key.None? && b.records[m.part][m.slot].size == m.size
            && BuilderOk(c, StoredWhole(c, b, m, chunk), None)
  {
    hide BuilderOk, ChunkKey, FillAll, FillOne, Stored;
    var b1 := Appended(b, s, chunk);
    var m := Member(s.part, s.slot, 0, |chunk|);
    AppendedOk(c, b, s, chunk);
    assert [] + chunk == chunk && [] + [m] == [m];
    assert b1.members == [m] && b1.buf == chunk && b1.members[..0] == [];
    SealOk(c, b1, None);
    FillStep(c, b1, None, 0, ChunkKey(c, chunk));
    FillSingle(b.records, m, ChunkKey(c, chunk));
    assert SealedState(c, b1) == StoredWhole(c, b, m, chunk);
  }

  lemma FillSingle(rs: Records, m: Member, key: Key)
    requires Slotted(rs, m)
    ensures FillAll(rs, [], key) == rs && FillAll(rs, [m], key) == FillOne(rs, m, key)
  {
    assert [m][..0] == [];
  }

  lemma FlatNil()
    ensures Flat([]) == []
  {
  }

  function Extended(ps: map<Part, seq<Bytes>>, part: Part, cs: seq<Bytes>): map<Part, seq<Bytes>> {
    if cs == [] then ps else ps[part := (if part in ps then ps[part] else []) + cs]
  }

  lemma ExtendedSnoc(ps: map<Part, seq<Bytes>>, part: Part, cs: seq<Bytes>, x: Bytes)
    ensures var qs := Extended(ps, part, cs);
            Extended(ps, part, cs + [x]) == qs[part := (if part in qs then qs[part] else []) + [x]]
  {
    var prev := if part in ps then ps[part] else [];
    assert prev + cs + [x] == prev + (cs + [x]);
    if cs == [] { assert cs + [x] == [x]; }
  }

  lemma BytesIgnored(c: Codec, b: B, b': B)
    requires BuilderOk(c, b, None) && b' == b.(stats := b.stats.(bytesTotal := b'.stats.bytesTotal))
    ensures BuilderOk(c, b', None)
  {
    hide FilledOk, MemberOk, Grown, Tiles, ShapeOk, PlacedIn;
    assert RecordsOk(c, b', None) by {
      forall p, k: nat | p in b'.records && p in b'.pieces && k < |b'.records[p]| && k < |b'.pieces[p]|
        ensures if b'.records[p][k].key.Some? then FilledOk(c, b', b'.records[p][k], b'.pieces[p][k])
            else Pending(b', p, k)
      {
        if b.records[p][k].key.Some? { FilledKept(c, b, b', b.records[p][k], b.pieces[p][k]); }
        else { assert Pending(b, p, k); }
      }
    }
    forall i | 0 <= i < |b'.members| ensures MemberOk(b', b'.members[i], None) {
      MemberSame(b, b', b.members[i]);
    }
    assert ShapeOk(b') by { ShapeSame(b, b'); }
  }

  lemma MemberSame(b: B, b': B, m: Member)
    requires MemberOk(b, m, None) && b'.records == b.records && b'.pieces == b.pieces && b'.buf == b.buf
    ensures MemberOk(b', m, None)
  {
  }

  lemma ShapeSame(b: B, b': B)
    requires ShapeOk(b) && b'.records == b.records && b'.pieces == b.pieces
    ensures ShapeOk(b')
  {
  }

  lemma EmptyPartOk(c: Codec, b: B, p: Part)
    requires BuilderOk(c, b, None) && p !in b.records
    ensures BuilderOk(c, b.(records := b.records[p := []], pieces := b.pieces[p := []]), None)
  {
    hide FilledOk, Grown, Tiles, PlacedIn;
    var b' := b.(records := b.records[p := []], pieces := b.pieces[p := []]);
    PlacedStays(c, b, b');
    assert ShapeOk(b');
    assert RecordsOk(c, b', None) by {
      forall q, k: nat | q in b'.records && q in b'.pieces && k < |b'.records[q]| && k < |b'.pieces[q]|
        ensures if b'.records[q][k].key.Some? then FilledOk(c, b', b'.records[q][k], b'.pieces[q][k])
            else Pending(b', q, k)
      {
        if b.records[q][k].key.Some? { FilledKept(c, b, b', b.records[q][k], b.pieces[q][k]); }
        else { assert Pending(b, q, k); }
      }
    }
    forall i | 0 <= i < |b'.members| ensures MemberOk(b', b'.members[i], None) {
      assert MemberOk(b, b.members[i], None);
    }
  }

  lemma SameLength(c: Codec, b: B, loose: Option<Slot>, p: Part)
    requires BuilderOk(c, b, loose)
    ensures p in b.records <==> p in b.pieces
    ensures p in b.records ==> |b.records[p]| == |b.pieces[p]|
  {
    assert ShapeOk(b);
  }

  lemma NoMembersNoBytes(c: Codec, b: B, loose: Option<Slot>)
    requires BuilderOk(c, b, loose) && b.members == []
    ensures b.buf == []
  {
  }

  /** When a sealed Value's slices are filled in order, the next placeholder is still empty. */
  lemma FillStep(c: Codec, b: B, loose: Option<Slot>, j: nat, key: Key)
    requires BuilderOk(c, b, loose) && j < |b.members|
    ensures (forall m | m in b.members[..j] :: Slotted(b.records, m))
        && (forall m | m in b.members[..j + 1] :: Slotted(b.records, m))
    ensures var rs := FillAll(b.records, b.members[..j], key); var m := b.members[j];
            && Slotted(rs, m) && rs[m.part][m.slot].key.None? && rs[m.part][m.slot].size == m.size
            && FillAll(b.records, b.members[..j + 1], key) == FillOne(rs, m, key)
  {
    MembersSlotted(c, b, loose);
    assert MemberOk(b, b.members[j], loose) && DistinctSlots(b.members);
    hide BuilderOk, FillOne, SameSlots;
    var m := b.members[j];
    assert b.members[..j + 1][..j] == b.members[..j] && b.members[..j + 1][j] == m;
    FillAllMiss(b.records, b.members[..j], key, m.part, m.slot);
    SlotKept(b.records, FillAll(b.records, b.members[..j], key), m);
  }

  // ---- from records to the manifest ----

  function RecordsOf(rs: Records, p: Part): seq<Rec> {
    if p in rs then rs[p] else []
  }

  function VariantOf(dtype: string, recs: seq<Rec>): Variant {
    Variant(dtype,
            seq(|recs|, i requires 0 <= i < |recs| => if recs[i].key.Some? then recs[i].key.value else []),
            seq(|recs|, i requires 0 <= i < |recs| => if recs[i].offset.Some? then recs[i].offset.value else 0),
            seq(|recs|, i requires 0 <= i < |recs| => recs[i].size))
  }

  /** A finished builder's records read back, slice by slice, exactly the pieces put in. */
  lemma RecordsRead(c: Codec, b: B, p: Part, dtype: string)
    requires BuilderOk(c, b, None) && b.members == [] && b.healthy && p in b.records
    ensures p in b.pieces && Reads(c, b.data, VariantOf(dtype, b.records[p]), Flat(b.pieces[p]))
  {
    hide Grown, Tiles, SealedOk, PendingOk;
    var recs := b.records[p];
    var v := VariantOf(dtype, recs);
    var parts := seq(|v.keys|, i requires 0 <= i < |v.keys| => SliceBytes(b.data, v, i));
    forall i: nat | i < |recs| ensures SliceOk(c, b.data, v, i) && parts[i] == b.pieces[p][i] {
      RecordFilled(c, b, p, i);
    }
    assert parts == b.pieces[p];
  }

  lemma RecordFilled(c: Codec, b: B, p: Part, i: nat)
    requires BuilderOk(c, b, None) && b.members == [] && p in b.records && i < |b.records[p]|
    ensures p in b.pieces && i < |b.pieces[p]| && FilledOk(c, b, b.records[p][i], b.pieces[p][i])
  {
    hide FilledOk, Grown, Tiles, SealedOk;
    assert ShapeOk(b);
    assert !Pending(b, p, i);
  }

  function AddEntries(m: Manifest, rs: Records, es: seq<Entry>): Result<Manifest, ManifestError> {
    if es == [] then Ok(m)
    else
      var n := |es| - 1;
      var r := AddEntries(m, rs, es[..n]);
      if r.Err? then r else
      var v := VariantOf(es[n].dtype, RecordsOf(rs, es[n].part));
      CatalogManifest.AddTensor(r.value, es[n].part.tensor, es[n].part.precision, es[n].dtype, es[n].shape, v.keys,
        v.sizes, Some(v.offsets))
  }

  lemma AddEntriesNext(m: Manifest, rs: Records, es: seq<Entry>, i: nat)
    requires i < |es|
    ensures AddEntries(m, rs, es[..0]) == Ok(m)
    ensures AddEntries(m, rs, es[..i]).Err? ==> AddEntries(m, rs, es[..i + 1]) == AddEntries(m, rs, es[..i])
    ensures AddEntries(m, rs, es[..i]).Ok? ==>
              var v := VariantOf(es[i].dtype, RecordsOf(rs, es[i].part));
              AddEntries(m, rs, es[..i + 1]) ==
                CatalogManifest.AddTensor(AddEntries(m, rs, es[..i]).value, es[i].part.tensor, es[i].part.precision,
                  es[i].dtype, es[i].shape, v.keys, v.sizes, Some(v.offsets))
  {
    hide CatalogManifest.AddTensor, VariantOf;
    assert es[..i + 1][..i] == es[..i] && es[..i + 1][i] == es[i];
  }

  lemma {:induction false} AddEntriesStuck(m: Manifest, rs: Records, es: seq<Entry>, i: nat)
    requires i <= |es| && AddEntries(m, rs, es[..i]).Err?
    ensures AddEntries(m, rs, es) == AddEntries(m, rs, es[..i])
    decreases |es| - i
  {
    hide AddEntries;
    if i < |es| {
      AddEntriesNext(m, rs, es, i);
      AddEntriesStuck(m, rs, es, i + 1);
    } else {
      assert es[..i] == es;
    }
  }

  /** The loop that records every entry's slices in the manifest, up to the first it refuses. */
  method AddAll(w: WeightManifest, rs: Records, es: seq<Entry>) returns (error: Option<ManifestError>)
    modifies w
    ensures match AddEntries(old(w.Abs()), rs, es)
            case Ok(m) => error == None && w.Abs() == m
            case Err(e) => error == Some(e)
  {
    hide AddEntries, VariantOf, CatalogManifest.AddTensor;
    ghost var m := w.Abs();
    if es != [] { AddEntriesNext(m, rs, es, 0); } else { AddNone(m, rs); }
    assert es == [] ==> es[..0] == [];
    for i := 0 to |es|
      invariant AddEntries(m, rs, es[..i]) == Ok(w.Abs())
    {
      AddEntriesNext(m, rs, es, i);
      var e := es[i];
      var v := VariantOf(e.dtype, RecordsOf(rs, e.part));
      error := w.AddTensor(e.part.tensor, e.part.precision, e.dtype, e.shape, v.keys, v.sizes, Some(v.offsets));
      if error.Some? {
        AddEntriesStuck(m, rs, es, i + 1);
        return;
      }
    }
    assert es[..|es|] == es;
    error := None;
  }

  /** The manifest gains exactly the entries' variants. */
  lemma {:induction false} AddEntriesVariants(m: Manifest, rs: Records, es: seq<Entry>)
    requires DistinctParts(es) && AddEntries(m, rs, es).Ok?
    ensures var m' := AddEntries(m, rs, es).value;
            && (forall i | 0 <= i < |es| ::
                  VariantAt(m', es[i].part.tensor, es[i].part.precision) ==
                    Some(VariantOf(es[i].dtype, RecordsOf(rs, es[i].part))))
            && (forall n, p | (forall i | 0 <= i < |es| :: es[i].part != Part(n, p)) ::
              VariantAt(m', n, p) == VariantAt(m, n, p))
            && (WellFormed(m) ==> WellFormed(m'))
    decreases |es|
  {
    hide VariantAt, WellFormed, VariantOf, RecordsOf, CatalogManifest.AddTensor;
    if es != [] {
      var k := |es| - 1;
      AddEntriesVariants(m, rs, es[..k]);
      var m1 := AddEntries(m, rs, es[..k]).value;
      var e := es[k];
      var v := VariantOf(e.dtype, RecordsOf(rs, e.part));
      VariantRebuilt(e.dtype, RecordsOf(rs, e.part));
      AddTensorVariants(m1, e.part.tensor, e.part.precision, e.dtype, e.shape, v.keys, v.sizes, Some(v.offsets));
      if WellFormed(m) { AddTensorWellFormed(m1, e.part.tensor, e.part.precision, e.dtype, e.shape, v.keys, v.sizes,
        Some(v.offsets)); }
      forall i | 0 <= i < |es|
        ensures VariantAt(AddEntries(m, rs, es).value, es[i].part.tensor, es[i].part.precision) ==
            Some(VariantOf(es[i].dtype, RecordsOf(rs, es[i].part)))
      {
        if i < k {
          assert es[..k][i] == es[i];
          assert es[i].part != e.part;
        }
      }
      forall n, p | (forall i | 0 <= i < |es| :: es[i].part != Part(n, p))
        ensures VariantAt(AddEntries(m, rs, es).value, n, p) == VariantAt(m, n, p)
      {
        assert es[k].part != Part(n, p);
        assert forall i | 0 <= i < k :: es[..k][i] == es[i];
      }
    }
  }

  lemma VariantRebuilt(dtype: string, recs: seq<Rec>)
    ensures var v := VariantOf(dtype, recs); v == Variant(dtype, v.keys, v.offsets, v.sizes)
  {
  }

  // ---- when a publish fits ----

  predicate FitsAt(m: Manifest, es: seq<Entry>, i: nat)
    requires i < |es|
  {
    var e := es[i];
    && VariantAt(m, e.part.tensor, e.part.precision).None?
    && (e.part.tensor in m.rows ==> m.rows[e.part.tensor].shape == e.shape)
    && forall j | 0 <= j < i && es[j].part.tensor == e.part.tensor :: es[j].shape == e.shape
  }

  /** No entry repeats a recorded precision, and a tensor's shapes all agree. */
  predicate Fits(m: Manifest, es: seq<Entry>) {
    forall i: nat | i < |es| :: FitsAt(m, es, i)
  }

  ghost predicate RowShapes(m: Manifest, m': Manifest, es: seq<Entry>) {
    && (forall n | n in m.rows :: n in m'.rows && m'.rows[n].shape == m.rows[n].shape)
    && (forall i | 0 <= i < |es| :: es[i].part.tensor in m'.rows && m'.rows[es[i].part.tensor].shape == es[i].shape)
    && (forall n | n in m'.rows && n !in m.rows :: TensorIn(es, n))
  }

  ghost predicate TensorIn(es: seq<Entry>, n: string) {
    exists i :: 0 <= i < |es| && es[i].part.tensor == n
  }

  lemma {:induction false} AddEntriesFits(m: Manifest, rs: Records, es: seq<Entry>)
    requires DistinctParts(es)
    ensures AddEntries(m, rs, es).Ok? <==> Fits(m, es)
    ensures AddEntries(m, rs, es).Ok? ==> RowShapes(m, AddEntries(m, rs, es).value, es)
    decreases |es|
  {
    hide AddEntries, Fits, FitsAt, RowShapes, VariantAt, VariantOf;
    if es == [] {
      AddNone(m, rs);
    } else {
      var k := |es| - 1;
      AddEntriesFits(m, rs, es[..k]);
      FitsSnoc(m, es);
      var r := AddEntries(m, rs, es[..k]);
      if r.Ok? {
        AddEntriesVariants(m, rs, es[..k]);
        assert forall i | 0 <= i < k :: es[..k][i].part != es[k].part;
        EntryFits(m, r.value, rs, es);
      } else {
        AddFailed(m, rs, es);
      }
    }
  }

  lemma AddNone(m: Manifest, rs: Records)
    ensures AddEntries(m, rs, []) == Ok(m) && Fits(m, []) && RowShapes(m, m, [])
  {
  }

  lemma AddFailed(m: Manifest, rs: Records, es: seq<Entry>)
    requires es != [] && AddEntries(m, rs, es[..|es| - 1]).Err?
    ensures AddEntries(m, rs, es) == AddEntries(m, rs, es[..|es| - 1])
  {
  }

  lemma FitsSnoc(m: Manifest, es: seq<Entry>)
    requires es != []
    ensures var k := |es| - 1; Fits(m, es) <==> Fits(m, es[..k]) && FitsAt(m, es, k)
  {
    var k := |es| - 1;
    forall i: nat | i < k ensures FitsAt(m, es[..k], i) <==> FitsAt(m, es, i) {
    }
  }

  /** One more entry fits exactly when its row agrees on the shape and lacks the precision. */
  lemma AddOne(m1: Manifest, rs: Records, e: Entry)
    ensures var v := VariantOf(e.dtype, RecordsOf(rs, e.part)); var n := e.part.tensor;
            var r := CatalogManifest.AddTensor(m1, n, e.part.precision, e.dtype, e.shape, v.keys, v.sizes,
              Some(v.offsets));
            && (r.Ok? <==> (n in m1.rows ==> m1.rows[n].shape == e.shape) && VariantAt(m1, n, e.part.precision).None?)
            && (r.Err? ==> r.error == if n in m1.rows && m1.rows[n].shape != e.shape then ShapeMismatch
                                      else PrecisionExists)
            && (r.Ok? ==> && r.value.rows.Keys == m1.rows.Keys + {n} && r.value.rows[n].shape == e.shape
                          && forall x | x in m1.rows :: r.value.rows[x].shape == m1.rows[x].shape)
  {
  }

  lemma RowShapesSnoc(m: Manifest, m1: Manifest, m2: Manifest, es: seq<Entry>)
    requires es != [] && RowShapes(m, m1, es[..|es| - 1])
    requires var e := es[|es| - 1];
             && m2.rows.Keys == m1.rows.Keys + {e.part.tensor} && m2.rows[e.part.tensor].shape == e.shape
             && forall x | x in m1.rows :: m2.rows[x].shape == m1.rows[x].shape
    ensures RowShapes(m, m2, es)
  {
    var k := |es| - 1;
    assert forall i | 0 <= i < k :: es[..k][i] == es[i];
    forall x | x in m2.rows && x !in m.rows ensures TensorIn(es, x) {
      if x == es[k].part.tensor {
        assert es[k].part.tensor == x;
      } else {
        assert TensorIn(es[..k], x);
        var i :| 0 <= i < k && es[..k][i].part.tensor == x;
        assert es[i].part.tensor == x;
      }
    }
  }

  lemma EntryFits(m: Manifest, m1: Manifest, rs: Records, es: seq<Entry>)
    requires es != [] && RowShapes(m, m1, es[..|es| - 1]) && AddEntries(m, rs, es[..|es| - 1]) == Ok(m1)
    requires var e := es[|es| - 1];
             VariantAt(m1, e.part.tensor, e.part.precision) == VariantAt(m, e.part.tensor, e.part.precision)
    ensures AddEntries(m, rs, es).Ok? <==> FitsAt(m, es, |es| - 1)
    ensures AddEntries(m, rs, es).Ok? ==> RowShapes(m, AddEntries(m, rs, es).value, es)
  {
    hide CatalogManifest.AddTensor, VariantAt, VariantOf;
    var k := |es| - 1;
    var n := es[k].part.tensor;
    AddOne(m1, rs, es[k]);
    assert forall i | 0 <= i < k :: es[..k][i] == es[i];
    if n in m1.rows && n !in m.rows {
      var i :| 0 <= i < |es[..k]| && es[..k][i].part.tensor == n;
      assert es[i].part.tensor == n && m1.rows[n].shape == es[i].shape;
    }
    assert FitsAt(m, es, k) <==>
        (n in m1.rows ==> m1.rows[n].shape == es[k].shape) && VariantAt(m1, n, es[k].part.precision).None?;
    if AddEntries(m, rs, es).Ok? { RowShapesSnoc(m, m1, AddEntries(m, rs, es).value, es); }
  }

  /** The entry's shape is not the one its tensor has, in the manifest or by an earlier entry. */
  predicate ShapeClash(m: Manifest, es: seq<Entry>, i: nat)
    requires i < |es|
  {
    var e := es[i];
    || (e.part.tensor in m.rows && m.rows[e.part.tensor].shape != e.shape)
    || exists j :: 0 <= j < i && es[j].part.tensor == e.part.tensor && es[j].shape != e.shape
  }

  /** The first entry that does not fit is refused, for its shape or else for its precision. */
  ghost predicate Refused(m: Manifest, es: seq<Entry>, error: ManifestError) {
    exists i: nat ::
      && i < |es| && !FitsAt(m, es, i) && (forall j: nat | j < i :: FitsAt(m, es, j))
      && error == if ShapeClash(m, es, i) then ShapeMismatch else PrecisionExists
  }

  lemma {:induction false} AddEntriesRefused(m: Manifest, rs: Records, es: seq<Entry>)
    requires DistinctParts(es) && AddEntries(m, rs, es).Err?
    ensures Refused(m, es, AddEntries(m, rs, es).error)
    decreases |es|
  {
    hide AddEntries, FitsAt, ShapeClash, RowShapes, VariantAt, VariantOf;
    if es == [] {
      AddNone(m, rs);
      assert false;
    }
    var k := |es| - 1;
    var r := AddEntries(m, rs, es[..k]);
    if r.Err? {
      AddEntriesRefused(m, rs, es[..k]);
      AddFailed(m, rs, es);
      RefusedEarlier(m, es, r.error);
    } else {
      AddEntriesFits(m, rs, es[..k]);
      AddEntriesFits(m, rs, es);
      AddEntriesVariants(m, rs, es[..k]);
      assert forall i | 0 <= i < k :: es[..k][i].part != es[k].part;
      EntryFits(m, r.value, rs, es);
      FitsBefore(m, es);
      RefusedHere(m, r.value, rs, es);
    }
  }

  lemma RefusedEarlier(m: Manifest, es: seq<Entry>, error: ManifestError)
    requires es != [] && Refused(m, es[..|es| - 1], error)
    ensures Refused(m, es, error)
  {
    var k := |es| - 1;
    var i: nat :| && i < k && !FitsAt(m, es[..k], i) && (forall j: nat | j < i :: FitsAt(m, es[..k], j))
                  && error == if ShapeClash(m, es[..k], i) then ShapeMismatch else PrecisionExists;
    assert forall j | 0 <= j < k :: es[..k][j] == es[j];
    assert forall j: nat | j <= i :: FitsAt(m, es[..k], j) == FitsAt(m, es, j);
    assert ShapeClash(m, es[..k], i) == ShapeClash(m, es, i);
  }

  lemma FitsBefore(m: Manifest, es: seq<Entry>)
    requires es != [] && Fits(m, es[..|es| - 1])
    ensures forall j: nat | j < |es| - 1 :: FitsAt(m, es, j)
  {
    var k := |es| - 1;
    forall j: nat | j < k ensures FitsAt(m, es, j) { assert FitsAt(m, es[..k], j); }
  }

  lemma RefusedHere(m: Manifest, m1: Manifest, rs: Records, es: seq<Entry>)
    requires es != [] && RowShapes(m, m1, es[..|es| - 1]) && AddEntries(m, rs, es[..|es| - 1]) == Ok(m1)
    requires AddEntries(m, rs, es).Err? && !FitsAt(m, es, |es| - 1)
    requires forall j: nat | j < |es| - 1 :: FitsAt(m, es, j)
    ensures Refused(m, es, AddEntries(m, rs, es).error)
  {
    hide CatalogManifest.AddTensor, VariantAt, VariantOf, FitsAt;
    var k := |es| - 1;
    var n := es[k].part.tensor;
    AddOne(m1, rs, es[k]);
    assert forall i | 0 <= i < k :: es[..k][i] == es[i];
    if n in m1.rows && n !in m.rows {
      var i :| 0 <= i < |es[..k]| && es[..k][i].part.tensor == n;
      assert es[i].part.tensor == n && m1.rows[n].shape == es[i].shape;
    }
    assert ShapeClash(m, es, k) <==> n in m1.rows && m1.rows[n].shape != es[k].shape;
  }

  // ---- publish ----

  datatype PublishError = BadCap | BaseUnparseable | Conflict(error: ManifestError)

  /** The manifest a publish extends: the stored one when merging, else an empty one. */
  function BaseOf(c: Codec, s: Store, revision: string, merge: bool): Result<Manifest, ManifestError> {
    if merge && ManifestKey(c, revision) in s then Parse(c, s[ManifestKey(c, revision)]) else Ok(EMPTY)
  }

  /**
   * `m` is `base` plus the entries: each is recorded with its own dtype and shape, and its slices read
   * back its bytes from `mid`; everything else is as it was.
   */
  ghost predicate Adds(c: Codec, mid: Store, base: Manifest, m: Manifest, es: seq<Entry>, healthy: bool) {
    && (WellFormed(base) ==> WellFormed(m))
    && (forall n, p | (forall i | 0 <= i < |es| :: es[i].part != Part(n, p)) ::
      VariantAt(m, n, p) == VariantAt(base, n, p))
    && (forall n | n in base.rows :: n in m.rows && m.rows[n].shape == base.rows[n].shape)
    && (forall i | 0 <= i < |es| :: Recorded(c, mid, m, es[i], healthy))
  }

  ghost predicate Recorded(c: Codec, mid: Store, m: Manifest, e: Entry, healthy: bool) {
    var v := VariantAt(m, e.part.tensor, e.part.precision);
    v.Some? && v.value.dtype == e.dtype && ShapeOf(m, e.part.tensor) == e.shape
    && (healthy ==> Reads(c, mid, v.value, e.data))
  }

  ghost predicate Published(c: Codec, s: Store, s': Store, revision: string, es: seq<Entry>, cap: nat, base: Manifest) {
    exists m: Manifest, mid: Store ::
      && Grown(c, s, mid, cap) && s' == mid[ManifestKey(c, revision) := c.encode(ToTable(m))]
      && Adds(c, mid, base, m, es, ChunksIntact(c, s) && CollisionFree(c))
  }

  /** What one publish does to the store. */
  ghost predicate PublishStep(c: Codec, s: Store, s': Store, revision: string, es: seq<Entry>, cap: int, merge: bool,
                              r: Result<Stats, PublishError>) {
    var base := BaseOf(c, s, revision, merge);
    && (r.Ok? <==> cap > 0 && base.Ok? && Fits(base.value, es))
    && (r.Ok? ==> Published(c, s, s', revision, es, cap, base.value))
    && (r.Err? ==> if cap > 0 then Grown(c, s, s', cap) else s' == s)
    && (r.Err? ==> if cap <= 0 then r.error == BadCap
                   else if base.Err? then r.error == BaseUnparseable && s' == s
                   else r.error.Conflict? && Refused(base.value, es, r.error.error))
  }

  /** The pieces recorded for each entry join to its bytes, and there are no others. */
  ghost predicate AllPlaced(ps: map<Part, seq<Bytes>>, es: seq<Entry>) {
    && (forall p | p in ps :: exists i :: 0 <= i < |es| && es[i].part == p)
    && (forall i | 0 <= i < |es| :: es[i].part in ps && Flat(ps[es[i].part]) == es[i].data)
  }

  /**
   * How the Values were packed: joined in order they are the tensors' bytes in order, and they are cut
   * as the policy says; the slices placed in each Value tile it, each is the slice its record names, no
   * Value exceeds the cap, every record is filled, and the counters add up.
   */
  ghost predicate Packed(c: Codec, s: Store, cap: nat, pack: bool, es: seq<Entry>, sealed: seq<Sealed>,
                         records: Records, stats: Stats) {
    && Greedy(sealed, cap, pack) && Joined(sealed) == AllBytes(es)
    && (forall i | 0 <= i < |sealed| ::
          && Tiles(sealed[i].members, |sealed[i].value|) && |sealed[i].value| <= cap
          && ChunkKey(c, sealed[i].value) in s && PlacedIn(c, records, sealed[i]))
    && (forall p, k | p in records && 0 <= k < |records[p]| :: records[p][k].key.Some?)
    && stats.valuesTotal == |sealed| && stats.chunksTotal == SealedSlices(sealed)
    && stats.bytesTotal == SealedBytes(sealed)
  }

  /** The bytes of all entries, in order. */
  function AllBytes(es: seq<Entry>): (r: Bytes)
    ensures |r| == TotalBytes(es)
  {
    if es == [] then [] else AllBytes(es[..|es| - 1]) + es[|es| - 1].data
  }

  lemma BuilderPacked(c: Codec, b: B, k: Key, v: Bytes, pack: bool, es: seq<Entry>)
    requires BuilderOk(c, b, None) && b.members == [] && b.stats.bytesTotal == SealedBytes(b.sealed)
    requires Greedy(b.sealed, b.max, pack) && Joined(b.sealed) == AllBytes(es)
    ensures Packed(c, b.data[k := v], b.max, pack, es, b.sealed, b.records, b.stats)
  {
    hide Tiles, PlacedIn, ChunkKey, Grown, FilledOk, Greedy, Joined, AllBytes;
    forall p, k: nat | p in b.records && k < |b.records[p]| ensures b.records[p][k].key.Some? {
      RecordFilled(c, b, p, k);
      FilledHasKey(c, b, b.records[p][k], b.pieces[p][k]);
    }
  }

  method Publish(c: Codec, kv: KvClient, revision: string, es: seq<Entry>, cap: int, pack: bool, merge: bool)
    returns (r: Result<Stats, PublishError>, ghost sealed: seq<Sealed>, ghost records: Records)
    requires DistinctParts(es)
    modifies kv
    ensures PublishStep(c, old(kv.data), kv.data, revision, es, cap, merge, r)
    ensures r.Ok? ==> && r.value.valuesTotal == r.value.valuesStored + r.value.valuesDeduped
                      && r.value.bytesTotal == TotalBytes(es)
                      && kv.storeCalls == old(kv.storeCalls) + r.value.valuesStored + 1
    ensures r.Ok? ==> Packed(c, kv.data, cap, pack, es, sealed, records, r.value)
  {
    hide Fits, AddEntries, BuilderOk, Published, Grown, Parse, IterChunks, Packed, TotalBytes, DistinctParts, ToTable,
         ManifestKey, RowShapes, AllPlaced, SealedBytes, Joined, Greedy, AllBytes, Refused;
    sealed, records := [], map[];
    if cap <= 0 { r := Err(BadCap); return; }
    var base := EMPTY;
    var mkey := ManifestKey(c, revision);
    if merge && mkey in kv.data {
      var existing := Parse(c, kv.data[mkey]);
      if existing.Err? {
        GrownSelf(c, kv.data, cap);
        r := Err(BaseUnparseable); return;
      }
      base := existing.value;
    }
    var b := Assemble(c, kv, es, cap, pack);
    FinishedBuilder(c, b.Abs(), es);
    var manifest := new WeightManifest.Of(base);
    var error := AddAll(manifest, b.records, es);
    ghost var m := AddEntries(base, b.records, es);
    AddEntriesFits(base, b.records, es);
    ghost var mid := kv.data;
    assert Grown(c, old(kv.data), mid, cap) by { BuilderGrown(c, b.Abs()); }
    if error.Some? {
      AddEntriesRefused(base, b.records, es);
      r := Err(Conflict(error.value)); return;
    }
    sealed, records := b.sealed, b.records;
    BuilderPacked(c, b.Abs(), mkey, c.encode(ToTable(m.value)), pack, es);
    var table := manifest.ToTable();
    kv.StoreValue(mkey, c.encode(table));
    r := Ok(b.stats);
    assert Published(c, old(kv.data), kv.data, revision, es, cap, base) by {
      EntriesAdded(c, b.base, mid, base, b.records, es, b.healthy, m.value);
      PublishedBy(c, old(kv.data), kv.data, revision, es, cap, base, m.value, mid);
    }
  }

  /** Chunk and pack every tensor, the last pending Value included. */
  method Assemble(c: Codec, kv: KvClient, es: seq<Entry>, cap: nat, pack: bool) returns (b: Builder)
    requires cap > 0 && DistinctParts(es)
    modifies kv
    ensures fresh(b) && b.kv == kv && b.c == c && b.max == cap && b.base == old(kv.data)
    ensures b.healthy == old(ChunksIntact(c, kv.data) && CollisionFree(c))
    ensures b.Valid(None) && b.members == [] && AllPlaced(b.pieces, es)
    ensures Greedy(b.sealed, cap, pack) && Joined(b.sealed) == AllBytes(es) && SealedBytes(b.sealed) == TotalBytes(es)
    ensures b.stats.bytesTotal == TotalBytes(es) && kv.storeCalls == old(kv.storeCalls) + b.stats.valuesStored
  {
    hide BuilderOk, Greedy, Joined, AllBytes, AllPlaced, TotalBytes, SealedBytes, DistinctParts, ChunksIntact,
         CollisionFree;
    b := new Builder(c, kv, cap, pack);
    PlaceAll(b, es);
    b.FlushPending(None);
    assert Joined(b.sealed) + [] == Joined(b.sealed);
  }

  /** Feed every tensor to the builder, in order. */
  method PlaceAll(b: Builder, es: seq<Entry>)
    requires DistinctParts(es) && b.Valid(None) && b.Policy() && b.members == [] && b.pieces == map[]
    requires b.stats.bytesTotal == 0 && b.Placed() == []
    requires b.stats.valuesStored == 0
    modifies b, b.kv
    ensures b.Valid(None) && b.Policy() && AllPlaced(b.pieces, es)
    ensures b.stats.bytesTotal == TotalBytes(es) && b.Placed() == AllBytes(es)
    ensures b.kv.storeCalls == old(b.kv.storeCalls) + b.stats.valuesStored
  {
    hide BuilderOk, IterChunks, AllPlaced, SealedBytes, TotalBytes, Flat, DistinctParts, AllBytes, Joined, Greedy;
    TotalNone();
    assert es[..0] == [] && AllPlaced(map[], []) by { NonePlaced(); }
    for i := 0 to |es|
      invariant b.Valid(None) && b.Policy() && AllPlaced(b.pieces, es[..i])
      invariant b.stats.bytesTotal == TotalBytes(es[..i]) && b.Placed() == AllBytes(es[..i])
      invariant b.kv.storeCalls == old(b.kv.storeCalls) + b.stats.valuesStored
    {
      var e := es[i];
      assert es[..i + 1] == es[..i] + [e];
      TotalSnoc(es[..i], e);
      PartIsNew(b.pieces, es, i);
      ChunksRejoin(e.data, b.max);
      PlacedSnoc(b.pieces, es[..i], e, IterChunks(e.data, b.max));
      assert [] + IterChunks(e.data, b.max) == IterChunks(e.data, b.max);
      b.AddTensor(e.part, e.data);
    }
    assert es[..|es|] == es;
  }

  lemma TotalNone()
    ensures TotalBytes([]) == 0 && AllBytes([]) == []
  {
  }

  lemma TotalSnoc(es: seq<Entry>, e: Entry)
    ensures TotalBytes(es + [e]) == TotalBytes(es) + |e.data| && AllBytes(es + [e]) == AllBytes(es) + e.data
  {
    assert (es + [e])[..|es|] == es;
  }

  lemma NonePlaced()
    ensures AllPlaced(map[], [])
  {
  }

  lemma PartIsNew(ps: map<Part, seq<Bytes>>, es: seq<Entry>, i: nat)
    requires i < |es| && DistinctParts(es) && AllPlaced(ps, es[..i])
    ensures es[i].part !in ps
  {
    assert forall j | 0 <= j < i :: es[..i][j] == es[j];
  }

  lemma PlacedSnoc(ps: map<Part, seq<Bytes>>, es: seq<Entry>, e: Entry, cs: seq<Bytes>)
    requires AllPlaced(ps, es) && e.part !in ps && Flat(cs) == e.data
    ensures AllPlaced(ps[e.part := cs], es + [e])
  {
    hide Flat;
    var ps', es' := ps[e.part := cs], es + [e];
    forall p | p in ps' ensures exists i :: 0 <= i < |es'| && es'[i].part == p {
      if p == e.part {
        assert es'[|es|].part == p;
      } else {
        var i :| 0 <= i < |es| && es[i].part == p;
        assert es'[i].part == p;
      }
    }
  }

  /** After the last flush nothing is pending, so every record is filled. */
  lemma FinishedBuilder(c: Codec, b: B, es: seq<Entry>)
    requires BuilderOk(c, b, None) && b.members == [] && AllPlaced(b.pieces, es)
    ensures b.stats.valuesTotal == b.stats.valuesStored + b.stats.valuesDeduped
    ensures b.healthy ==> forall i | 0 <= i < |es| ::
              es[i].part in b.records
                && forall dtype :: Reads(c, b.data, VariantOf(dtype, b.records[es[i].part]), es[i].data)
  {
    assert ShapeOk(b);
    hide BuilderOk, Reads, VariantOf, Flat;
    forall i, dtype | 0 <= i < |es| && b.healthy
      ensures es[i].part in b.records && Reads(c, b.data, VariantOf(dtype, b.records[es[i].part]), es[i].data)
    {
      RecordsRead(c, b, es[i].part, dtype);
    }
  }

  lemma BuilderGrown(c: Codec, b: B)
    requires BuilderOk(c, b, None)
    ensures Grown(c, b.base, b.data, b.max)
  {
  }

  lemma GrownSelf(c: Codec, s: Store, cap: nat)
    ensures Grown(c, s, s, cap)
  {
  }

  lemma EntriesAdded(c: Codec, s: Store, mid: Store, base: Manifest, rs: Records, es: seq<Entry>, healthy: bool,
                     m: Manifest)
    requires DistinctParts(es) && AddEntries(base, rs, es) == Ok(m) && RowShapes(base, m, es)
    requires healthy ==> forall i | 0 <= i < |es| ::
               es[i].part in rs && forall dtype :: Reads(c, mid, VariantOf(dtype, rs[es[i].part]), es[i].data)
    ensures Adds(c, mid, base, m, es, healthy)
  {
    hide Reads, WellFormed, VariantAt, VariantOf, AddEntries;
    AddEntriesVariants(base, rs, es);
    forall i | 0 <= i < |es| ensures Recorded(c, mid, m, es[i], healthy) {
      VariantRebuilt(es[i].dtype, RecordsOf(rs, es[i].part));
    }
  }

  lemma PublishedBy(c: Codec, s: Store, s': Store, revision: string, es: seq<Entry>, cap: nat, base: Manifest,
                    m: Manifest, mid: Store)
    requires Grown(c, s, mid, cap) && s' == mid[ManifestKey(c, revision) := c.encode(ToTable(m))]
    requires Adds(c, mid, base, m, es, ChunksIntact(c, s) && CollisionFree(c))
    ensures Published(c, s, s', revision, es, cap, base)
  {
  }
}
