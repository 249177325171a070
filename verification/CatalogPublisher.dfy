/**
 * The publisher's builder as it is written: slice records are opened as placeholders, sub-cap
 * chunks are packed into one pending Value, and the placeholders are filled when that Value is
 * sealed under its content key.
 */
module CatalogPublisher {
  import opened Common
  import opened CatalogManifest
  import opened CatalogStore

  /** A tensor at a precision. */
  datatype Part = Part(tensor: string, precision: string)

  /** `[key, offset, size]`; the first two are filled on flush. */
  datatype Rec = Rec(key: Option<Key>, offset: Option<nat>, size: nat)

  /** Slice `slot` of `part`, placed at `offset` of the Value being assembled. */
  datatype Member = Member(part: Part, slot: nat, offset: nat, size: nat)

  /** A sealed Value and the slices placed in it. */
  datatype Sealed = Sealed(value: Bytes, members: seq<Member>)

  datatype Stats = Stats(chunksTotal: nat, valuesTotal: nat, valuesStored: nat, valuesDeduped: nat, bytesTotal: nat)

  type Records = map<Part, seq<Rec>>

  /** The members start at 0, follow each other without gap or overlap, and end at `end`. */
  ghost predicate Tiles(ms: seq<Member>, end: nat) {
    && (ms == [] ==> end == 0)
    && (ms != [] ==> ms[0].offset == 0 && ms[|ms| - 1].offset + ms[|ms| - 1].size == end)
    && (forall i | 0 <= i < |ms| - 1 :: ms[i + 1].offset == ms[i].offset + ms[i].size)
  }

  function SealedBytes(vs: seq<Sealed>): nat {
    if vs == [] then 0 else |vs[0].value| + SealedBytes(vs[1..])
  }

  function SealedSlices(vs: seq<Sealed>): nat {
    if vs == [] then 0 else |vs[0].members| + SealedSlices(vs[1..])
  }

  /** The Values one after another. */
  ghost function Joined(vs: seq<Sealed>): (r: Bytes)
    ensures |r| == SealedBytes(vs)
  {
    if vs == [] then [] else vs[0].value + Joined(vs[1..])
  }

  lemma {:induction false} SealedSnoc(vs: seq<Sealed>, v: Sealed)
    ensures SealedBytes(vs + [v]) == SealedBytes(vs) + |v.value|
    ensures Joined(vs + [v]) == Joined(vs) + v.value
    ensures SealedSlices(vs + [v]) == SealedSlices(vs) + |v.members|
  {
    if vs == [] {
      assert [] + [v] == [v] && [v][1..] == [];
    } else {
      assert (vs + [v])[1..] == vs[1..] + [v];
      SealedSnoc(vs[1..], v);
    }
  }

  // ---- the packing policy ----

  /** A Value that is one full-cap chunk. */
  ghost predicate Whole(v: Sealed, max: nat) {
    |v.members| == 1 && v.members[0].size == max
  }

  /** A Value is shared only when packing is on, and never by a chunk that fills the cap. */
  ghost predicate SharedRightly(v: Sealed, max: nat, pack: bool) {
    && v.members != [] && (!pack ==> |v.members| == 1)
    && forall j | 0 <= j < |v.members| :: v.members[j].size == max ==> |v.members| == 1
  }

  /** With packing on, a Value was closed only because the next chunk filled the cap or did not fit any more. */
  ghost predicate ClosedRightly(v: Sealed, next: Sealed, max: nat, pack: bool) {
    !pack || Whole(v, max) || Whole(next, max)
    || (next.members != [] && |v.value| + next.members[0].size > max)
  }

  ghost predicate Greedy(vs: seq<Sealed>, max: nat, pack: bool) {
    && (forall i | 0 <= i < |vs| :: SharedRightly(vs[i], max, pack))
    && (forall i | 0 <= i < |vs| - 1 :: ClosedRightly(vs[i], vs[i + 1], max, pack))
  }

  lemma GreedySnoc(vs: seq<Sealed>, v: Sealed, max: nat, pack: bool)
    requires Greedy(vs, max, pack) && SharedRightly(v, max, pack)
    requires vs != [] ==> ClosedRightly(vs[|vs| - 1], v, max, pack)
    ensures Greedy(vs + [v], max, pack)
  {
    hide SharedRightly, ClosedRightly;
    var all := vs + [v];
    forall i | 0 <= i < |all| - 1 ensures ClosedRightly(all[i], all[i + 1], max, pack) {
      if i < |vs| - 1 { assert all[i] == vs[i] && all[i + 1] == vs[i + 1]; }
    }
  }

  /** More of the same small chunks in the last Value. */
  lemma GreedyGrow(vs: seq<Sealed>, v: Sealed, v': Sealed, max: nat)
    requires Greedy(vs + [v], max, true) && v.members != [] && !Whole(v, max) && v.members < v'.members
    requires forall j | |v.members| <= j < |v'.members| :: v'.members[j].size < max
    ensures Greedy(vs + [v'], max, true)
  {
    var all, all' := vs + [v], vs + [v'];
    assert all[|vs|] == v && SharedRightly(v, max, true);
    forall i | 0 <= i < |all'| ensures SharedRightly(all'[i], max, true) {
      if i < |vs| {
        assert all'[i] == all[i];
      } else {
        forall j | 0 <= j < |v'.members| ensures v'.members[j].size != max {
          if j < |v.members| { assert v'.members[j] == v.members[j]; }
        }
      }
    }
    forall i | 0 <= i < |all'| - 1 ensures ClosedRightly(all'[i], all'[i + 1], max, true) {
      assert ClosedRightly(all[i], all[i + 1], max, true) && all'[i] == all[i];
      if i + 1 == |vs| { assert v'.members[0] == v.members[0]; }
    }
  }

  predicate Slotted(rs: Records, m: Member) {
    m.part in rs && m.slot < |rs[m.part]|
  }

  function FillOne(rs: Records, m: Member, key: Key): Records
    requires Slotted(rs, m)
  {
    rs[m.part := rs[m.part][m.slot := rs[m.part][m.slot].(key := Some(key), offset := Some(m.offset))]]
  }

  /** Same parts, same number of slots, same sizes. */
  ghost predicate SameSlots(rs: Records, r: Records) {
    && r.Keys == rs.Keys
    && forall p | p in rs :: |r[p]| == |rs[p]| && forall k | 0 <= k < |rs[p]| :: r[p][k].size == rs[p][k].size
  }

  /** Filling the placeholders of `ms` with `key`, in order. */
  function FillAll(rs: Records, ms: seq<Member>, key: Key): (r: Records)
    requires forall m | m in ms :: Slotted(rs, m)
    ensures SameSlots(rs, r)
  {
    if ms == [] then rs
    else
      var n := |ms| - 1;
      var before := FillAll(rs, ms[..n], key);
      assert ms[n] in ms && Slotted(rs, ms[n]) && ms[n].part in before;
      FillOne(before, ms[n], key)
  }

  ghost predicate DistinctSlots(ms: seq<Member>) {
    forall i, j | 0 <= i < j < |ms| :: !(ms[i].part == ms[j].part && ms[i].slot == ms[j].slot)
  }

  lemma {:induction false} FillAllHit(rs: Records, ms: seq<Member>, key: Key, i: nat)
    requires DistinctSlots(ms) && (forall m | m in ms :: Slotted(rs, m)) && i < |ms|
    ensures Slotted(rs, ms[i])
    ensures var m := ms[i];
            FillAll(rs, ms, key)[m.part][m.slot] == Rec(Some(key), Some(m.offset), rs[m.part][m.slot].size)
    decreases |ms|
  {
    hide SameSlots, FillOne;
    var n := |ms| - 1;
    assert ms[n] in ms && ms[i] in ms;
    var before := FillAll(rs, ms[..n], key);
    SlotKept(rs, before, ms[n]);
    SlotKept(rs, before, ms[i]);
    FillOneAt(before, ms[n], key, ms[i].part, ms[i].slot);
    if i < n {
      assert ms[..n][i] == ms[i];
      FillAllHit(rs, ms[..n], key, i);
    }
  }

  lemma FillOneAt(rs: Records, m: Member, key: Key, p: Part, k: nat)
    requires Slotted(rs, m) && p in rs && k < |rs[p]|
    ensures var r := FillOne(rs, m, key);
            && p in r && |r[p]| == |rs[p]|
            && r[p][k] == if p == m.part && k == m.slot then Rec(Some(key), Some(m.offset), rs[p][k].size) else rs[p][k]
  {
  }

  lemma {:induction false} FillAllMiss(rs: Records, ms: seq<Member>, key: Key, p: Part, k: nat)
    requires (forall m | m in ms :: Slotted(rs, m)) && p in rs && k < |rs[p]|
    requires forall i | 0 <= i < |ms| :: !(ms[i].part == p && ms[i].slot == k)
    ensures FillAll(rs, ms, key)[p][k] == rs[p][k]
    decreases |ms|
  {
    if ms != [] {
      FillAllMiss(rs, ms[..|ms| - 1], key, p, k);
    }
  }

  // ---- the builder's invariant, on values ----

  /** What the builder holds; `pieces` remembers the bytes each slice must read back. */
  datatype B = B(
    base: Store, data: Store, max: nat, healthy: bool,
    records: Records, pieces: map<Part, seq<Bytes>>,
    buf: Bytes, members: seq<Member>, sealed: seq<Sealed>, stats: Stats)

  datatype Slot = Slot(part: Part, slot: nat)

  /** The store only gains Values within the cap, each under its content key. */
  ghost predicate Grown(c: Codec, base: Store, data: Store, max: nat) {
    && (forall k | k in base :: k in data && data[k] == base[k])
    && (forall k | k in data && k !in base :: IsChunkKey(k) && ChunkKey(c, data[k]) == k && |data[k]| <= max)
  }

  ghost predicate ShapeOk(b: B) {
    && b.records.Keys == b.pieces.Keys
    && forall p | p in b.records :: |b.records[p]| == |b.pieces[p]|
         && forall k | 0 <= k < |b.records[p]| :: b.records[p][k].size == |b.pieces[p][k]|
  }

  /** A filled record reads back its piece from an intact Value. */
  ghost predicate FilledOk(c: Codec, b: B, r: Rec, piece: Bytes) {
    && r.key.Some? && r.offset.Some? && r.key.value in b.data && IsChunkKey(r.key.value)
    && (b.healthy ==>
          var v := b.data[r.key.value];
          ChunkKey(c, v) == r.key.value && r.offset.value + r.size <= |v|
            && v[r.offset.value..r.offset.value + r.size] == piece)
  }

  ghost predicate Pending(b: B, p: Part, k: nat) {
    exists i :: 0 <= i < |b.members| && b.members[i].part == p && b.members[i].slot == k
  }

  /** Every record is filled, or waits in the pending Value, or is the one slot in hand. */
  ghost predicate RecordsOk(c: Codec, b: B, loose: Option<Slot>) {
    forall p, k: nat | p in b.records && p in b.pieces && k < |b.records[p]| && k < |b.pieces[p]| ::
      if b.records[p][k].key.Some? then FilledOk(c, b, b.records[p][k], b.pieces[p][k])
      else Pending(b, p, k) || loose == Some(Slot(p, k))
  }

  ghost predicate MemberOk(b: B, m: Member, loose: Option<Slot>) {
    && m.part in b.records && m.part in b.pieces && m.slot < |b.records[m.part]| && m.slot < |b.pieces[m.part]|
    && b.records[m.part][m.slot].key.None? && m.size == b.records[m.part][m.slot].size
    && m.offset + m.size <= |b.buf| && b.buf[m.offset..m.offset + m.size] == b.pieces[m.part][m.slot]
    && loose != Some(Slot(m.part, m.slot))
  }

  ghost predicate PendingOk(b: B, loose: Option<Slot>) {
    && Tiles(b.members, |b.buf|) && |b.buf| <= b.max && DistinctSlots(b.members)
    && forall i | 0 <= i < |b.members| :: MemberOk(b, b.members[i], loose)
  }

  ghost predicate LooseOk(b: B, loose: Option<Slot>) {
    loose.Some? ==>
      var s := loose.value;
      && s.part in b.records && s.part in b.pieces && s.slot < |b.records[s.part]| && s.slot < |b.pieces[s.part]|
      && b.records[s.part][s.slot].key.None?
  }

  ghost predicate SealedOk(c: Codec, b: B, loose: Option<Slot>) {
    && (forall i | 0 <= i < |b.sealed| ::
          Tiles(b.sealed[i].members, |b.sealed[i].value|) && |b.sealed[i].value| <= b.max
            && ChunkKey(c, b.sealed[i].value) in b.data)
    && b.stats.valuesTotal == |b.sealed| == b.stats.valuesStored + b.stats.valuesDeduped
    && b.stats.chunksTotal == SealedSlices(b.sealed) + |b.members| + if loose.Some? then 1 else 0
  }

  /** Each slice placed in a sealed Value is what its record says: that key, that offset, that size. */
  ghost predicate PlacedIn(c: Codec, rs: Records, v: Sealed) {
    forall j | 0 <= j < |v.members| ::
      && Slotted(rs, v.members[j])
      && rs[v.members[j].part][v.members[j].slot] ==
        Rec(Some(ChunkKey(c, v.value)), Some(v.members[j].offset), v.members[j].size)
  }

  ghost predicate PlacedOk(c: Codec, b: B) {
    forall i | 0 <= i < |b.sealed| :: PlacedIn(c, b.records, b.sealed[i])
  }

  ghost predicate BuilderOk(c: Codec, b: B, loose: Option<Slot>) {
    && PlacedOk(c, b)
    && Grown(c, b.base, b.data, b.max) && (b.healthy ==> ChunksIntact(c, b.base) && CollisionFree(c))
    && ShapeOk(b) && RecordsOk(c, b, loose) && PendingOk(b, loose) && LooseOk(b, loose) && SealedOk(c, b, loose)
  }

  function Opened(b: B, p: Part, chunk: Bytes): B {
    var rs := if p in b.records then b.records[p] else [];
    var ps := if p in b.pieces then b.pieces[p] else [];
    b.(records := b.records[p := rs + [Rec(None, None, |chunk|)]], pieces := b.pieces[p := ps + [chunk]],
       stats := b.stats.(chunksTotal := b.stats.chunksTotal + 1))
  }

  lemma OpenedOk(c: Codec, b: B, p: Part, chunk: Bytes)
    requires BuilderOk(c, b, None)
    ensures var k := if p in b.records then |b.records[p]| else 0; BuilderOk(c, Opened(b, p, chunk), Some(Slot(p, k)))
  {
    hide FilledOk, Grown, Tiles, DistinctSlots, PlacedIn, PlacedOk, SealedBytes, SealedSlices;
    var k: nat := if p in b.records then |b.records[p]| else 0;
    var b' := Opened(b, p, chunk);
    assert ShapeOk(b');
    forall q, j: nat | q in b'.records && q in b'.pieces && j < |b'.records[q]| && j < |b'.pieces[q]|
      ensures if b'.records[q][j].key.Some? then FilledOk(c, b', b'.records[q][j], b'.pieces[q][j])
              else Pending(b', q, j) || Some(Slot(p, k)) == Some(Slot(q, j))
    {
      if !(q == p && j == k) {
        assert q in b.records && b'.records[q][j] == b.records[q][j] && b'.pieces[q][j] == b.pieces[q][j];
        if b.records[q][j].key.Some? {
          FilledKept(c, b, b', b.records[q][j], b.pieces[q][j]);
        } else {
          assert Pending(b, q, j);
        }
      }
    }
    forall i | 0 <= i < |b'.members| ensures MemberOk(b', b'.members[i], Some(Slot(p, k))) {
      assert MemberOk(b, b.members[i], None);
    }
    assert PlacedOk(c, b') by { PlacedStays(c, b, b'); }
  }

  /** Records once filled are never changed. */
  lemma PlacedStays(c: Codec, b: B, b': B)
    requires PlacedOk(c, b) && b'.sealed == b.sealed
    requires forall p, k: nat | p in b.records && k < |b.records[p]| && b.records[p][k].key.Some? ::
               p in b'.records && k < |b'.records[p]| && b'.records[p][k] == b.records[p][k]
    ensures PlacedOk(c, b')
  {
    forall i | 0 <= i < |b'.sealed| ensures PlacedIn(c, b'.records, b'.sealed[i]) {
      var v := b.sealed[i];
      assert PlacedIn(c, b.records, v);
      forall j | 0 <= j < |v.members|
        ensures Slotted(b'.records, v.members[j])
        ensures b'.records[v.members[j].part][v.members[j].slot] ==
            Rec(Some(ChunkKey(c, v.value)), Some(v.members[j].offset), v.members[j].size)
      {
        var m := v.members[j];
        assert b.records[m.part][m.slot].key.Some?;
      }
    }
  }

  lemma FilledKept(c: Codec, b: B, b': B, r: Rec, piece: Bytes)
    requires FilledOk(c, b, r, piece) && b'.healthy == b.healthy
    requires forall k | k in b.data :: k in b'.data && b'.data[k] == b.data[k]
    ensures FilledOk(c, b', r, piece)
  {
  }

  function Appended(b: B, s: Slot, chunk: Bytes): B {
    b.(buf := b.buf + chunk, members := b.members + [Member(s.part, s.slot, |b.buf|, |chunk|)])
  }

  lemma TilesSnoc(ms: seq<Member>, end: nat, m: Member)
    requires Tiles(ms, end) && m.offset == end
    ensures Tiles(ms + [m], end + m.size)
  {
    forall i | 0 <= i < |ms + [m]| - 1 ensures (ms + [m])[i + 1].offset == (ms + [m])[i].offset + (ms + [m])[i].size {
    }
  }

  lemma AppendedRecords(c: Codec, b: B, s: Slot, chunk: Bytes)
    requires RecordsOk(c, b, Some(s))
    ensures RecordsOk(c, Appended(b, s, chunk), None)
  {
    hide FilledOk;
    var b' := Appended(b, s, chunk);
    forall p, k: nat | p in b'.records && p in b'.pieces && k < |b'.records[p]| && k < |b'.pieces[p]|
      ensures if b'.records[p][k].key.Some? then FilledOk(c, b', b'.records[p][k], b'.pieces[p][k])
          else Pending(b', p, k)
    {
      if b.records[p][k].key.Some? {
        FilledKept(c, b, b', b.records[p][k], b.pieces[p][k]);
      } else if Pending(b, p, k) {
        var i :| 0 <= i < |b.members| && b.members[i].part == p && b.members[i].slot == k;
        assert b'.members[i] == b.members[i];
      } else {
        assert b'.members[|b.members|] == Member(s.part, s.slot, |b.buf|, |chunk|);
      }
    }
  }

  lemma AppendedPending(b: B, s: Slot, chunk: Bytes)
    requires PendingOk(b, Some(s)) && LooseOk(b, Some(s)) && ShapeOk(b) && b.pieces[s.part][s.slot] == chunk
    requires |b.buf| + |chunk| <= b.max
    ensures PendingOk(Appended(b, s, chunk), None)
  {
    hide Tiles;
    var b' := Appended(b, s, chunk);
    var m := Member(s.part, s.slot, |b.buf|, |chunk|);
    TilesSnoc(b.members, |b.buf|, m);
    forall i | 0 <= i < |b'.members| ensures MemberOk(b', b'.members[i], None) {
      if i < |b.members| {
        MemberStays(b, b', b.members[i], Some(s), chunk);
      } else {
        assert b'.buf[|b.buf|..|b.buf| + |chunk|] == chunk;
      }
    }
    assert DistinctSlots(b'.members) by {
      forall i | 0 <= i < |b.members| ensures !(b.members[i].part == s.part && b.members[i].slot == s.slot) {
        assert MemberOk(b, b.members[i], Some(s));
      }
    }
  }

  lemma AppendedOk(c: Codec, b: B, s: Slot, chunk: Bytes)
    requires BuilderOk(c, b, Some(s)) && s.part in b.pieces && s.slot < |b.pieces[s.part]|
        && b.pieces[s.part][s.slot] == chunk
    requires |b.buf| + |chunk| <= b.max
    ensures BuilderOk(c, Appended(b, s, chunk), None)
  {
    hide Grown, RecordsOk, PendingOk, ChunksIntact, CollisionFree, Tiles, ChunkKey, PlacedIn;
    AppendedRecords(c, b, s, chunk);
    AppendedPending(b, s, chunk);
  }

  lemma MemberStays(b: B, b': B, m: Member, loose: Option<Slot>, chunk: Bytes)
    requires MemberOk(b, m, loose) && b'.records == b.records && b'.pieces == b.pieces && b'.buf == b.buf + chunk
    ensures MemberOk(b', m, None)
  {
    assert b'.buf[m.offset..m.offset + m.size] == b.buf[m.offset..m.offset + m.size];
  }

  // ---- sealing ----

  function Stored(data: Store, key: Key, value: Bytes): Store {
    if key in data then data else data[key := value]
  }

  function SealedState(c: Codec, b: B): B
    requires forall m | m in b.members :: Slotted(b.records, m)
  {
    var key := ChunkKey(c, b.buf);
    var dup := key in b.data;
    b.(data := Stored(b.data, key, b.buf),
       records := FillAll(b.records, b.members, key),
       sealed := b.sealed + [Sealed(b.buf, b.members)],
       buf := [], members := [],
       stats := b.stats.(valuesTotal := b.stats.valuesTotal + 1,
                         valuesStored := b.stats.valuesStored + (if dup then 0 else 1),
                         valuesDeduped := b.stats.valuesDeduped + (if dup then 1 else 0)))
  }

  /** Exist-before-Store leaves the right bytes under the content key. */
  lemma StoredOk(c: Codec, base: Store, data: Store, max: nat, value: Bytes, healthy: bool)
    requires Grown(c, base, data, max) && |value| <= max && (healthy ==> ChunksIntact(c, base) && CollisionFree(c))
    ensures var key := ChunkKey(c, value); var data' := Stored(data, key, value);
            && Grown(c, base, data', max) && key in data' && IsChunkKey(key)
            && (healthy ==> data'[key] == value)
            && forall k | k in data :: k in data' && data'[k] == data[k]
  {
    var key := ChunkKey(c, value);
    if healthy && key in data {
      assert ChunkKey(c, data[key]) == key;
      KeyspacesDisjoint(c, data[key], value, "", "");
    }
  }

  lemma MembersSlotted(c: Codec, b: B, loose: Option<Slot>)
    requires BuilderOk(c, b, loose)
    ensures forall m | m in b.members :: Slotted(b.records, m)
  {
    forall m | m in b.members ensures Slotted(b.records, m) {
      var i :| 0 <= i < |b.members| && b.members[i] == m;
      assert MemberOk(b, b.members[i], loose);
    }
  }

  lemma SealPending(c: Codec, b: B, loose: Option<Slot>, b': B, i: nat)
    requires i < |b.members| && MemberOk(b, b.members[i], loose) && DistinctSlots(b.members)
    requires (forall m | m in b.members :: Slotted(b.records, m)) && b' == SealedState(c, b)
    requires var key := ChunkKey(c, b.buf); key in b'.data && (b.healthy ==> b'.data[key] == b.buf)
    ensures var m := b.members[i];
            m.part in b'.records && m.slot < |b'.records[m.part]|
              && FilledOk(c, b', b'.records[m.part][m.slot], b.pieces[m.part][m.slot])
  {
    hide SameSlots;
    FillAllHit(b.records, b.members, ChunkKey(c, b.buf), i);
    assert b'.records == FillAll(b.records, b.members, ChunkKey(c, b.buf));
    assert b.members[i] in b.members;
    assert SameSlots(b.records, b'.records);
    SlotKept(b.records, b'.records, b.members[i]);
  }

  lemma SlotKept(rs: Records, rs': Records, m: Member)
    requires SameSlots(rs, rs') && Slotted(rs, m)
    ensures Slotted(rs', m) && rs'[m.part][m.slot].size == rs[m.part][m.slot].size
  {
    assert m.part in rs';
  }

  lemma SealRecord(c: Codec, b: B, loose: Option<Slot>, p: Part, k: nat)
    requires BuilderOk(c, b, loose) && p in b.records && p in b.pieces && k < |b.records[p]| && k < |b.pieces[p]|
    requires forall m | m in b.members :: Slotted(b.records, m)
    ensures var b' := SealedState(c, b);
            && p in b'.records && k < |b'.records[p]|
            && (if b'.records[p][k].key.Some? then FilledOk(c, b', b'.records[p][k], b.pieces[p][k])
              else loose == Some(Slot(p, k)))
  {
    hide Grown, Tiles, ChunkKey, IsChunkKey, SealedOk, ShapeOk, LooseOk, FilledOk, MemberOk, FillAll;
    var key := ChunkKey(c, b.buf);
    var b' := SealedState(c, b);
    StoredOk(c, b.base, b.data, b.max, b.buf, b.healthy);
    assert p in b'.records && k < |b'.records[p]| by { assert SameSlots(b.records, b'.records); }
    if Pending(b, p, k) {
      var i :| 0 <= i < |b.members| && b.members[i].part == p && b.members[i].slot == k;
      SealPending(c, b, loose, b', i);
      assert FilledOk(c, b', b'.records[p][k], b.pieces[p][k]);
      FilledHasKey(c, b', b'.records[p][k], b.pieces[p][k]);
    } else {
      FillAllMiss(b.records, b.members, key, p, k);
      if b.records[p][k].key.Some? {
        FilledKept(c, b, b', b.records[p][k], b.pieces[p][k]);
      }
    }
  }

  lemma FilledHasKey(c: Codec, b: B, r: Rec, piece: Bytes)
    requires FilledOk(c, b, r, piece)
    ensures r.key.Some?
  {
  }

  lemma SealSealed(c: Codec, b: B, loose: Option<Slot>)
    requires BuilderOk(c, b, loose) && forall m | m in b.members :: Slotted(b.records, m)
    ensures SealedOk(c, SealedState(c, b), loose)
  {
    hide Tiles, RecordsOk, FilledOk, MemberOk, ShapeOk, LooseOk, FillAll, PlacedOk;
    SealedSnoc(b.sealed, Sealed(b.buf, b.members));
  }

  lemma SealKeepsFilled(c: Codec, b: B, loose: Option<Slot>, p: Part, k: nat)
    requires PendingOk(b, loose) && (forall m | m in b.members :: Slotted(b.records, m))
    requires p in b.records && k < |b.records[p]| && b.records[p][k].key.Some?
    ensures FillAll(b.records, b.members, ChunkKey(c, b.buf))[p][k] == b.records[p][k]
  {
    hide Tiles, DistinctSlots;
    forall i | 0 <= i < |b.members| ensures !(b.members[i].part == p && b.members[i].slot == k) {
      assert MemberOk(b, b.members[i], loose);
    }
    FillAllMiss(b.records, b.members, ChunkKey(c, b.buf), p, k);
  }

  lemma SealPlacesNew(c: Codec, b: B, loose: Option<Slot>)
    requires PendingOk(b, loose) && (forall m | m in b.members :: Slotted(b.records, m))
    ensures PlacedIn(c, FillAll(b.records, b.members, ChunkKey(c, b.buf)), Sealed(b.buf, b.members))
  {
    hide Tiles, SameSlots;
    var key := ChunkKey(c, b.buf);
    var rs := FillAll(b.records, b.members, key);
    forall j | 0 <= j < |b.members|
      ensures Slotted(rs, b.members[j])
      ensures rs[b.members[j].part][b.members[j].slot] == Rec(Some(key), Some(b.members[j].offset), b.members[j].size)
    {
      var m := b.members[j];
      assert MemberOk(b, m, loose);
      FillAllHit(b.records, b.members, key, j);
      SlotKept(b.records, rs, m);
    }
  }

  lemma SealPlaced(c: Codec, b: B, loose: Option<Slot>)
    requires BuilderOk(c, b, loose) && forall m | m in b.members :: Slotted(b.records, m)
    ensures PlacedOk(c, SealedState(c, b))
  {
    hide Grown, RecordsOk, SealedOk, ShapeOk, LooseOk, FillAll, SameSlots, PlacedIn, PendingOk, ChunkKey;
    var b' := SealedState(c, b);
    SealPlacesNew(c, b, loose);
    var filled := b.(records := b'.records);
    forall p, k: nat | p in b.records && k < |b.records[p]| && b.records[p][k].key.Some?
      ensures p in b'.records && k < |b'.records[p]| && b'.records[p][k] == b.records[p][k]
    {
      SlotKept(b.records, b'.records, Member(p, k, 0, 0));
      SealKeepsFilled(c, b, loose, p, k);
    }
    PlacedStays(c, b, filled);
    forall i | 0 <= i < |b'.sealed| ensures PlacedIn(c, b'.records, b'.sealed[i]) {
      if i < |b.sealed| { assert PlacedIn(c, filled.records, filled.sealed[i]); }
    }
  }

  lemma SealShape(c: Codec, b: B)
    requires ShapeOk(b) && forall m | m in b.members :: Slotted(b.records, m)
    ensures ShapeOk(SealedState(c, b))
  {
    assert SameSlots(b.records, SealedState(c, b).records);
    hide FillAll;
  }

  lemma SealOk(c: Codec, b: B, loose: Option<Slot>)
    requires BuilderOk(c, b, loose)
    ensures forall m | m in b.members :: Slotted(b.records, m)
    ensures BuilderOk(c, SealedState(c, b), loose)
  {
    MembersSlotted(c, b, loose);
    SealSealed(c, b, loose);
    SealPlaced(c, b, loose);
    SealRecords(c, b, loose);
    LooseStays(c, b, loose);
    hide RecordsOk, Grown, SealedOk, Tiles, MemberOk, ChunkKey, CollisionFree, ChunksIntact, LooseOk, ShapeOk, FillAll,
         PlacedOk;
    SealShape(c, b);
    StoredOk(c, b.base, b.data, b.max, b.buf, b.healthy);
    EmptyTiles();
  }

  lemma EmptyTiles()
    ensures Tiles([], 0)
  {
  }

  lemma SealRecords(c: Codec, b: B, loose: Option<Slot>)
    requires BuilderOk(c, b, loose) && forall m | m in b.members :: Slotted(b.records, m)
    ensures RecordsOk(c, SealedState(c, b), loose)
  {
    hide BuilderOk, FilledOk;
    var b' := SealedState(c, b);
    assert ShapeOk(b) by { ShapeOf'(c, b, loose); }
    forall p, k: nat | p in b'.records && p in b'.pieces && k < |b'.records[p]| && k < |b'.pieces[p]|
      ensures if b'.records[p][k].key.Some? then FilledOk(c, b', b'.records[p][k], b'.pieces[p][k])
              else Pending(b', p, k) || loose == Some(Slot(p, k))
    {
      SealRecord(c, b, loose, p, k);
    }
  }

  lemma ShapeOf'(c: Codec, b: B, loose: Option<Slot>)
    requires BuilderOk(c, b, loose)
    ensures ShapeOk(b)
  {
  }

  lemma LooseStays(c: Codec, b: B, loose: Option<Slot>)
    requires BuilderOk(c, b, loose) && forall m | m in b.members :: Slotted(b.records, m)
    ensures LooseOk(SealedState(c, b), loose)
  {
    hide Grown, Tiles, FilledOk, RecordsOk, SealedOk;
    if loose.Some? {
      var s := loose.value;
      forall i | 0 <= i < |b.members| ensures !(b.members[i].part == s.part && b.members[i].slot == s.slot) {
        assert MemberOk(b, b.members[i], loose);
      }
      FillAllMiss(b.records, b.members, ChunkKey(c, b.buf), s.part, s.slot);
    }
  }
}
