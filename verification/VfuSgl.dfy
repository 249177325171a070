/**
 * Describing a buffer to the device as data blocks, none of which crosses a DMA region
 * (section 4.4 of the NVM Express Base Specification 1.4).
 */
module VfuSgl {
  import opened Common

  const DMA_REGION: nat := 2 * 1024 * 1024

  datatype Desc = Desc(address: nat, length: nat)

  /** The command's data pointer: one block in place, or a list of blocks. */
  datatype Dptr = Block(desc: Desc) | Segments(list: seq<Desc>)

  function Blocks(d: Dptr): seq<Desc> {
    if d.Block? then [d.desc] else d.list
  }

  /** The `len` addresses from `iova` on, in 64-bit arithmetic. */
  ghost function Range(iova: nat, len: nat): seq<nat> {
    seq(len, i requires 0 <= i < len => (iova + i) % TWO64)
  }

  /** All addresses the blocks name, in order. */
  ghost function Addresses(ds: seq<Desc>): seq<nat> {
    if ds == [] then [] else Addresses(ds[..|ds| - 1]) + Range(ds[|ds| - 1].address, ds[|ds| - 1].length)
  }

  ghost predicate WithinRegion(d: Desc) {
    d.address % DMA_REGION + d.length <= DMA_REGION
  }

  /** How many regions a non-empty buffer touches. */
  function RegionsTouched(iova: nat, len: nat): nat {
    if len == 0 then 0 else (iova + len - 1) / DMA_REGION - iova / DMA_REGION + 1
  }

  /** The blocks name every byte of the buffer once and in order, one block to a region. */
  ghost predicate Tiles(ds: seq<Desc>, iova: nat, len: nat) {
    && Addresses(ds) == Range(iova, len)
    && (forall d | d in ds :: WithinRegion(d) && (len > 0 ==> d.length > 0))
    && (len > 0 ==> |ds| == RegionsTouched(iova, len))
  }

  function FirstChunk(iova: nat): (r: nat)
    ensures 1 <= r <= DMA_REGION
  {
    DMA_REGION - iova % DMA_REGION
  }

  function BlockCount(iova: nat, len: nat): nat {
    if len <= FirstChunk(iova) then 1 else 1 + (len - FirstChunk(iova) + DMA_REGION - 1) / DMA_REGION
  }

  /** Where block `i` begins. */
  function Offset(iova: nat, len: nat, i: nat): nat {
    if i == 0 then 0
    else
      var end := FirstChunk(iova) + (i - 1) * DMA_REGION;
      if end < len then end else len
  }

  function BlockAt(iova: nat, len: nat, i: nat): (d: Desc)
    ensures d.length == Offset(iova, len, i + 1) - Offset(iova, len, i)
  {
    Desc((iova + Offset(iova, len, i)) % TWO64, Offset(iova, len, i + 1) - Offset(iova, len, i))
  }

  lemma CountExact(iova: nat, len: nat)
    requires len > 0
    ensures BlockCount(iova, len) == RegionsTouched(iova, len)
    ensures Offset(iova, len, BlockCount(iova, len)) == len
    ensures forall i | 0 <= i < BlockCount(iova, len) :: Offset(iova, len, i) < len
  {
    var first := FirstChunk(iova);
    if len <= first {
      assert (iova + len - 1) / DMA_REGION == iova / DMA_REGION;
    }
  }

  /** Every block after the first begins on a region boundary. */
  lemma BoundaryAligned(iova: nat, i: nat)
    ensures (iova + FirstChunk(iova) + i * DMA_REGION) % DMA_REGION == 0
  {
    var q := iova / DMA_REGION + 1 + i;
    assert iova + FirstChunk(iova) + i * DMA_REGION == q * DMA_REGION;
  }

  lemma BlockWithin(iova: nat, len: nat, i: nat)
    ensures WithinRegion(BlockAt(iova, len, i))
  {
    RegionOfWrapped(iova + Offset(iova, len, i));
    if i > 0 { BoundaryAligned(iova, i - 1); }
  }

  /** Regions divide the address space, so wrapping does not move an address within its region. */
  lemma RegionOfWrapped(a: nat)
    ensures a % TWO64 % DMA_REGION == a % DMA_REGION
  {
    var r, m := a % TWO64, a / TWO64 * 0x800_0000_0000;
    assert a == r + m * DMA_REGION;
    AddRegions(r, m);
  }

  lemma AddRegions(r: nat, m: nat)
    ensures (r + m * DMA_REGION) % DMA_REGION == r % DMA_REGION
  {
  }

  lemma RangeSplit(iova: nat, m: nat, n: nat)
    requires m <= n
    ensures Range(iova, n) == Range(iova, m) + Range((iova + m) % TWO64, n - m)
  {
    forall i | m <= i < n ensures Range(iova, n)[i] == Range((iova + m) % TWO64, n - m)[i - m] {
      WrapAdd(iova + m, i - m);
    }
  }

  lemma WrapAdd(a: nat, b: nat)
    ensures (a % TWO64 + b) % TWO64 == (a + b) % TWO64
  {
  }

  /** Blocks up to `n` name the addresses up to block `n`'s beginning. */
  lemma {:induction false} PrefixAddresses(ds: seq<Desc>, iova: nat, len: nat)
    requires forall i | 0 <= i < |ds| :: ds[i] == BlockAt(iova, len, i)
    ensures Addresses(ds) == Range(iova, Offset(iova, len, |ds|))
  {
    hide Range, BlockAt;
    if ds == [] {
      EmptyRange(iova);
    } else {
      var n := |ds| - 1;
      PrefixAddresses(ds[..n], iova, len);
      BlockIs(iova, len, n);
      RangeSplit(iova, Offset(iova, len, n), Offset(iova, len, n + 1));
    }
  }

  lemma EmptyRange(iova: nat)
    ensures Range(iova, 0) == []
  {
  }

  lemma BlockIs(iova: nat, len: nat, i: nat)
    ensures BlockAt(iova, len, i).address == (iova + Offset(iova, len, i)) % TWO64
    ensures Offset(iova, len, i) <= Offset(iova, len, i + 1)
  {
  }

  lemma BlocksTile(ds: seq<Desc>, iova: nat, len: nat)
    requires len > 0 && |ds| == BlockCount(iova, len) && forall i | 0 <= i < |ds| :: ds[i] == BlockAt(iova, len, i)
    ensures Tiles(ds, iova, len)
  {
    hide Range, BlockAt, BlockCount, Addresses, RegionsTouched, WithinRegion;
    CountExact(iova, len);
    PrefixAddresses(ds, iova, len);
    forall d | d in ds ensures WithinRegion(d) && d.length > 0 {
      var i :| 0 <= i < |ds| && ds[i] == d;
      BlockWithin(iova, len, i);
      NonEmpty(iova, len, i);
    }
  }

  lemma NonEmpty(iova: nat, len: nat, i: nat)
    requires Offset(iova, len, i) < len
    ensures BlockAt(iova, len, i).length > 0
  {
  }

  /** The filling loop: one region-bounded block after another from slot `at` on. */
  method FillBlocks(segs: array<Desc>, at: nat, iova: nat, len: nat, count: nat)
    requires len > 0 && count == BlockCount(iova, len) && at + count <= segs.Length
    modifies segs
    ensures segs[..at] == old(segs[..at])
    ensures Tiles(segs[at..at + count], iova, len)
  {
    hide BlockAt, BlockCount, Tiles;
    var first := FirstChunk(iova);
    var off := 0;
    CountExact(iova, len);
    for i := 0 to count
      invariant off == Offset(iova, len, i)
      invariant segs[..at] == old(segs[..at])
      invariant forall k | 0 <= k < i :: segs[at + k] == BlockAt(iova, len, k)
    {
      var chunk := if i == 0 then first else DMA_REGION;
      if off + chunk > len { chunk := len - off; }
      FillStep(iova, len, i, off, chunk);
      segs[at + i] := Desc((iova + off) % TWO64, chunk);
      off := off + chunk;
    }
    ghost var ds := segs[at..at + count];
    assert forall k | 0 <= k < count :: ds[k] == segs[at + k];
    BlocksTile(ds, iova, len);
  }

  lemma FillStep(iova: nat, len: nat, i: nat, off: nat, chunk: nat)
    requires off == Offset(iova, len, i) < len
    requires chunk == (var c := if i == 0 then FirstChunk(iova) else DMA_REGION; if off + c > len then len - off else c)
    ensures off + chunk == Offset(iova, len, i + 1) && BlockAt(iova, len, i) == Desc((iova + off) % TWO64, chunk)
  {
  }

  /** `nvfu_sgl_set_dptr`: point a command at a buffer. */
  method SetDptr(iova: nat, len: nat, allocOk: bool) returns (r: Result<Dptr, int>)
    requires iova < TWO64
    ensures r.Err? <==> len > FirstChunk(iova) && !allocOk
    ensures r.Err? ==> r.error == -ENOMEM
    ensures r.Ok? ==> Tiles(Blocks(r.value), iova, len) && (r.value.Block? <==> len <= FirstChunk(iova))
  {
    hide Tiles, BlockCount;
    if len <= FirstChunk(iova) {
      OneBlock(iova, len);
      return Ok(Block(Desc(iova, len)));
    }
    if !allocOk { return Err(-ENOMEM); }
    var count := 1 + (len - FirstChunk(iova) + DMA_REGION - 1) / DMA_REGION;
    CountIs(iova, len);
    var segs := new Desc[count](_ => Desc(0, 0));
    FillBlocks(segs, 0, iova, len, count);
    assert segs[0..0 + count] == segs[..];
    return Ok(Segments(segs[..]));
  }

  lemma CountIs(iova: nat, len: nat)
    ensures len > FirstChunk(iova) ==>
        BlockCount(iova, len) == 1 + (len - FirstChunk(iova) + DMA_REGION - 1) / DMA_REGION
    ensures len <= FirstChunk(iova) ==> BlockCount(iova, len) == 1
  {
  }

  lemma OneBlock(iova: nat, len: nat)
    requires iova < TWO64 && len <= FirstChunk(iova)
    ensures Tiles([Desc(iova, len)], iova, len)
  {
    var ds := [Desc(iova, len)];
    assert ds[..0] == [] && Addresses(ds) == [] + Range(iova, len);
    assert [] + Range(iova, len) == Range(iova, len);
    if len > 0 { assert (iova + len - 1) / DMA_REGION == iova / DMA_REGION; }
  }

  /** `nvfu_sgl_set_dptr_kv`: the key head in a block of its own, then the value's blocks. */
  method SetDptrKv(headIova: nat, headLen: nat, iova: nat, len: nat, allocOk: bool) returns (r: Result<Dptr, int>)
    requires iova < TWO64
    ensures r.Err? <==> !allocOk
    ensures r.Err? ==> r.error == -ENOMEM
    ensures r.Ok? ==>
              && r.value.Segments? && r.value.list != [] && r.value.list[0] == Desc(headIova, headLen)
              && Tiles(r.value.list[1..], iova, len) && |r.value.list| == 1 + RegionsTouched(iova, len)
  {
    hide Tiles, BlockCount, RegionsTouched;
    var first := FirstChunk(iova);
    CountIs(iova, len);
    var count := if len == 0 then 0 else if len <= first then 1 else 1 + (len - first + DMA_REGION - 1) / DMA_REGION;
    if !allocOk { return Err(-ENOMEM); }
    var segs := new Desc[1 + count](_ => Desc(0, 0));
    segs[0] := Desc(headIova, headLen);
    if count > 0 {
      CountExact(iova, len);
      FillBlocks(segs, 1, iova, len, count);
      assert segs[..1][0] == Desc(headIova, headLen);
      assert segs[1..1 + count] == segs[..][1..];
    } else {
      NothingTiled(iova);
      assert segs[..][1..] == [];
    }
    return Ok(Segments(segs[..]));
  }

  lemma NothingTiled(iova: nat)
    ensures Tiles([], iova, 0) && RegionsTouched(iova, 0) == 0
  {
  }

  /** A transfer of at most 64 MiB needs at most 33 blocks, and can need that many. */
  lemma AtMost33(iova: nat, len: nat)
    requires len <= 64 * 1024 * 1024
    ensures RegionsTouched(iova, len) <= 33
    ensures RegionsTouched(1, 64 * 1024 * 1024) == 33
  {
    if len > 0 {
      assert (iova + len - 1) / DMA_REGION <= iova / DMA_REGION + 32;
    }
  }
}
