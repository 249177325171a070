/** The in-memory backend: an array of objects changed in place, answering as the map does. */
module ExecutorMem {
  import opened Common
  import opened ExecutorOid
  import opened LittleEndian
  import opened ExecutorList
  import opened ExecutorTable
  import opened ExecutorKv

  datatype Errno = Zero | EInval | ENoMem | ENoSpc

  ghost predicate AscendingOids(s: seq<MemObj>) {
    forall i, j | 0 <= i < j < |s| :: StrBefore(s[i].oid, s[j].oid)
  }

  /** The keys a walk over `s` picks: spelled by an oid that is not before the start. */
  ghost function Picked(s: seq<MemObj>, start: string): seq<Bytes> {
    if s == [] then []
    else
      var o := s[|s| - 1].oid;
      var rest := Picked(s[..|s| - 1], start);
      if !StrBefore(o, start) && KeyOf(o).Some? then rest + [KeyOf(o).value] else rest
  }

  lemma {:induction false} PickedExact(s: seq<MemObj>, start: Bytes)
    requires AscendingOids(s)
    ensures var ks := Picked(s, Oid(start));
            && Ascending(ks)
            && (forall k :: k in ks <==> 1 <= |k| <= KEY_MAX_LEN && Named(s, Oid(k)) && !Before(k, start))
    decreases |s|
  {
    hide Oid, KeyOf, Before, StrBefore;
    if s != [] {
      var n := |s| - 1;
      var o := s[n].oid;
      PickedExact(s[..n], start);
      var rest := Picked(s[..n], Oid(start));
      KeyOfExact(o);
      forall k ensures k in Picked(s, Oid(start)) <==>
        1 <= |k| <= KEY_MAX_LEN && Named(s, Oid(k)) && !Before(k, start) {
        NamedSnoc(s, Oid(k));
        OidKeepsOrder(k, start);
        if 1 <= |k| <= KEY_MAX_LEN { OidRoundTrip(k, o); }
      }
      if KeyOf(o).Some? {
        forall i | 0 <= i < |rest| ensures Before(rest[i], KeyOf(o).value) {
          assert rest[i] in rest;
          AllBefore(s, rest[i], KeyOf(o).value);
        }
      }
    }
  }

  lemma PickedNil(start: string)
    ensures Picked([], start) == []
  {
  }

  lemma PickedSnoc(s: seq<MemObj>, x: MemObj, start: string)
    ensures Picked(s + [x], start) ==
        Picked(s, start) + (if !StrBefore(x.oid, start) && KeyOf(x.oid).Some? then [KeyOf(x.oid).value] else [])
  {
    assert (s + [x])[..|s|] == s;
  }

  /** In ascending order, once past the start always past it. */
  lemma StartedStays(s: seq<MemObj>, i: nat, start: string)
    requires AscendingOids(s) && i < |s|
    ensures start == "" || (i > 0 && !StrBefore(s[i - 1].oid, start)) ==> !StrBefore(s[i].oid, start)
  {
    if i > 0 && StrBefore(s[i].oid, start) { StrTransitive(s[i - 1].oid, s[i].oid, start); }
  }

  lemma NamedSnoc(s: seq<MemObj>, oid: string)
    requires s != []
    ensures Named(s, oid) <==> Named(s[..|s| - 1], oid) || s[|s| - 1].oid == oid
  {
    var n := |s| - 1;
    if Named(s[..n], oid) {
      var i :| 0 <= i < n && s[..n][i].oid == oid;
      assert s[i].oid == oid;
    }
    if Named(s, oid) {
      var i :| 0 <= i < |s| && s[i].oid == oid;
      if i < n { assert s[..n][i].oid == oid; }
    }
  }

  lemma AllBefore(s: seq<MemObj>, j: Bytes, k: Bytes)
    requires s != [] && AscendingOids(s) && Named(s[..|s| - 1], Oid(j)) && s[|s| - 1].oid == Oid(k)
    ensures Before(j, k)
  {
    hide Oid, Before, StrBefore;
    var i :| 0 <= i < |s| - 1 && s[..|s| - 1][i].oid == Oid(j);
    assert StrBefore(s[i].oid, s[|s| - 1].oid);
    OidKeepsOrder(j, k);
  }

  /** What the walk over the sorted array picks is the listing of the map. */
  lemma PickedIsListed(s: seq<MemObj>, start: Bytes)
    requires AscendingOids(s) && DistinctOids(s)
    ensures Picked(s, Oid(start)) == Listed(ToMap(s), start)
  {
    hide Oid, Before, StrBefore, Picked, Listed, ToMap;
    var a, b := Picked(s, Oid(start)), Listed(ToMap(s), start);
    PickedExact(s, start);
    ToMapHolds(s);
    forall k ensures k in a <==> k in b {
      assert Named(s, Oid(k)) <==> Oid(k) in ToMap(s);
    }
    assert Elements(a) == Elements(b);
    AscendingUnique(a, b);
  }

  /** Where the walk stands after some keys: how many fitted, and how long everything would be. */
  ghost predicate Walked(ks: seq<Bytes>, cap: nat, out: Bytes, nrk: nat, full: nat, overflow: bool) {
    && Sized(ks)
    && nrk == FitCount(ks, cap)
    && full == FullLength(ks)
    && overflow == (nrk < |ks|)
    && out == Entries(ks[..nrk])
  }

  lemma WalkedStart(cap: nat)
    ensures Walked([], cap, [], 0, NRK_SIZE, false)
  {
    var none: seq<Bytes> := [];
    assert none[..0] == none;
  }

  lemma WalkedFits(ks: seq<Bytes>, cap: nat, out: Bytes, full: nat, k: Bytes)
    requires Walked(ks, cap, out, |ks|, full, false) && |k| <= KEY_MAX_LEN && full + EntrySize(|k|) <= cap
    ensures Walked(ks + [k], cap, out + Entry(k), |ks| + 1, full + EntrySize(|k|), false)
  {
    var ks' := ks + [k];
    assert ks'[..|ks|] == ks && ks'[..|ks'|] == ks' && ks[..|ks|] == ks;
  }

  lemma WalkedOver(ks: seq<Bytes>, cap: nat, out: Bytes, nrk: nat, full: nat, overflow: bool, k: Bytes)
    requires Walked(ks, cap, out, nrk, full, overflow) && |k| <= KEY_MAX_LEN
    requires overflow || full + EntrySize(|k|) > cap
    ensures Walked(ks + [k], cap, out, nrk, full + EntrySize(|k|), true)
  {
    var ks' := ks + [k];
    assert ks'[..|ks|] == ks && ks'[..nrk] == ks[..nrk];
  }

  /** The bytes written so far end where the next entry goes. */
  lemma WalkedOffset(ks: seq<Bytes>, cap: nat, out: Bytes, nrk: nat, full: nat)
    requires Walked(ks, cap, out, nrk, full, false)
    ensures nrk == |ks| && NRK_SIZE + |out| == full
  {
    assert ks[..|ks|] == ks;
    ListingLength(ks);
  }

  /** With the count in front, that is the listing of the keys that fitted. */
  lemma WalkedListing(ks: seq<Bytes>, cap: nat, out: Bytes, nrk: nat, full: nat, overflow: bool)
    requires NRK_SIZE <= cap <= UINT32_MAX && Walked(ks, cap, out, nrk, full, overflow)
    ensures nrk == FitCount(ks, cap) <= UINT32_MAX && Sized(ks) && full == FullLength(ks)
    ensures U32(nrk) + out == Listing(ks[..nrk])
  {
    hide U32, Entries, FitCount, FullLength;
    FitCountBound(ks, cap);
  }

  /** Append one whole entry at `off`, or refuse when it would not fit. */
  method Emit(buf: array<byte>, off: nat, key: Bytes) returns (next: nat, ok: bool)
    requires off <= buf.Length && |key| <= KEY_MAX_LEN
    modifies buf
    ensures ok == (off + EntrySize(|key|) <= buf.Length)
    ensures buf[..off] == old(buf[..off])
    ensures next == if ok then off + EntrySize(|key|) else off
    ensures ok ==> buf[off..next] == Entry(key)
    ensures !ok ==> buf[..] == old(buf[..])
  {
    var entry := EntrySize(|key|);
    if off + entry > buf.Length { return off, false; }
    var kl16 := U16(|key|);
    forall i | 0 <= i < 2 { buf[off + i] := kl16[i]; }
    forall i | 0 <= i < |key| { buf[off + 2 + i] := key[i]; }
    forall i | 2 + |key| <= i < entry { buf[off + i] := 0; }
    assert buf[off..off + entry] == Entry(key);
    return off + entry, true;
  }

  /** Count one more key, writing its entry if everything so far fitted and it fits too. */
  method EmitNext(buf: array<byte>, off: nat, nrk: nat, full: nat, overflow: bool, k: Bytes, ghost ks: seq<Bytes>)
    returns (off': nat, nrk': nat, full': nat, overflow': bool)
    requires NRK_SIZE <= off <= buf.Length && |k| <= KEY_MAX_LEN
    requires Walked(ks, buf.Length, buf[NRK_SIZE..off], nrk, full, overflow)
    modifies buf
    ensures NRK_SIZE <= off' <= buf.Length
    ensures Walked(ks + [k], buf.Length, buf[NRK_SIZE..off'], nrk', full', overflow')
  {
    hide Walked, Entry, EntrySize;
    ghost var out := buf[NRK_SIZE..off];
    off', nrk', full', overflow' := off, nrk, full + EntrySize(|k|), overflow;
    var ok := false;
    if !overflow {
      WalkedOffset(ks, buf.Length, out, nrk, full);
      ghost var front := buf[..off];
      off', ok := Emit(buf, off, k);
      assert buf[NRK_SIZE..off] == front[NRK_SIZE..];
      if ok {
        WalkedFits(ks, buf.Length, out, full, k);
        assert buf[NRK_SIZE..off'] == out + Entry(k);
        nrk' := nrk + 1;
      }
    }
    if !ok {
      WalkedOver(ks, buf.Length, out, nrk, full, overflow, k);
      overflow' := true;
    }
  }

  /** The first `i` are in place: each is before everything after it. */
  ghost predicate InPlace(s: seq<MemObj>, i: nat) {
    forall a, b | 0 <= a < i && a < b < |s| :: StrBefore(s[a].oid, s[b].oid)
  }

  /** Entry `i` is before everything between it and `j`. */
  ghost predicate Leads(s: seq<MemObj>, i: nat, j: nat) {
    j <= |s| && forall k | i < k < j :: StrBefore(s[i].oid, s[k].oid)
  }

  lemma ExchangeStep(s: seq<MemObj>, i: nat, j: nat)
    requires i < j < |s| && InPlace(s, i) && Leads(s, i, j) && StrBefore(s[j].oid, s[i].oid)
    ensures var r := s[i := s[j]][j := s[i]]; InPlace(r, i) && Leads(r, i, j + 1)
  {
    hide StrBefore;
    var r := s[i := s[j]][j := s[i]];
    forall k | i < k < j + 1 ensures StrBefore(r[i].oid, r[k].oid) {
      if k < j { StrTransitive(s[j].oid, s[i].oid, s[k].oid); }
    }
  }

  class Backend {
    const objs: array<MemObj>
    var count: nat

    ghost predicate Valid()
      reads this, objs
    {
      && objs.Length == MEM_MAX_OBJS && count <= MEM_MAX_OBJS
      && DistinctOids(objs[..count])
      && (forall i | 0 <= i < count :: |objs[i].oid| <= 2 * KEY_MAX_LEN)
    }

    ghost function Contents(): Table
      requires Valid()
      reads this, objs
    {
      ToMap(objs[..count])
    }

    /** `nkvx_executor_open_mem`. */
    constructor ()
      ensures Valid() && fresh(objs) && Contents() == map[]
    {
      objs := new MemObj[MEM_MAX_OBJS](_ => MemObj("", []));
      count := 0;
    }

    method Find(oid: string) returns (at: Option<nat>)
      requires Valid()
      ensures at.Some? <==> oid in Contents()
      ensures at.Some? ==> at.value < count && objs[at.value].oid == oid && Contents()[oid] == objs[at.value].value
    {
      ghost var s := objs[..count];
      ToMapHolds(s);
      var i := 0;
      while i < count
        invariant 0 <= i <= count
        invariant forall k | 0 <= k < i :: objs[k].oid != oid
      {
        if objs[i].oid == oid {
          assert s[i].oid == oid;
          return Some(i);
        }
        i := i + 1;
      }
      assert !Named(s, oid);
      return None;
    }

    method Del(oid: string) returns (existed: bool)
      requires Valid()
      modifies this, objs
      ensures Valid() && existed == (oid in old(Contents()))
      ensures Contents() == old(Contents()) - {oid}
    {
      hide ToMap;
      ghost var s := objs[..count];
      ToMapHolds(s);
      var i := 0;
      while i < count && objs[i].oid != oid
        invariant 0 <= i <= count
        invariant forall k | 0 <= k < i :: s[k].oid != oid
      {
        i := i + 1;
      }
      existed := i < count;
      if existed {
        TailSwapHolds(s, i);
        objs[i] := objs[count - 1];
        count := count - 1;
        assert objs[..count] == s[i := s[|s| - 1]][..|s| - 1];
      } else {
        assert !Named(s, oid);
      }
    }

    method Put(oid: string, value: Bytes, copyOk: bool) returns (rc: Errno)
      requires Valid()
      modifies this, objs
      ensures Valid()
      ensures rc == if |oid| > 2 * KEY_MAX_LEN then EInval
                    else if !copyOk then ENoMem
                    else if oid !in old(Contents()) && |old(Contents())| >= MEM_MAX_OBJS then ENoSpc
                    else Zero
      ensures Contents() == if rc == Zero then old(Contents())[oid := value] else old(Contents())
    {
      hide ToMap;
      if |oid| >= 2 * KEY_MAX_LEN + 1 { return EInval; }
      if !copyOk { return ENoMem; }
      ghost var s := objs[..count];
      ToMapHolds(s);
      var at := Find(oid);
      if at.None? {
        if count >= MEM_MAX_OBJS { return ENoSpc; }
        assert Named(s, oid) ==> oid in ToMap(s);
        AppendHolds(s, MemObj(oid, value));
        objs[count] := MemObj(oid, value);
        count := count + 1;
        assert objs[..count] == s + [MemObj(oid, value)];
      } else {
        OverwriteHolds(s, at.value, value);
        objs[at.value] := objs[at.value].(value := value);
        assert objs[..count] == s[at.value := s[at.value].(value := value)];
      }
      return Zero;
    }

    /** The exchange sort List runs over the live array. */
    method Sort()
      requires Valid()
      modifies objs
      ensures Valid() && Contents() == old(Contents()) && AscendingOids(objs[..count])
    {
      hide ToMap, StrBefore;
      var i := 0;
      while i < count
        invariant 0 <= i <= count && Valid() && Contents() == old(Contents())
        invariant InPlace(objs[..count], i)
      {
        var j := i + 1;
        while j < count
          invariant i < j <= count && Valid() && Contents() == old(Contents())
          invariant InPlace(objs[..count], i) && Leads(objs[..count], i, j)
        {
          ghost var s := objs[..count];
          StrTotal(objs[j].oid, objs[i].oid);
          if StrBefore(objs[j].oid, objs[i].oid) {
            SwapHolds(s, i, j);
            ExchangeStep(s, i, j);
            objs[i], objs[j] := objs[j], objs[i];
            assert objs[..count] == s[i := s[j]][j := s[i]];
          }
          j := j + 1;
        }
        i := i + 1;
      }
    }

    /** One pass over the sorted array, writing the entries that fit. */
    method Walk(buf: array<byte>, start: string) returns (off: nat, nrk: nat, full: nat, ghost ks: seq<Bytes>)
      requires Valid() && AscendingOids(objs[..count]) && buf.Length >= NRK_SIZE
      modifies buf
      ensures Valid() && ks == Picked(objs[..count], start)
      ensures NRK_SIZE <= off <= buf.Length
          && exists overflow :: Walked(ks, buf.Length, buf[NRK_SIZE..off], nrk, full, overflow)
    {
      hide Picked, StrBefore, KeyOf, Entries, FitCount, FullLength, Walked, AscendingOids, DistinctOids, Entry;
      off, nrk, full, ks := NRK_SIZE, 0, NRK_SIZE, [];
      var overflow := false;
      var started := start == "";
      ghost var s := objs[..count];
      WalkedStart(buf.Length);
      PickedNil(start);
      assert s[..0] == [] && buf[NRK_SIZE..off] == [];
      var i := 0;
      while i < count
        invariant 0 <= i <= count && objs[..count] == s && Valid()
        invariant ks == Picked(s[..i], start)
        invariant NRK_SIZE <= off <= buf.Length && Walked(ks, buf.Length, buf[NRK_SIZE..off], nrk, full, overflow)
        invariant started ==> start == "" || (i > 0 && !StrBefore(s[i - 1].oid, start))
      {
        PickedSnoc(s[..i], s[i], start);
        assert s[..i + 1] == s[..i] + [s[i]];
        StartedStays(s, i, start);
        var oid := objs[i].oid;
        i := i + 1;
        if !started {
          if StrBefore(oid, start) { continue; }
          started := true;
        }
        var key := OidToKey(oid);
        if key.None? { continue; }
        KeyOfExact(oid);
        var k := key.value;
        off, nrk, full, overflow := EmitNext(buf, off, nrk, full, overflow, k, ks);
        ks := ks + [k];
      }
      assert s[..count] == s;
    }

    /** `nkvx_list` over the in-memory table. */
    method List(input: KvIn, alloc: Alloc) returns (r: ExecResult)
      requires Valid() && |input.key| <= KEY_MAX_LEN && input.osize <= UINT32_MAX
      modifies objs
      ensures Valid() && Contents() == old(Contents())
      ensures r == ListAnswer(old(Contents()), input.key, input.osize, alloc.listing)
    {
      hide ToMap, Listed, Picked, Entries, FitCount, FullLength, AscendingOids, DistinctOids, Oid, U32, Before, Walked,
           Listing, Le;
      var cap := if input.osize > NRK_SIZE then input.osize else NRK_SIZE;
      var start := KeyToOid(input.key);
      if !alloc.listing { return Bare(NOMEM); }
      var buf := new byte[cap](_ => 0);
      Sort();
      PickedIsListed(objs[..count], input.key);
      var off, nrk, full, ks := Walk(buf, start);
      ghost var body := buf[NRK_SIZE..off];
      ghost var overflow :| Walked(ks, cap, body, nrk, full, overflow);
      WalkedListing(ks, cap, body, nrk, full, overflow);
      var header := U32(nrk);
      U32RoundTrip(nrk);
      forall i | 0 <= i < NRK_SIZE { buf[i] := header[i]; }
      assert buf[..off] == header + body;
      r := ExecResult(if full > input.osize then BUFFER_TOO_SMALL else SUCCESS, full, buf[..off]);
    }

    /** `nkvx_retrieve`, in-memory branch. */
    method Retrieve(oid: string, input: KvIn, alloc: Alloc) returns (r: ExecResult)
      requires Valid()
      ensures r == if oid in Contents() then Deliver(Contents()[oid], input.osize, alloc.result)
          else Bare(KEY_NOT_EXIST)
    {
      hide ToMap;
      var at := Find(oid);
      if at.None? { return Bare(KEY_NOT_EXIST); }
      r := Deliver(objs[at.value].value, input.osize, alloc.result);
    }

    /** `nkvx_store`, in-memory branch. */
    method Store(oid: string, input: KvIn, alloc: Alloc) returns (r: ExecResult)
      requires Valid() && oid == Oid(input.key) && |input.key| <= KEY_MAX_LEN
      modifies this, objs
      ensures Valid()
      ensures r == Bare(StoreStatus(old(Contents()), input, alloc))
      ensures Contents() == if r.status == SUCCESS then old(Contents())[oid := Payloaded(input.value)]
          else old(Contents())
    {
      hide ToMap, Oid, DistinctOids;
      OidLength(input.key);
      if input.readOnly { return Bare(READ_ONLY); }
      if input.value.Missing? && input.value.len > 0 { return Bare(NOT_SUPPORTED); }
      var at := Find(oid);
      if input.ifAbsent && at.Some? { return Bare(KEY_EXIST); }
      if input.ifExists && at.None? { return Bare(KEY_NOT_EXIST); }
      var rc := Put(oid, Payloaded(input.value), alloc.copy);
      if rc != Zero { return Bare(if rc == ENoSpc then NOMEM else FAILED); }
      return Bare(SUCCESS);
    }

    /** `nkvx_delete`, in-memory branch. */
    method Delete(oid: string, input: KvIn) returns (r: ExecResult)
      requires Valid() && oid == Oid(input.key)
      modifies this, objs
      ensures Valid()
      ensures r == Bare(DeleteStatus(old(Contents()), input))
      ensures Contents() == if r.status == SUCCESS then old(Contents()) - {oid} else old(Contents())
    {
      hide ToMap, Oid, DistinctOids;
      if input.readOnly { return Bare(READ_ONLY); }
      var existed := Del(oid);
      assert !existed ==> old(Contents()) - {oid} == old(Contents());
      return Bare(if existed then SUCCESS else KEY_NOT_EXIST);
    }

    /** `nkvx_exist`, in-memory branch. */
    method Exist(oid: string) returns (r: ExecResult)
      requires Valid()
      ensures r == if oid in Contents() then ExecResult(SUCCESS, Min(|Contents()[oid]|, UINT32_MAX), [])
          else Bare(KEY_NOT_EXIST)
    {
      hide ToMap;
      var at := Find(oid);
      if at.None? { return Bare(KEY_NOT_EXIST); }
      r := ExecResult(SUCCESS, Min(|objs[at.value].value|, UINT32_MAX), []);
    }

    /** `nkvx_executor_kv`: every verb answers as the map answers, and changes the array as the map changes. */
    method Kv(input: KvIn, alloc: Alloc) returns (r: ExecResult)
      requires Valid() && |input.key| <= KEY_MAX_LEN && input.osize <= UINT32_MAX
      modifies this, objs
      ensures Valid()
      ensures r == Answer(old(Contents()), input, alloc)
      ensures Contents() == After(old(Contents()), input, alloc)
    {
      hide ToMap, Oid, DistinctOids, ListAnswer, Deliver, StoreStatus, DeleteStatus;
      if input.verb.List? {
        r := List(input, alloc);
        return;
      }
      if input.verb.Unknown? || |input.key| == 0 { return Bare(INVALID); }
      var oid := KeyToOid(input.key);
      match input.verb {
        case Retrieve => r := Retrieve(oid, input, alloc);
        case Store => r := Store(oid, input, alloc);
        case Delete => r := Delete(oid, input);
        case Exist => r := Exist(oid);
      }
    }

    /** A run of requests on a fresh table answers, one by one, what the map answers. */
    method Serve(requests: seq<Request>) returns (answers: seq<ExecResult>)
      requires Valid() && Contents() == map[]
      requires forall q | q in requests :: |q.0.key| <= KEY_MAX_LEN && q.0.osize <= UINT32_MAX
      modifies this, objs
      ensures Valid() && Contents() == TableAfter(requests)
      ensures |answers| == |requests| && forall i | 0 <= i < |requests| :: answers[i] == AnswerAt(requests, i)
    {
      hide ToMap, Answer, After, DistinctOids;
      answers := [];
      for i := 0 to |requests|
        invariant Valid() && Contents() == TableAfter(requests[..i])
        invariant |answers| == i && forall k | 0 <= k < i :: answers[k] == AnswerAt(requests, k)
      {
        assert requests[i] in requests;
        assert requests[..i + 1][..i] == requests[..i];
        var r := Kv(requests[i].0, requests[i].1);
        answers := answers + [r];
      }
      assert requests[..|requests|] == requests;
    }
  }
}
