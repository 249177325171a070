/** The packed List format: a key count, then one length-prefixed, 4-byte aligned entry per key. */
module ExecutorList {
  import opened Common
  import opened ExecutorOid
  import opened LittleEndian

  const NRK_SIZE: nat := 4

  /** `u16` length plus key, rounded up to a 4-byte boundary. */
  function EntrySize(keyLen: nat): (r: nat)
    ensures r % 4 == 0 && 2 + keyLen <= r < 2 + keyLen + 4
  {
    (2 + keyLen + 3) / 4 * 4
  }

  function Zeros(n: nat): Bytes {
    seq(n, _ => 0)
  }

  function Entry(key: Bytes): (r: Bytes)
    requires |key| <= KEY_MAX_LEN
    ensures |r| == EntrySize(|key|) && Le(r[..2]) == |key| && r[2..2 + |key|] == key
    ensures forall i | 2 + |key| <= i < |r| :: r[i] == 0
  {
    U16RoundTrip(|key|);
    assert (U16(|key|) + key + Zeros(EntrySize(|key|) - 2 - |key|))[..2] == U16(|key|);
    U16(|key|) + key + Zeros(EntrySize(|key|) - 2 - |key|)
  }

  ghost predicate Sized(ks: seq<Bytes>) {
    forall i | 0 <= i < |ks| :: |ks[i]| <= KEY_MAX_LEN
  }

  ghost function Entries(ks: seq<Bytes>): Bytes
    requires Sized(ks)
  {
    if ks == [] then [] else Entries(ks[..|ks| - 1]) + Entry(ks[|ks| - 1])
  }

  function FullLength(ks: seq<Bytes>): nat {
    if ks == [] then NRK_SIZE else FullLength(ks[..|ks| - 1]) + EntrySize(|ks[|ks| - 1]|)
  }

  /** The 32-bit count, then the entries. */
  ghost function Listing(ks: seq<Bytes>): Bytes
    requires Sized(ks)
  {
    U32(|ks| % 0x1_0000_0000) + Entries(ks)
  }

  lemma {:induction false} ListingLength(ks: seq<Bytes>)
    requires Sized(ks)
    ensures |Listing(ks)| == NRK_SIZE + |Entries(ks)| == FullLength(ks) && FullLength(ks) >= 4 + 4 * |ks|
  {
    if ks != [] { ListingLength(ks[..|ks| - 1]); }
  }

  // ---- reading a table back ----

  /** The reader of the other side: `n` entries from the front of `b`. */
  function ReadEntries(b: Bytes, n: nat): Option<seq<Bytes>> {
    if n == 0 then Some([])
    else if |b| < 2 then None
    else
      var len := Le(b[..2]);
      if |b| < EntrySize(len) then None
      else
        var rest := ReadEntries(b[EntrySize(len)..], n - 1);
        if rest.None? then None else Some([b[2..2 + len]] + rest.value)
  }

  function ReadListing(b: Bytes): Option<seq<Bytes>> {
    if |b| < NRK_SIZE then None else ReadEntries(b[NRK_SIZE..], Le(b[..NRK_SIZE]))
  }

  lemma Assoc(a: Bytes, b: Bytes, c: Bytes)
    ensures (a + b) + c == a + (b + c)
  {
  }

  /** The same entries, front first. */
  lemma {:induction false} EntriesFront(ks: seq<Bytes>)
    requires ks != [] && Sized(ks)
    ensures Entries(ks) == Entry(ks[0]) + Entries(ks[1..])
    decreases |ks|
  {
    hide Entry;
    var n := |ks| - 1;
    if n == 0 {
      assert ks[..0] == [] && ks[1..] == [];
      assert [] + Entry(ks[0]) == Entry(ks[0]) + [];
    } else {
      EntriesFront(ks[..n]);
      assert ks[..n][1..] == ks[1..][..n - 1];
      assert ks[1..][n - 1] == ks[n];
      Assoc(Entry(ks[0]), Entries(ks[1..][..n - 1]), Entry(ks[n]));
    }
  }

  lemma {:induction false} ReadEntriesBack(ks: seq<Bytes>)
    requires Sized(ks)
    ensures ReadEntries(Entries(ks), |ks|) == Some(ks)
    decreases |ks|
  {
    if ks != [] {
      EntriesFront(ks);
      ReadEntriesBack(ks[1..]);
      var k := ks[0];
      var b := Entries(ks);
      U16RoundTrip(|k|);
      assert b[..2] == U16(|k|);
      assert b[2..2 + |k|] == k;
      assert b[EntrySize(|k|)..] == Entries(ks[1..]);
      assert [k] + ks[1..] == ks;
    }
  }

  /** Parsing a listing gives back exactly the keys it was made of. */
  lemma ListingRoundTrip(ks: seq<Bytes>)
    requires |ks| < 0x1_0000_0000 && Sized(ks)
    ensures ReadListing(Listing(ks)) == Some(ks)
  {
    hide U32, Le, ReadEntries, Entries;
    U32RoundTrip(|ks|);
    ReadEntriesBack(ks);
    assert Listing(ks)[..4] == U32(|ks|) && Listing(ks)[4..] == Entries(ks);
  }

  // ---- how much fits ----

  /** Greedy count: stop at the first key whose whole entry does not fit. */
  function FitCount(ks: seq<Bytes>, cap: nat): (n: nat)
    ensures n <= |ks|
    decreases |ks|
  {
    if ks == [] then 0
    else
      var n := FitCount(ks[..|ks| - 1], cap);
      if n == |ks| - 1 && FullLength(ks) <= cap then |ks| else n
  }

  lemma {:induction false} FullLengthGrows(ks: seq<Bytes>, i: nat, j: nat)
    requires i <= j <= |ks|
    ensures FullLength(ks[..i]) <= FullLength(ks[..j]) && (i < j ==> FullLength(ks[..i]) < FullLength(ks[..j]))
    decreases j
  {
    if i < j {
      FullLengthGrows(ks, i, j - 1);
      assert ks[..j][..j - 1] == ks[..j - 1];
    }
  }

  /** It is the longest prefix that fits, and everything fits exactly when nothing is left out. */
  lemma {:induction false} FitCountIsLongest(ks: seq<Bytes>, cap: nat)
    requires cap >= NRK_SIZE
    ensures var n := FitCount(ks, cap);
            && FullLength(ks[..n]) <= cap
            && (forall j | n < j <= |ks| :: FullLength(ks[..j]) > cap)
            && (n < |ks| <==> FullLength(ks) > cap)
    decreases |ks|
  {
    hide FullLength;
    assert ks[..|ks|] == ks;
    if ks == [] {
      NothingListed();
    } else {
      var k := |ks| - 1;
      FitCountIsLongest(ks[..k], cap);
      var n' := FitCount(ks[..k], cap);
      assert ks[..k][..n'] == ks[..n'];
      if n' < k {
        assert ks[..k][..n' + 1] == ks[..n' + 1];
        forall j | n' < j <= |ks| ensures FullLength(ks[..j]) > cap { FullLengthGrows(ks, n' + 1, j); }
      }
    }
  }

  lemma NothingListed()
    ensures FullLength([]) == NRK_SIZE
  {
  }

  /** No more keys fit than a 32-bit size has words. */
  lemma FitCountBound(ks: seq<Bytes>, cap: nat)
    requires cap >= NRK_SIZE && Sized(ks)
    ensures 4 * FitCount(ks, cap) <= cap
  {
    hide FitCount, FullLength, Listing, Entries;
    FitCountIsLongest(ks, cap);
    ListingLength(ks[..FitCount(ks, cap)]);
  }
}
