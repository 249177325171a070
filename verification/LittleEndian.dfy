/** Fixed-width little-endian integers, as both the List table and the CLI's frames write them. */
module LittleEndian {
  import opened Common

  function U16(n: nat): Bytes
    requires n < 0x1_0000
  {
    [(n % 256) as byte, (n / 256) as byte]
  }

  function U32(n: nat): Bytes
    requires n < 0x1_0000_0000
  {
    [(n % 256) as byte, (n / 256 % 256) as byte, (n / 256 / 256 % 256) as byte, (n / 256 / 256 / 256) as byte]
  }

  function Le(bs: Bytes): nat {
    if bs == [] then 0 else bs[0] as nat + 256 * Le(bs[1..])
  }

  lemma U16RoundTrip(n: nat)
    requires n < 0x1_0000
    ensures |U16(n)| == 2 && Le(U16(n)) == n
  {
    assert U16(n)[1..][1..] == [];
    assert Le(U16(n)[1..]) == n / 256;
  }

  lemma U32RoundTrip(n: nat)
    requires n < 0x1_0000_0000
    ensures |U32(n)| == 4 && Le(U32(n)) == n
  {
    var b := U32(n);
    assert b[1..][1..][1..][1..] == [];
    assert Le(b[1..][1..][1..]) == n / 256 / 256 / 256;
    assert Le(b[1..][1..]) == n / 256 / 256;
    assert Le(b[1..]) == n / 256;
  }

  lemma Split(b: byte, m: nat)
    ensures (b as nat + 256 * m) % 256 == b as nat && (b as nat + 256 * m) / 256 == m
  {
  }

  lemma U32Of(bs: Bytes)
    requires |bs| == 4
    ensures Le(bs) < 0x1_0000_0000 && U32(Le(bs)) == bs
  {
    var m3 := bs[3] as nat;
    var m2 := bs[2] as nat + 256 * m3;
    var m1 := bs[1] as nat + 256 * m2;
    LeOf(bs);
    Split(bs[0], m1);
    Split(bs[1], m2);
    Split(bs[2], m3);
  }

  lemma LeOf(bs: Bytes)
    requires |bs| == 4
    ensures Le(bs) == bs[0] as nat + 256 * (bs[1] as nat + 256 * (bs[2] as nat + 256 * bs[3] as nat))
  {
    assert bs[1..][1..][1..][1..] == [];
    assert Le(bs[1..][1..][1..]) == bs[3] as nat;
    assert Le(bs[1..][1..]) == bs[2] as nat + 256 * bs[3] as nat;
    assert Le(bs[1..]) == bs[1] as nat + 256 * Le(bs[1..][1..]);
  }
}
