/** Object ids: the lowercase hex spelling of a key, which keeps order and loses nothing. */
module ExecutorOid {
  import opened Common

  const KEY_MAX_LEN: nat := 255

  function Digit(n: nat): char
    requires n < 16
  {
    if n < 10 then '0' + (n as char) else 'a' + ((n - 10) as char)
  }

  lemma DigitSpelled(n: nat)
    requires n < 16
    ensures Digit(n) == "0123456789abcdef"[n]
  {
  }

  function Value(c: char): Option<nat> {
    if '0' <= c <= '9' then Some((c - '0') as nat)
    else if 'a' <= c <= 'f' then Some((c - 'a') as nat + 10)
    else None
  }

  function Pair(b: byte): string {
    [Digit(b as nat / 16), Digit(b as nat % 16)]
  }

  function Oid(key: Bytes): string {
    if key == [] then "" else Pair(key[0]) + Oid(key[1..])
  }

  lemma {:induction false} OidLength(key: Bytes)
    ensures |Oid(key)| == 2 * |key|
  {
    if key != [] { OidLength(key[1..]); }
  }

  /** Character `2i` and `2i + 1` spell byte `i`. */
  lemma {:induction false} OidAt(key: Bytes, i: nat)
    requires i < |key|
    ensures |Oid(key)| == 2 * |key|
    ensures Oid(key)[2 * i] == Digit(key[i] as nat / 16) && Oid(key)[2 * i + 1] == Digit(key[i] as nat % 16)
  {
    OidLength(key);
    if i > 0 {
      OidAt(key[1..], i - 1);
      assert Oid(key)[2 * i] == Oid(key[1..])[2 * (i - 1)];
      assert Oid(key)[2 * i + 1] == Oid(key[1..])[2 * (i - 1) + 1];
    }
  }

  lemma DigitValue(n: nat)
    requires n < 16
    ensures Value(Digit(n)) == Some(n)
  {
  }

  lemma ValueDigit(c: char)
    ensures Value(c).Some? ==> Value(c).value < 16 && Digit(Value(c).value) == c
  {
  }

  /** Write the oid character by character into a buffer. */
  method KeyToOid(key: Bytes) returns (oid: string)
    ensures oid == Oid(key)
  {
    var buf := new char[2 * |key|](_ => '0');
    var i := 0;
    while i < |key|
      invariant 0 <= i <= |key|
      invariant forall k | 0 <= k < i ::
                  buf[2 * k] == Digit(key[k] as nat / 16) && buf[2 * k + 1] == Digit(key[k] as nat % 16)
    {
      buf[2 * i] := Digit(key[i] as nat / 16);
      buf[2 * i + 1] := Digit(key[i] as nat % 16);
      i := i + 1;
    }
    oid := buf[..];
    OidLength(key);
    forall j | 0 <= j < |oid| ensures oid[j] == Oid(key)[j] {
      OidAt(key, j / 2);
      assert j == 2 * (j / 2) || j == 2 * (j / 2) + 1;
    }
  }

  /** The key an oid spells, if it is one: even, non-empty, within bounds, lowercase hex. */
  function KeyOf(oid: string): Option<Bytes> {
    if |oid| == 0 || |oid| % 2 == 1 || |oid| / 2 > KEY_MAX_LEN then None else HexBytes(oid)
  }

  function HexBytes(oid: string): Option<Bytes>
    requires |oid| % 2 == 0
  {
    if oid == "" then Some([])
    else
      var hi, lo := Value(oid[0]), Value(oid[1]);
      var rest := HexBytes(oid[2..]);
      if hi.Some? && lo.Some? && rest.Some? then Some([((hi.value * 16 + lo.value) as byte)] + rest.value) else None
  }

  lemma {:induction false} BytesOfOid(key: Bytes)
    ensures |Oid(key)| % 2 == 0 && HexBytes(Oid(key)) == Some(key)
  {
    OidLength(key);
    if key != [] {
      BytesOfOid(key[1..]);
      var b := key[0] as nat;
      DigitValue(b / 16);
      DigitValue(b % 16);
      assert Oid(key)[2..] == Oid(key[1..]);
      assert [key[0]] + key[1..] == key;
    }
  }

  lemma {:induction false} OidOfBytes(oid: string)
    requires |oid| % 2 == 0 && HexBytes(oid).Some?
    ensures Oid(HexBytes(oid).value) == oid && 2 * |HexBytes(oid).value| == |oid|
    decreases |oid|
  {
    if oid != "" {
      OidOfBytes(oid[2..]);
      ValueDigit(oid[0]);
      ValueDigit(oid[1]);
      var hi, lo := Value(oid[0]).value, Value(oid[1]).value;
      assert (hi * 16 + lo) / 16 == hi && (hi * 16 + lo) % 16 == lo;
      assert oid == [oid[0], oid[1]] + oid[2..];
      var rest := HexBytes(oid[2..]).value;
      var key := HexBytes(oid).value;
      assert key[1..] == rest && key[0] as nat == hi * 16 + lo;
    }
  }

  /** Decoding undoes encoding, and only spellings of keys decode: oids and keys are one to one. */
  lemma OidRoundTrip(key: Bytes, oid: string)
    requires 1 <= |key| <= KEY_MAX_LEN
    ensures KeyOf(Oid(key)) == Some(key)
    ensures KeyOf(oid) == Some(key) <==> oid == Oid(key)
  {
    BytesOfOid(key);
    OidLength(key);
    if KeyOf(oid) == Some(key) { OidOfBytes(oid); }
  }

  /** The decoding loop: fail at the first character that is not lowercase hex. */
  method OidToKey(oid: string) returns (key: Option<Bytes>)
    ensures key == KeyOf(oid)
  {
    if |oid| == 0 || |oid| % 2 == 1 || |oid| / 2 > KEY_MAX_LEN { return None; }
    var klen := |oid| / 2;
    var out: Bytes := [];
    var i := 0;
    assert oid[0..] == oid && forall x: Bytes :: [] + x == x;
    while i < klen
      invariant 0 <= i <= klen
      invariant HexBytes(oid) ==
          (var rest := HexBytes(oid[2 * i..]); if rest.Some? then Some(out + rest.value) else None)
    {
      var hi, lo := Value(oid[2 * i]), Value(oid[2 * i + 1]);
      assert oid[2 * i..][2..] == oid[2 * (i + 1)..];
      if hi.None? || lo.None? { return None; }
      ValueDigit(oid[2 * i]);
      ValueDigit(oid[2 * i + 1]);
      var b := (hi.value * 16 + lo.value) as byte;
      ghost var rest := HexBytes(oid[2 * (i + 1)..]);
      if rest.Some? { assert out + ([b] + rest.value) == (out + [b]) + rest.value; }
      out := out + [b];
      i := i + 1;
    }
    assert oid[2 * klen..] == "" && out + [] == out;
    key := Some(out);
  }

  // ---- order ----

  /** Byte order on keys: the first difference decides, a proper prefix comes first. */
  predicate Before(a: Bytes, b: Bytes) {
    b != [] && (a == [] || a[0] < b[0] || (a[0] == b[0] && Before(a[1..], b[1..])))
  }

  /** `strcmp(a, b) < 0`. */
  predicate StrBefore(a: string, b: string) {
    b != "" && (a == "" || a[0] < b[0] || (a[0] == b[0] && StrBefore(a[1..], b[1..])))
  }

  /** Before means: equal up to some place, where the one ends or has the smaller byte. */
  ghost predicate FirstDifference(a: Bytes, b: Bytes, i: nat) {
    i <= |a| && i < |b| && a[..i] == b[..i] && (i == |a| || a[i] < b[i])
  }

  lemma {:induction false} BeforeExact(a: Bytes, b: Bytes)
    ensures Before(a, b) <==> exists i: nat :: FirstDifference(a, b, i)
    decreases |a|
  {
    if Before(a, b) && (a == [] || a[0] < b[0]) {
      assert FirstDifference(a, b, 0);
    } else if a != [] && b != [] {
      BeforeExact(a[1..], b[1..]);
      if Before(a, b) {
        var i: nat :| FirstDifference(a[1..], b[1..], i);
        assert a[..i + 1] == [a[0]] + a[1..][..i] && b[..i + 1] == [b[0]] + b[1..][..i];
        assert FirstDifference(a, b, i + 1);
      }
      if i: nat :| FirstDifference(a, b, i) {
        if i > 0 {
          assert a[0] == a[..i][0] == b[..i][0] == b[0];
          assert a[1..][..i - 1] == a[..i][1..] && b[1..][..i - 1] == b[..i][1..];
          assert FirstDifference(a[1..], b[1..], i - 1);
        }
      }
    }
  }

  lemma DigitOrder(m: nat, n: nat)
    requires m < 16 && n < 16
    ensures Digit(m) < Digit(n) <==> m < n
    ensures Digit(m) == Digit(n) <==> m == n
  {
  }

  lemma PairOrder(x: byte, y: byte, s: string, t: string)
    ensures StrBefore(Pair(x) + s, Pair(y) + t) <==> x < y || (x == y && StrBefore(s, t))
  {
    var a, b := Pair(x) + s, Pair(y) + t;
    DigitOrder(x as nat / 16, y as nat / 16);
    DigitOrder(x as nat % 16, y as nat % 16);
    assert a[1..][1..] == s && b[1..][1..] == t;
    assert StrBefore(a[1..], b[1..]) <==>
        Digit(x as nat % 16) < Digit(y as nat % 16) || (x as nat % 16 == y as nat % 16 && StrBefore(s, t));
  }

  /** Comparing oids as strings is comparing keys as bytes. */
  lemma {:induction false} OidKeepsOrder(a: Bytes, b: Bytes)
    ensures StrBefore(Oid(a), Oid(b)) <==> Before(a, b)
    decreases |a|
  {
    OidLength(a);
    OidLength(b);
    if a != [] && b != [] {
      OidKeepsOrder(a[1..], b[1..]);
      PairOrder(a[0], b[0], Oid(a[1..]), Oid(b[1..]));
    }
  }

  lemma {:induction false} OrderTotal(a: Bytes, b: Bytes)
    ensures Before(a, b) || Before(b, a) || a == b
    ensures !(Before(a, b) && Before(b, a))
    decreases |a|
  {
    if a != [] && b != [] {
      OrderTotal(a[1..], b[1..]);
      assert a == [a[0]] + a[1..] && b == [b[0]] + b[1..];
    }
  }

  lemma {:induction false} OrderTransitive(a: Bytes, b: Bytes, c: Bytes)
    requires Before(a, b) && Before(b, c)
    ensures Before(a, c)
    decreases |a|
  {
    if a != [] && a[0] == b[0] && b[0] == c[0] { OrderTransitive(a[1..], b[1..], c[1..]); }
  }

  lemma {:induction false} StrTotal(a: string, b: string)
    ensures StrBefore(a, b) || StrBefore(b, a) || a == b
    ensures !(StrBefore(a, b) && StrBefore(b, a))
    decreases |a|
  {
    if a != "" && b != "" {
      StrTotal(a[1..], b[1..]);
      assert a == [a[0]] + a[1..] && b == [b[0]] + b[1..];
    }
  }

  lemma {:induction false} StrTransitive(a: string, b: string, c: string)
    requires StrBefore(a, b) && StrBefore(b, c)
    ensures StrBefore(a, c)
    decreases |a|
  {
    if a != "" && a[0] == b[0] && b[0] == c[0] { StrTransitive(a[1..], b[1..], c[1..]); }
  }
}
