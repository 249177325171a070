/** The CLI's wire codec: tagged bodies inside length-prefixed frames. */
module RkvFrame {
  import opened Common
  import opened LittleEndian

  const MAX_FRAME: nat := 80 * 1024 * 1024

  /** Keys are strings, held as their UTF-8 bytes. */
  datatype Request =
    | Store(nsid: nat, key: Bytes, val: Bytes)
    | Get(nsid: nat, key: Bytes)
    | Exec(nsid: nat, opId: nat, key: Bytes, input: Bytes)
    | Ping
    | Shutdown

  datatype Response = Okay(payload: Bytes) | Failure(msg: Bytes)

  datatype Error = UnexpectedEof | ZeroLength | TooLarge | Truncated | NotUtf8 | UnknownTag | Trailing | Empty

  // ---- UTF-8 (section 4 of RFC 3629) ----

  predicate Tail(b: byte) { 0x80 <= b <= 0xbf }

  /** How many bytes the character at the front takes, if it is well formed. */
  function CharLen(s: Bytes): Option<nat> {
    if s == [] then None
    else if s[0] <= 0x7f then Some(1)
    else if |s| >= 2 && 0xc2 <= s[0] <= 0xdf && Tail(s[1]) then Some(2)
    else if |s| >= 3 && 0xe0 <= s[0] <= 0xef && Tail(s[1]) && Tail(s[2])
         && (s[0] == 0xe0 ==> s[1] >= 0xa0) && (s[0] == 0xed ==> s[1] <= 0x9f) then Some(3)
    else if |s| >= 4 && 0xf0 <= s[0] <= 0xf4 && Tail(s[1]) && Tail(s[2]) && Tail(s[3])
         && (s[0] == 0xf0 ==> s[1] >= 0x90) && (s[0] == 0xf4 ==> s[1] <= 0x8f) then Some(4)
    else None
  }

  predicate Utf8(s: Bytes) {
    s == [] || (var n := CharLen(s); n.Some? && Utf8(s[n.value..]))
  }

  /** A Unicode scalar value. */
  predicate Scalar(c: nat) {
    c < 0xd800 || 0xe000 <= c < 0x11_0000
  }

  /** Its encoding in one to four bytes (section 3 of RFC 3629). */
  function Encoding(c: nat): Bytes
    requires Scalar(c)
  {
    if c < 0x80 then [c as byte]
    else if c < 0x800 then [(0xc0 + c / 64) as byte, (0x80 + c % 64) as byte]
    else if c < 0x1_0000 then [(0xe0 + c / 4096) as byte, (0x80 + c / 64 % 64) as byte, (0x80 + c % 64) as byte]
    else [(0xf0 + c / 262144) as byte, (0x80 + c / 4096 % 64) as byte, (0x80 + c / 64 % 64) as byte,
          (0x80 + c % 64) as byte]
  }

  ghost predicate Scalars(cs: seq<nat>) {
    forall i | 0 <= i < |cs| :: Scalar(cs[i])
  }

  function Encodings(cs: seq<nat>): Bytes
    requires Scalars(cs)
  {
    if cs == [] then [] else Encoding(cs[0]) + Encodings(cs[1..])
  }

  lemma EncodingRead(c: nat, rest: Bytes)
    requires Scalar(c)
    ensures CharLen(Encoding(c) + rest) == Some(|Encoding(c)|)
  {
    var s := Encoding(c) + rest;
    if 0x800 <= c < 0x1_0000 {
      assert s[0] == (0xe0 + c / 4096) as byte && s[1] == (0x80 + c / 64 % 64) as byte;
    } else if c >= 0x1_0000 {
      assert s[0] == (0xf0 + c / 262144) as byte && s[1] == (0x80 + c / 4096 % 64) as byte;
    }
  }

  /** The character a well-formed front stands for. */
  function Front(s: Bytes): nat
    requires CharLen(s).Some?
  {
    var n := CharLen(s).value;
    if n == 1 then s[0] as nat
    else if n == 2 then (s[0] as nat - 0xc0) * 64 + (s[1] as nat - 0x80)
    else if n == 3 then ((s[0] as nat - 0xe0) * 64 + (s[1] as nat - 0x80)) * 64 + (s[2] as nat - 0x80)
    else (((s[0] as nat - 0xf0) * 64 + (s[1] as nat - 0x80)) * 64 + (s[2] as nat - 0x80)) * 64 + (s[3] as nat - 0x80)
  }

  lemma Digits64(a: nat, b: nat)
    requires b < 64
    ensures (a * 64 + b) / 64 == a && (a * 64 + b) % 64 == b
  {
  }

  lemma Encode2(a: nat, b: nat)
    requires 2 <= a < 32 && b < 64
    ensures Scalar(a * 64 + b) && Encoding(a * 64 + b) == [(0xc0 + a) as byte, (0x80 + b) as byte]
  {
    Digits64(a, b);
  }

  lemma Encode3(a: nat, b: nat, c: nat)
    requires a < 16 && b < 64 && c < 64 && (a == 0 ==> b >= 32) && (a == 13 ==> b < 32)
    ensures var code := (a * 64 + b) * 64 + c;
            && 0x800 <= code < 0x1_0000 && Scalar(code)
            && Encoding(code) == [(0xe0 + a) as byte, (0x80 + b) as byte, (0x80 + c) as byte]
  {
    Digits64(a, b);
    Digits64(a * 64 + b, c);
    var code := (a * 64 + b) * 64 + c;
    DivTwice(code);
    assert code / 4096 == a && code / 64 % 64 == b && code % 64 == c;
  }

  lemma Encode4(a: nat, b: nat, c: nat, d: nat)
    requires a < 5 && b < 64 && c < 64 && d < 64 && (a == 0 ==> b >= 16) && (a == 4 ==> b < 16)
    ensures var code := ((a * 64 + b) * 64 + c) * 64 + d;
            && 0x1_0000 <= code < 0x11_0000 && Scalar(code)
            && Encoding(code) == [(0xf0 + a) as byte, (0x80 + b) as byte, (0x80 + c) as byte, (0x80 + d) as byte]
  {
    Digits64(a, b);
    Digits64(a * 64 + b, c);
    Digits64((a * 64 + b) * 64 + c, d);
    var code := ((a * 64 + b) * 64 + c) * 64 + d;
    DivTwice(code);
    assert code / 262144 == a && code / 4096 % 64 == b && code / 64 % 64 == c && code % 64 == d;
  }

  lemma FrontEncoded(s: Bytes)
    requires CharLen(s).Some?
    ensures Scalar(Front(s)) && CharLen(s).value <= |s| && Encoding(Front(s)) == s[..CharLen(s).value]
  {
    var n := CharLen(s).value;
    if n == 1 {
      assert s[..1] == [s[0]];
    } else {
      hide Encoding, Scalar;
      if n == 2 {
        Encode2(s[0] as nat - 0xc0, s[1] as nat - 0x80);
        assert s[..2] == [s[0], s[1]];
      } else if n == 3 {
        Encode3(s[0] as nat - 0xe0, s[1] as nat - 0x80, s[2] as nat - 0x80);
        assert s[..3] == [s[0], s[1], s[2]];
      } else {
        Encode4(s[0] as nat - 0xf0, s[1] as nat - 0x80, s[2] as nat - 0x80, s[3] as nat - 0x80);
        assert s[..4] == [s[0], s[1], s[2], s[3]];
      }
    }
  }

  lemma DivTwice(c: nat)
    ensures c / 4096 == c / 64 / 64 && c / 262144 == c / 64 / 64 / 64
  {
  }

  /** Bytes are well formed exactly when they encode some sequence of characters. */
  lemma {:induction false} Utf8Exact(s: Bytes)
    ensures Utf8(s) <==> exists cs :: Scalars(cs) && s == Encodings(cs)
    decreases |s|
  {
    hide CharLen, Encoding, Scalar, Front;
    if s == [] {
      assert Scalars([]) && Encodings([]) == [];
    } else {
      if Utf8(s) {
        var n := CharLen(s).value;
        FrontEncoded(s);
        FrontLength(s);
        Utf8Exact(s[n..]);
        var cs :| Scalars(cs) && s[n..] == Encodings(cs);
        var all := [Front(s)] + cs;
        assert all[1..] == cs && Scalars(all);
        assert s == s[..n] + s[n..] == Encodings(all);
      }
      if cs :| Scalars(cs) && s == Encodings(cs) {
        EncodingRead(cs[0], Encodings(cs[1..]));
        EncodingLength(cs[0]);
        var n := |Encoding(cs[0])|;
        assert s[n..] == Encodings(cs[1..]) && Scalars(cs[1..]);
        Utf8Exact(s[n..]);
      }
    }
  }

  lemma FrontLength(s: Bytes)
    requires CharLen(s).Some?
    ensures 1 <= CharLen(s).value <= |s|
  {
  }

  lemma EncodingLength(c: nat)
    requires Scalar(c)
    ensures |Encoding(c)| >= 1
  {
  }

  // ---- writing ----

  /** The 32-bit length of a field or body; longer ones are cut to 32 bits. */
  function PutBytes(b: Bytes): Bytes {
    U32(|b| % TWO32) + b
  }

  predicate Typed(r: Request) {
    match r
    case Store(nsid, key, _) => nsid < TWO32 && Utf8(key)
    case Get(nsid, key) => nsid < TWO32 && Utf8(key)
    case Exec(nsid, opId, key, _) => nsid < TWO32 && opId < TWO32 && Utf8(key)
    case _ => true
  }

  function Body(r: Request): (b: Bytes)
    requires Typed(r)
    ensures b != []
  {
    match r
    case Store(nsid, key, val) => [1] + (U32(nsid) + (PutBytes(key) + PutBytes(val)))
    case Get(nsid, key) => [2] + (U32(nsid) + PutBytes(key))
    case Exec(nsid, opId, key, input) => [3] + (U32(nsid) + (U32(opId) + (PutBytes(key) + PutBytes(input))))
    case Ping => [4]
    case Shutdown => [5]
  }

  function Frame(body: Bytes): Bytes {
    PutBytes(body)
  }

  ghost predicate StoreLayout(f: Bytes, nsid: nat, key: Bytes, val: Bytes) {
    && |f| == 17 + |key| + |val| && f[4] == 1 && Le(f[5..9]) == nsid
    && Le(f[9..13]) == |key| && f[13..13 + |key|] == key
    && Le(f[13 + |key|..17 + |key|]) == |val| && f[17 + |key|..] == val
  }

  ghost predicate GetLayout(f: Bytes, nsid: nat, key: Bytes) {
    |f| == 13 + |key| && f[4] == 2 && Le(f[5..9]) == nsid && Le(f[9..13]) == |key| && f[13..] == key
  }

  ghost predicate ExecLayout(f: Bytes, nsid: nat, opId: nat, key: Bytes, input: Bytes) {
    && |f| == 21 + |key| + |input| && f[4] == 3 && Le(f[5..9]) == nsid && Le(f[9..13]) == opId
    && Le(f[13..17]) == |key| && f[17..17 + |key|] == key
    && Le(f[17 + |key|..21 + |key|]) == |input| && f[21 + |key|..] == input
  }

  /** A field of the form length and bytes, wherever it stands. */
  lemma FieldAt(pre: Bytes, b: Bytes, post: Bytes)
    requires |b| < TWO32
    ensures var f, n := pre + (PutBytes(b) + post), |pre|;
            && |f| == n + 4 + |b| + |post| && Le(f[n..n + 4]) == |b| && f[n + 4..n + 4 + |b|] == b
            && f[n + 4 + |b|..] == post
  {
    hide U32, Le;
    U32RoundTrip(|b|);
    var f, n := pre + (PutBytes(b) + post), |pre|;
    assert f[n..n + 4] == U32(|b|);
  }

  lemma NumberAt(pre: Bytes, x: nat, post: Bytes)
    requires x < TWO32
    ensures var f, n := pre + (U32(x) + post), |pre|;
            |f| == n + 4 + |post| && Le(f[n..n + 4]) == x && f[n + 4..] == post && f[..n] == pre
  {
    hide U32, Le;
    U32RoundTrip(x);
    var f, n := pre + (U32(x) + post), |pre|;
    assert f[n..n + 4] == U32(x);
  }

  lemma Regroup(a: Bytes, b: Bytes, c: Bytes)
    ensures a + (b + c) == a + b + c
  {
  }

  lemma StoreLaidOut(pre: Bytes, nsid: nat, key: Bytes, val: Bytes)
    requires |pre| == 4 && nsid < TWO32 && |key| < TWO32 && |val| < TWO32
    ensures StoreLayout(pre + ([1] + (U32(nsid) + (PutBytes(key) + PutBytes(val)))), nsid, key, val)
  {
    hide U32, Le, PutBytes;
    var fields := PutBytes(key) + PutBytes(val);
    var f := pre + ([1] + (U32(nsid) + fields));
    Regroup(pre, [1], U32(nsid) + fields);
    NumberAt(pre + [1], nsid, fields);
    var head := f[..9];
    assert f == head + fields;
    FieldAt(head, key, PutBytes(val));
    EndOf(PutBytes(val));
    FieldAt(f[..13 + |key|], val, []);
    assert f == f[..13 + |key|] + PutBytes(val);
    assert f[4] == (pre + [1])[4];
  }

  lemma GetLaidOut(pre: Bytes, nsid: nat, key: Bytes)
    requires |pre| == 4 && nsid < TWO32 && |key| < TWO32
    ensures GetLayout(pre + ([2] + (U32(nsid) + PutBytes(key))), nsid, key)
  {
    hide U32, Le, PutBytes;
    var f := pre + ([2] + (U32(nsid) + PutBytes(key)));
    Regroup(pre, [2], U32(nsid) + PutBytes(key));
    NumberAt(pre + [2], nsid, PutBytes(key));
    EndOf(PutBytes(key));
    assert f == f[..9] + PutBytes(key);
    FieldAt(f[..9], key, []);
    assert f[4] == (pre + [2])[4];
  }

  lemma ExecLaidOut(pre: Bytes, nsid: nat, opId: nat, key: Bytes, input: Bytes)
    requires |pre| == 4 && nsid < TWO32 && opId < TWO32 && |key| < TWO32 && |input| < TWO32
    ensures ExecLayout(pre + ([3] + (U32(nsid) + (U32(opId) + (PutBytes(key) + PutBytes(input))))),
                       nsid, opId, key, input)
  {
    hide U32, Le, PutBytes;
    var fields := PutBytes(key) + PutBytes(input);
    var f := pre + ([3] + (U32(nsid) + (U32(opId) + fields)));
    Regroup(pre, [3], U32(nsid) + (U32(opId) + fields));
    NumberAt(pre + [3], nsid, U32(opId) + fields);
    assert f == f[..9] + (U32(opId) + fields);
    NumberAt(f[..9], opId, fields);
    assert f == f[..13] + fields;
    FieldAt(f[..13], key, PutBytes(input));
    EndOf(PutBytes(input));
    assert f == f[..17 + |key|] + PutBytes(input);
    FieldAt(f[..17 + |key|], input, []);
    assert f[4] == (pre + [3])[4];
  }

  /** The documented layout of a frame: its length, its tag, and each field at its offset. */
  lemma FrameLayout(r: Request)
    requires Typed(r) && |Body(r)| < TWO32
    ensures var f := Frame(Body(r));
            && |f| == 4 + |Body(r)| && Le(f[..4]) == |f| - 4
            && match r
               case Store(nsid, key, val) => StoreLayout(f, nsid, key, val)
               case Get(nsid, key) => GetLayout(f, nsid, key)
               case Exec(nsid, opId, key, input) => ExecLayout(f, nsid, opId, key, input)
               case Ping => f[4..] == [4]
               case Shutdown => f[4..] == [5]
  {
    hide U32, Le, Utf8, StoreLayout, GetLayout, ExecLayout;
    var b := Body(r);
    Sizes(r);
    U32RoundTrip(|b|);
    assert Frame(b)[..4] == U32(|b|) && Frame(b)[4..] == b;
    match r {
      case Store(nsid, key, val) => StoreLaidOut(U32(|b|), nsid, key, val);
      case Get(nsid, key) => GetLaidOut(U32(|b|), nsid, key);
      case Exec(nsid, opId, key, input) => ExecLaidOut(U32(|b|), nsid, opId, key, input);
      case _ =>
    }
  }

  /** Pushing at the end, piece by piece, or nesting: the same bytes, empty pieces left out. */
  lemma Pushed(tag: byte, a: Bytes, b: Bytes, c: Bytes, d: Bytes)
    ensures [] + [tag] + a + b + c + d == [tag] + (a + (b + (c + d)))
    ensures [] + [tag] + a + c + d == [tag] + (a + (c + d))
    ensures [] + [tag] + a + c == [tag] + (a + c)
    ensures [] + [tag] == [tag]
  {
  }

  /** The encoder, pushing piece by piece onto a growing body. */
  method Encode(r: Request) returns (out: Bytes)
    requires Typed(r)
    ensures out == Frame(Body(r))
  {
    hide PutBytes, U32;
    var body: Bytes := [];
    match r {
      case Store(nsid, key, val) =>
        body := body + [1];
        body := body + U32(nsid);
        body := body + PutBytes(key);
        body := body + PutBytes(val);
        Pushed(1, U32(nsid), [], PutBytes(key), PutBytes(val));
      case Get(nsid, key) =>
        body := body + [2];
        body := body + U32(nsid);
        body := body + PutBytes(key);
        Pushed(2, U32(nsid), [], PutBytes(key), []);
      case Exec(nsid, opId, key, input) =>
        body := body + [3];
        body := body + U32(nsid);
        body := body + U32(opId);
        body := body + PutBytes(key);
        body := body + PutBytes(input);
        Pushed(3, U32(nsid), U32(opId), PutBytes(key), PutBytes(input));
      case Ping =>
        body := body + [4];
        Pushed(4, [], [], [], []);
      case Shutdown =>
        body := body + [5];
        Pushed(5, [], [], [], []);
    }
    out := Frame(body);
  }

  // ---- reading, as functions of what is left of the body ----

  function TakeU32(s: Bytes): Result<(nat, Bytes), Error> {
    if |s| < 4 then Err(Truncated) else Ok((Le(s[..4]), s[4..]))
  }

  function TakeBytes(s: Bytes): Result<(Bytes, Bytes), Error> {
    var n := TakeU32(s);
    if n.Err? then Err(n.error)
    else if |n.value.1| < n.value.0 then Err(Truncated)
    else Ok((n.value.1[..n.value.0], n.value.1[n.value.0..]))
  }

  function TakeString(s: Bytes): Result<(Bytes, Bytes), Error> {
    var b := TakeBytes(s);
    if b.Ok? && !Utf8(b.value.0) then Err(NotUtf8) else b
  }

  function AtEnd(r: Request, s: Bytes): Result<Request, Error> {
    if s == [] then Ok(r) else Err(Trailing)
  }

  function Parse(body: Bytes): Result<Request, Error> {
    if body == [] then Err(Truncated)
    else
      var s := body[1..];
      match body[0]
      case 1 => ParseStore(s)
      case 2 => ParseGet(s)
      case 3 => ParseExec(s)
      case 4 => AtEnd(Ping, s)
      case 5 => AtEnd(Shutdown, s)
      case _ => Err(UnknownTag)
  }

  function ParseStore(s: Bytes): Result<Request, Error> {
    var nsid := TakeU32(s);
    if nsid.Err? then Err(nsid.error) else
    var key := TakeString(nsid.value.1);
    if key.Err? then Err(key.error) else
    var val := TakeBytes(key.value.1);
    if val.Err? then Err(val.error) else AtEnd(Store(nsid.value.0, key.value.0, val.value.0), val.value.1)
  }

  function ParseGet(s: Bytes): Result<Request, Error> {
    var nsid := TakeU32(s);
    if nsid.Err? then Err(nsid.error) else
    var key := TakeString(nsid.value.1);
    if key.Err? then Err(key.error) else AtEnd(Get(nsid.value.0, key.value.0), key.value.1)
  }

  function ParseExec(s: Bytes): Result<Request, Error> {
    var nsid := TakeU32(s);
    if nsid.Err? then Err(nsid.error) else
    var opId := TakeU32(nsid.value.1);
    if opId.Err? then Err(opId.error) else
    var key := TakeString(opId.value.1);
    if key.Err? then Err(key.error) else
    var input := TakeBytes(key.value.1);
    if input.Err? then Err(input.error)
    else AtEnd(Exec(nsid.value.0, opId.value.0, key.value.0, input.value.0), input.value.1)
  }

  // ---- one step undoes the other ----

  lemma TakeU32Exact(s: Bytes, n: nat, rest: Bytes)
    ensures n < TWO32 ==> TakeU32(U32(n) + rest) == Ok((n, rest))
    ensures TakeU32(s) == Ok((n, rest)) ==> n < TWO32 && s == U32(n) + rest
  {
    if n < TWO32 {
      U32RoundTrip(n);
      assert (U32(n) + rest)[..4] == U32(n) && (U32(n) + rest)[4..] == rest;
    }
    if |s| >= 4 { U32Of(s[..4]); }
  }

  lemma TakeBytesExact(s: Bytes, b: Bytes, rest: Bytes)
    ensures |b| < TWO32 ==> TakeBytes(PutBytes(b) + rest) == Ok((b, rest))
    ensures TakeBytes(s) == Ok((b, rest)) ==> |b| < TWO32 && s == PutBytes(b) + rest
  {
    hide TakeU32, U32;
    if |b| < TWO32 {
      assert PutBytes(b) + rest == U32(|b|) + (b + rest);
      TakeU32Exact(s, |b|, b + rest);
      assert (b + rest)[..|b|] == b && (b + rest)[|b|..] == rest;
    }
    if TakeBytes(s) == Ok((b, rest)) {
      var after := TakeU32(s).value.1;
      assert after == b + rest;
      TakeU32Exact(s, |b|, after);
      assert U32(|b|) + (b + rest) == PutBytes(b) + rest;
    }
  }

  lemma TakeStringExact(s: Bytes, b: Bytes, rest: Bytes)
    ensures |b| < TWO32 && Utf8(b) ==> TakeString(PutBytes(b) + rest) == Ok((b, rest))
    ensures TakeString(s) == Ok((b, rest)) ==> |b| < TWO32 && Utf8(b) && s == PutBytes(b) + rest
  {
    hide PutBytes, TakeBytes, Utf8;
    TakeBytesExact(s, b, rest);
  }

  lemma EndOf(b: Bytes)
    ensures b + [] == b
  {
  }

  /** Decoding what was encoded gives the request back, as long as the body's lengths fit 32 bits. */
  lemma ParseBody(r: Request)
    requires Typed(r) && |Body(r)| < TWO32
    ensures Parse(Body(r)) == Ok(r)
  {
    hide PutBytes, U32, TakeU32, TakeBytes, TakeString, Utf8;
    Sizes(r);
    var s := Body(r)[1..];
    match r {
      case Store(nsid, key, val) =>
        assert s == U32(nsid) + (PutBytes(key) + PutBytes(val));
        TakeU32Exact(s, nsid, PutBytes(key) + PutBytes(val));
        TakeStringExact(s, key, PutBytes(val));
        EndOf(PutBytes(val));
        TakeBytesExact(s, val, []);
      case Get(nsid, key) =>
        assert s == U32(nsid) + PutBytes(key);
        TakeU32Exact(s, nsid, PutBytes(key));
        EndOf(PutBytes(key));
        TakeStringExact(s, key, []);
      case Exec(nsid, opId, key, input) =>
        assert s == U32(nsid) + (U32(opId) + (PutBytes(key) + PutBytes(input)));
        TakeU32Exact(s, nsid, U32(opId) + (PutBytes(key) + PutBytes(input)));
        TakeU32Exact(s, opId, PutBytes(key) + PutBytes(input));
        TakeStringExact(s, key, PutBytes(input));
        EndOf(PutBytes(input));
        TakeBytesExact(s, input, []);
      case _ =>
    }
  }

  lemma Sizes(r: Request)
    requires Typed(r)
    ensures match r
            case Store(_, key, val) => |key| <= |Body(r)| && |val| <= |Body(r)|
            case Get(_, key) => |key| <= |Body(r)|
            case Exec(_, _, key, input) => |key| <= |Body(r)| && |input| <= |Body(r)|
            case _ => true
  {
    hide Utf8;
  }

  /** A body that decodes is the encoding of what it decodes to, so no two bodies decode to one request. */
  lemma BodyOfParsed(body: Bytes, r: Request)
    requires Parse(body) == Ok(r)
    ensures Typed(r) && Body(r) == body
  {
    hide PutBytes, U32, TakeU32, TakeBytes, TakeString, Utf8;
    var s := body[1..];
    assert body == [body[0]] + s;
    match body[0] {
      case 1 =>
        var nsid := TakeU32(s).value;
        TakeU32Exact(s, nsid.0, nsid.1);
        var key := TakeString(nsid.1).value;
        TakeStringExact(nsid.1, key.0, key.1);
        var val := TakeBytes(key.1).value;
        TakeBytesExact(key.1, val.0, val.1);
        EndOf(PutBytes(val.0));
      case 2 =>
        var nsid := TakeU32(s).value;
        TakeU32Exact(s, nsid.0, nsid.1);
        var key := TakeString(nsid.1).value;
        TakeStringExact(nsid.1, key.0, key.1);
        EndOf(PutBytes(key.0));
      case 3 =>
        var nsid := TakeU32(s).value;
        TakeU32Exact(s, nsid.0, nsid.1);
        var opId := TakeU32(nsid.1).value;
        TakeU32Exact(nsid.1, opId.0, opId.1);
        var key := TakeString(opId.1).value;
        TakeStringExact(opId.1, key.0, key.1);
        var input := TakeBytes(key.1).value;
        TakeBytesExact(key.1, input.0, input.1);
        EndOf(PutBytes(input.0));
      case _ =>
    }
  }

  // ---- the cursor ----

  class Cursor {
    const buf: Bytes
    var pos: nat

    ghost predicate Valid()
      reads this
    {
      pos <= |buf|
    }

    ghost function Rest(): Bytes
      requires Valid()
      reads this
    {
      buf[pos..]
    }

    constructor (body: Bytes)
      ensures Valid() && Rest() == body && buf == body
    {
      buf, pos := body, 0;
    }

    method Take(n: nat) returns (r: Result<Bytes, Error>)
      requires Valid()
      modifies this
      ensures Valid()
      ensures |old(Rest())| < n ==> r == Err(Truncated) && Rest() == old(Rest())
      ensures n <= |old(Rest())| ==> r == Ok(old(Rest())[..n]) && Rest() == old(Rest())[n..]
    {
      var end := pos + n;
      if end > |buf| { return Err(Truncated); }
      ghost var rest := buf[pos..];
      r := Ok(buf[pos..end]);
      pos := end;
      assert rest[..n] == r.value && rest[n..] == buf[end..];
    }

    method ReadU32() returns (r: Result<nat, Error>)
      requires Valid()
      modifies this
      ensures Valid()
      ensures match TakeU32(old(Rest())) case Ok(v) => r == Ok(v.0) && Rest() == v.1 case Err(e) => r == Err(e)
    {
      var s := Take(4);
      if s.Err? { return Err(s.error); }
      r := Ok(Le(s.value));
    }

    method ReadBytes() returns (r: Result<Bytes, Error>)
      requires Valid()
      modifies this
      ensures Valid()
      ensures match TakeBytes(old(Rest())) case Ok(v) => r == Ok(v.0) && Rest() == v.1 case Err(e) => r == Err(e)
    {
      hide Le;
      var n := ReadU32();
      if n.Err? { return Err(n.error); }
      r := Take(n.value);
    }

    method ReadString() returns (r: Result<Bytes, Error>)
      requires Valid()
      modifies this
      ensures Valid()
      ensures match TakeString(old(Rest())) case Ok(v) => r == Ok(v.0) && Rest() == v.1 case Err(e) => r == Err(e)
    {
      hide TakeBytes, Utf8;
      r := ReadBytes();
      if r.Ok? && !Utf8(r.value) { return Err(NotUtf8); }
    }
  }

  method ExpectEnd(c: Cursor, req: Request) returns (r: Result<Request, Error>)
    requires c.Valid()
    ensures r == AtEnd(req, c.Rest())
  {
    if c.pos != |c.buf| { return Err(Trailing); }
    return Ok(req);
  }

  method DecodeStore(c: Cursor) returns (r: Result<Request, Error>)
    requires c.Valid()
    modifies c
    ensures r == ParseStore(old(c.Rest()))
  {
    hide TakeBytes, TakeString, TakeU32, AtEnd;
    var nsid := c.ReadU32();
    if nsid.Err? { return Err(nsid.error); }
    var key := c.ReadString();
    if key.Err? { return Err(key.error); }
    var val := c.ReadBytes();
    if val.Err? { return Err(val.error); }
    r := ExpectEnd(c, Store(nsid.value, key.value, val.value));
  }

  method DecodeGet(c: Cursor) returns (r: Result<Request, Error>)
    requires c.Valid()
    modifies c
    ensures r == ParseGet(old(c.Rest()))
  {
    hide TakeBytes, TakeString, TakeU32, AtEnd;
    var nsid := c.ReadU32();
    if nsid.Err? { return Err(nsid.error); }
    var key := c.ReadString();
    if key.Err? { return Err(key.error); }
    r := ExpectEnd(c, Get(nsid.value, key.value));
  }

  method DecodeExec(c: Cursor) returns (r: Result<Request, Error>)
    requires c.Valid()
    modifies c
    ensures r == ParseExec(old(c.Rest()))
  {
    hide TakeBytes, TakeString, TakeU32, AtEnd;
    var nsid := c.ReadU32();
    if nsid.Err? { return Err(nsid.error); }
    var opId := c.ReadU32();
    if opId.Err? { return Err(opId.error); }
    var key := c.ReadString();
    if key.Err? { return Err(key.error); }
    var input := c.ReadBytes();
    if input.Err? { return Err(input.error); }
    r := ExpectEnd(c, Exec(nsid.value, opId.value, key.value, input.value));
  }

  /** The decoder, advancing a cursor over the body. */
  method Decode(body: Bytes) returns (r: Result<Request, Error>)
    ensures r == Parse(body)
  {
    hide ParseStore, ParseGet, ParseExec, AtEnd;
    var c := new Cursor(body);
    var tag := c.Take(1);
    if tag.Err? { return Err(tag.error); }
    match tag.value[0] {
      case 1 => r := DecodeStore(c);
      case 2 => r := DecodeGet(c);
      case 3 => r := DecodeExec(c);
      case 4 => r := ExpectEnd(c, Ping);
      case 5 => r := ExpectEnd(c, Shutdown);
      case _ => r := Err(UnknownTag);
    }
  }

  // ---- frames on a stream ----

  /** One frame off the front of a stream: its body, and what follows. */
  function TakeFrame(s: Bytes): Result<(Bytes, Bytes), Error> {
    if |s| < 4 then Err(UnexpectedEof)
    else
      var len := Le(s[..4]);
      if len == 0 then Err(ZeroLength)
      else if len > MAX_FRAME then Err(TooLarge)
      else if |s| < 4 + len then Err(UnexpectedEof)
      else Ok((s[4..4 + len], s[4 + len..]))
  }

  /**
   * Each way a read of a frame can end: the stream ends in the length or in the body, the length is zero
   * or over the cap, or exactly that many bytes come off.
   */
  lemma TakeFrameExact(s: Bytes)
    ensures var r := TakeFrame(s);
            if |s| < 4 then r == Err(UnexpectedEof)
            else
              var n := Le(s[..4]);
              && (r == Err(ZeroLength) <==> n == 0)
              && (r == Err(TooLarge) <==> n > MAX_FRAME)
              && (r == Err(UnexpectedEof) <==> 0 < n <= MAX_FRAME && |s| < 4 + n)
              && (r.Ok? <==> 0 < n <= MAX_FRAME && |s| >= 4 + n)
              && (r.Ok? ==> |r.value.0| == n && s[4..] == r.value.0 + r.value.1)
  {
    hide Le;
    if |s| >= 4 && |s| >= 4 + Le(s[..4]) { assert s[4..] == s[4..][..Le(s[..4])] + s[4..][Le(s[..4])..]; }
  }

  function ReadRequest(s: Bytes): Result<(Request, Bytes), Error> {
    var f := TakeFrame(s);
    if f.Err? then Err(f.error)
    else
      var r := Parse(f.value.0);
      if r.Err? then Err(r.error) else Ok((r.value, f.value.1))
  }

  function ReadResponse(s: Bytes): Result<(Response, Bytes), Error> {
    var f := TakeFrame(s);
    if f.Err? then Err(f.error)
    else
      var r := ParseResponse(f.value.0);
      if r.Err? then Err(r.error) else Ok((r.value, f.value.1))
  }

  /** A byte stream being read. */
  class Stream {
    const data: Bytes
    var pos: nat

    ghost predicate Valid()
      reads this
    {
      pos <= |data|
    }

    ghost function Rest(): Bytes
      requires Valid()
      reads this
    {
      data[pos..]
    }

    constructor (bytes: Bytes)
      ensures Valid() && Rest() == bytes
    {
      data, pos := bytes, 0;
    }

    method ReadExact(n: nat) returns (r: Result<Bytes, Error>)
      requires Valid()
      modifies this
      ensures Valid()
      ensures |old(Rest())| < n ==> r == Err(UnexpectedEof)
      ensures n <= |old(Rest())| ==> r == Ok(old(Rest())[..n]) && Rest() == old(Rest())[n..]
    {
      ghost var rest := data[pos..];
      if |data| - pos < n {
        pos := |data|;
        return Err(UnexpectedEof);
      }
      r := Ok(data[pos..pos + n]);
      pos := pos + n;
      assert rest[..n] == r.value && rest[n..] == data[pos..];
    }

    method ReadFrame() returns (r: Result<Bytes, Error>)
      requires Valid()
      modifies this
      ensures Valid()
      ensures match TakeFrame(old(Rest())) case Ok(v) => r == Ok(v.0) && Rest() == v.1 case Err(e) => r == Err(e)
    {
      hide Le;
      ghost var s := data[pos..];
      var prefix := ReadExact(4);
      if prefix.Err? { return Err(UnexpectedEof); }
      var len := Le(prefix.value);
      if len == 0 { return Err(ZeroLength); }
      if len > MAX_FRAME { return Err(TooLarge); }
      r := ReadExact(len);
      if |s| >= 4 + len { assert s[4..][..len] == s[4..4 + len] && s[4..][len..] == s[4 + len..]; }
    }

    method ReadFrom() returns (r: Result<Request, Error>)
      requires Valid()
      modifies this
      ensures Valid()
      ensures match ReadRequest(old(Rest())) case Ok(v) => r == Ok(v.0) && Rest() == v.1 case Err(e) => r == Err(e)
    {
      hide Parse, TakeFrame;
      var body := ReadFrame();
      if body.Err? { return Err(body.error); }
      r := Decode(body.value);
    }

    method ReadResponseFrom() returns (r: Result<Response, Error>)
      requires Valid()
      modifies this
      ensures Valid()
      ensures match ReadResponse(old(Rest())) case Ok(v) => r == Ok(v.0) && Rest() == v.1 case Err(e) => r == Err(e)
    {
      hide ParseResponse, TakeFrame;
      var body := ReadFrame();
      if body.Err? { return Err(body.error); }
      r := ParseResponse(body.value);
    }
  }

  /** A frame comes off whole, and exactly its bytes are consumed, if and only if its body is within the cap. */
  lemma FrameBackExact(b: Bytes, rest: Bytes)
    requires b != []
    ensures TakeFrame(Frame(b) + rest) == Ok((b, rest)) <==> |b| <= MAX_FRAME
    ensures |b| > MAX_FRAME && TakeFrame(Frame(b) + rest).Ok? ==> TakeFrame(Frame(b) + rest).value.1 != rest
  {
    hide U32, Le;
    var s := Frame(b) + rest;
    U32RoundTrip(|b| % TWO32);
    assert s[..4] == U32(|b| % TWO32);
    if |b| <= MAX_FRAME { assert s[4..4 + |b|] == b && s[4 + |b|..] == rest; }
  }

  /** A request comes back whole, and exactly its bytes are consumed, if and only if its body is within the cap. */
  lemma ReadBackExact(r: Request, rest: Bytes)
    requires Typed(r)
    ensures ReadRequest(Frame(Body(r)) + rest) == Ok((r, rest)) <==> |Body(r)| <= MAX_FRAME
  {
    hide Parse, Utf8, TakeFrame, Body, Frame;
    FrameBackExact(Body(r), rest);
    if |Body(r)| <= MAX_FRAME { ParseBody(r); }
  }

  /** And so does a response. */
  lemma ResponseBackExact(r: Response, rest: Bytes)
    requires TypedResponse(r)
    ensures ReadResponse(Frame(ResponseBody(r)) + rest) == Ok((r, rest)) <==> |ResponseBody(r)| <= MAX_FRAME
  {
    hide ParseResponse, Utf8, TakeFrame, Frame;
    FrameBackExact(ResponseBody(r), rest);
    if |ResponseBody(r)| <= MAX_FRAME { ResponseExact(ResponseBody(r), r); }
  }

  ghost predicate AllWithin(rs: seq<Request>) {
    forall i | 0 <= i < |rs| :: Typed(rs[i]) && |Body(rs[i])| <= MAX_FRAME
  }

  ghost function Written(rs: seq<Request>): Bytes
    requires AllWithin(rs)
  {
    if rs == [] then [] else Frame(Body(rs[0])) + Written(rs[1..])
  }

  ghost function ReadMany(s: Bytes, n: nat): Result<(seq<Request>, Bytes), Error> {
    if n == 0 then Ok(([], s))
    else
      var first := ReadRequest(s);
      if first.Err? then Err(first.error)
      else
        var more := ReadMany(first.value.1, n - 1);
        if more.Err? then Err(more.error) else Ok(([first.value.0] + more.value.0, more.value.1))
  }

  /** Any requests written one after another are read back in order, to the byte. */
  lemma {:induction false} StreamReadsBack(rs: seq<Request>, rest: Bytes)
    requires AllWithin(rs)
    ensures ReadMany(Written(rs) + rest, |rs|) == Ok((rs, rest))
    decreases |rs|
  {
    hide ReadRequest, Frame, Body, Typed;
    if rs == [] {
      assert [] + rest == rest;
    } else {
      StreamReadsBack(rs[1..], rest);
      var tail := Written(rs[1..]) + rest;
      assert Written(rs) + rest == Frame(Body(rs[0])) + tail;
      ReadBackExact(rs[0], tail);
      assert [rs[0]] + rs[1..] == rs;
    }
  }

  // ---- responses ----

  predicate TypedResponse(r: Response) {
    r.Okay? || Utf8(r.msg)
  }

  function ResponseBody(r: Response): Bytes {
    match r
    case Okay(payload) => [1] + payload
    case Failure(msg) => [2] + msg
  }

  /** The documented layout of a response: its length, a tag for success or failure, and the rest as it is. */
  lemma ResponseLayout(r: Response)
    requires |ResponseBody(r)| < TWO32
    ensures var f := Frame(ResponseBody(r));
            && |f| >= 5 && Le(f[..4]) == |f| - 4
            && match r
               case Okay(payload) => f[4] == 1 && f[5..] == payload
               case Failure(msg) => f[4] == 2 && f[5..] == msg
  {
    hide U32, Le;
    var b := ResponseBody(r);
    U32RoundTrip(|b|);
    assert Frame(b)[..4] == U32(|b|) && Frame(b)[4..] == b;
  }

  function ParseResponse(body: Bytes): Result<Response, Error> {
    if body == [] then Err(Empty)
    else match body[0]
      case 1 => Ok(Okay(body[1..]))
      case 2 => if Utf8(body[1..]) then Ok(Failure(body[1..])) else Err(NotUtf8)
      case _ => Err(UnknownTag)
  }

  /** Responses and the bodies that decode are one to one. */
  lemma ResponseExact(body: Bytes, r: Response)
    ensures ParseResponse(body) == Ok(r) <==> TypedResponse(r) && body == ResponseBody(r)
  {
    if body != [] { assert body == [body[0]] + body[1..]; }
    assert ResponseBody(r)[1..] == if r.Okay? then r.payload else r.msg;
  }

  ghost predicate AllResponsesWithin(rs: seq<Response>) {
    forall i | 0 <= i < |rs| :: TypedResponse(rs[i]) && |ResponseBody(rs[i])| <= MAX_FRAME
  }

  ghost function WrittenResponses(rs: seq<Response>): Bytes {
    if rs == [] then [] else Frame(ResponseBody(rs[0])) + WrittenResponses(rs[1..])
  }

  ghost function ReadResponses(s: Bytes, n: nat): Result<(seq<Response>, Bytes), Error> {
    if n == 0 then Ok(([], s))
    else
      var first := ReadResponse(s);
      if first.Err? then Err(first.error)
      else
        var more := ReadResponses(first.value.1, n - 1);
        if more.Err? then Err(more.error) else Ok(([first.value.0] + more.value.0, more.value.1))
  }

  /** Any responses written one after another are read back in order, to the byte. */
  lemma {:induction false} ResponsesReadBack(rs: seq<Response>, rest: Bytes)
    requires AllResponsesWithin(rs)
    ensures ReadResponses(WrittenResponses(rs) + rest, |rs|) == Ok((rs, rest))
    decreases |rs|
  {
    hide ReadResponse, Frame, ResponseBody, TypedResponse;
    if rs == [] {
      assert [] + rest == rest;
    } else {
      ResponsesReadBack(rs[1..], rest);
      var tail := WrittenResponses(rs[1..]) + rest;
      assert WrittenResponses(rs) + rest == Frame(ResponseBody(rs[0])) + tail;
      ResponseBackExact(rs[0], tail);
      assert [rs[0]] + rs[1..] == rs;
    }
  }
}
