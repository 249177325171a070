/** Listing a namespace page by page, resuming each page at the successor of the last key seen. */
module RkvPages {
  import opened Common
  import opened ExecutorOid
  import opened ExecutorTable

  const KEY_MAX: nat := 16

  // ---- hex ----

  /** A digit of `from_str_radix`: either case. */
  function HexDigit(c: char): Option<nat> {
    if '0' <= c <= '9' then Some((c - '0') as nat)
    else if 'a' <= c <= 'f' then Some((c - 'a') as nat + 10)
    else if 'A' <= c <= 'F' then Some((c - 'A') as nat + 10)
    else None
  }

  /** Two characters as a byte; a leading plus sign is taken too. */
  function HexPair(hi: char, lo: char): Option<byte> {
    var h, l := HexDigit(hi), HexDigit(lo);
    if l.None? then None
    else if hi == '+' then Some(l.value as byte)
    else if h.None? then None
    else assert h.value < 16 && l.value < 16; Some((h.value * 16 + l.value) as byte)
  }

  function DecodeHex(s: string): Option<Bytes> {
    if |s| % 2 != 0 then None
    else if s == "" then Some([])
    else
      var b, rest := HexPair(s[0], s[1]), DecodeHex(s[2..]);
      if b.Some? && rest.Some? then Some([b.value] + rest.value) else None
  }

  lemma {:induction false} DecodeEncoded(b: Bytes)
    ensures DecodeHex(Oid(b)) == Some(b)
  {
    OidLength(b);
    if b != [] {
      DecodeEncoded(b[1..]);
      PairDecodes(b[0]);
      assert Oid(b)[2..] == Oid(b[1..]) && [b[0]] + b[1..] == b;
    }
  }

  function Upper(c: char): char {
    if 'a' <= c <= 'f' then c - 'a' + 'A' else c
  }

  function Uppers(s: string): string {
    seq(|s|, i requires 0 <= i < |s| => Upper(s[i]))
  }

  /** Uppercase hex decodes to the same key. */
  lemma {:induction false} DecodeIgnoresCase(s: string)
    ensures DecodeHex(Uppers(s)) == DecodeHex(s)
    decreases |s|
  {
    if |s| % 2 == 0 && s != "" {
      DecodeIgnoresCase(s[2..]);
      assert Uppers(s)[2..] == Uppers(s[2..]);
      DigitIgnoresCase(s[0]);
      DigitIgnoresCase(s[1]);
    }
  }

  lemma DigitIgnoresCase(c: char)
    ensures HexDigit(Upper(c)) == HexDigit(c) && (Upper(c) == '+' <==> c == '+')
  {
  }

  lemma PairDecodes(b: byte)
    ensures HexPair(Pair(b)[0], Pair(b)[1]) == Some(b)
  {
  }

  /** The encoder appends two digits per byte. */
  method EncodeHex(bytes: Bytes) returns (s: string)
    ensures s == Oid(bytes)
  {
    s := "";
    for i := 0 to |bytes|
      invariant s + Oid(bytes[i..]) == Oid(bytes)
    {
      assert bytes[i..][1..] == bytes[i + 1..];
      s := s + Pair(bytes[i]);
    }
  }

  // ---- the successor ----

  /** Raise the last byte that can be raised and drop what follows it. */
  function Bump(b: Bytes): Option<Bytes> {
    if b == [] then None
    else
      var tail := Bump(b[1..]);
      if tail.Some? then Some([b[0]] + tail.value)
      else if b[0] < 0xff then Some([b[0] + 1])
      else None
  }

  function Next(b: Bytes): Bytes {
    if |b| < KEY_MAX then b + [0] else if Bump(b).Some? then Bump(b).value else b
  }

  lemma {:induction false} BumpNone(b: Bytes)
    requires forall k | 0 <= k < |b| :: b[k] == 0xff
    ensures Bump(b) == None
  {
    if b != [] { BumpNone(b[1..]); }
  }

  lemma {:induction false} BumpAt(b: Bytes, i: nat)
    requires i < |b| && b[i] < 0xff && forall k | i < k < |b| :: b[k] == 0xff
    ensures Bump(b) == Some(b[..i] + [b[i] + 1])
  {
    if i == 0 {
      BumpNone(b[1..]);
      assert b[..0] + [b[0] + 1] == [b[0] + 1];
    } else {
      BumpAt(b[1..], i - 1);
      assert [b[0]] + (b[1..][..i - 1] + [b[i] + 1]) == b[..i] + [b[i] + 1];
    }
  }

  /** `next_hex_key`: append a zero byte, or at full length increment with carry. */
  method NextHexKey(hex: string) returns (r: Option<string>)
    ensures r == (var b := DecodeHex(hex); if b.None? then None else Some(Oid(Next(b.value))))
  {
    hide Oid, DecodeHex, Bump;
    var decoded := DecodeHex(hex);
    if decoded.None? { return None; }
    var bytes := decoded.value;
    ghost var b := bytes;
    if |bytes| < KEY_MAX {
      bytes := bytes + [0];
    } else {
      var i := |bytes|;
      while i > 0
        invariant 0 <= i <= |b| && bytes == b
        invariant forall k | i <= k < |b| :: b[k] == 0xff
      {
        i := i - 1;
        if bytes[i] != 0xff {
          BumpAt(b, i);
          bytes := bytes[i := bytes[i] + 1][..i + 1];
          assert bytes == b[..i] + [b[i] + 1];
          break;
        }
      }
      if bytes == b && (forall k | 0 <= k < |b| :: b[k] == 0xff) { BumpNone(b); }
    }
    var s := EncodeHex(bytes);
    return Some(s);
  }

  /** Among keys no longer than `b`, the bumped key is the least one above it, and without one there is none. */
  lemma {:induction false} BumpIsLeast(b: Bytes, k: Bytes)
    ensures Bump(b).Some? ==> Before(b, Bump(b).value) && |Bump(b).value| <= |b|
    ensures |k| <= |b| && Before(b, k) ==> Bump(b).Some? && !Before(k, Bump(b).value)
    decreases |b|
  {
    if b != [] {
      BumpIsLeast(b[1..], if k == [] then [] else k[1..]);
      var tail := Bump(b[1..]);
      if tail.Some? {
        assert ([b[0]] + tail.value)[1..] == tail.value;
      } else if b[0] < 0xff {
        assert [b[0] + 1][1..] == [];
      }
    }
  }

  /** A key with a zero byte behind it is the least key above it. */
  lemma {:induction false} ZeroIsLeast(b: Bytes, k: Bytes)
    ensures Before(b, b + [0])
    ensures Before(b, k) ==> !Before(k, b + [0])
    decreases |b|
  {
    if b == [] {
      assert (b + [0])[1..] == [];
    } else {
      assert (b + [0])[1..] == b[1..] + [0];
      ZeroIsLeast(b[1..], if k == [] then [] else k[1..]);
    }
  }

  ghost predicate Above(b: Bytes, k: Bytes) {
    |k| <= KEY_MAX && Before(b, k)
  }

  /** `Next` is the least key of at most 16 bytes strictly above its argument, whenever there is one. */
  lemma NextIsLeast(b: Bytes, k: Bytes)
    requires |b| <= KEY_MAX && Above(b, k)
    ensures Above(b, Next(b)) && !Before(k, Next(b))
  {
    hide Before, Bump;
    if |b| < KEY_MAX { ZeroIsLeast(b, k); } else { BumpIsLeast(b, k); }
  }

  lemma {:induction false} BumpSome(b: Bytes, i: nat)
    requires i < |b| && b[i] < 0xff
    ensures Bump(b).Some?
  {
    if i > 0 { BumpSome(b[1..], i - 1); }
  }

  /** The last key of all: sixteen 0xff bytes. */
  predicate IsLast(b: Bytes) {
    |b| == KEY_MAX && forall k | 0 <= k < |b| :: b[k] == 0xff
  }

  /** There is one exactly when the key is not sixteen 0xff bytes; only that key is its own resume position. */
  lemma NextExistsExact(b: Bytes)
    requires |b| <= KEY_MAX
    ensures (exists k :: Above(b, k)) <==> !IsLast(b)
    ensures Next(b) == b <==> IsLast(b)
  {
    hide Before, Bump;
    if |b| < KEY_MAX {
      ZeroIsLeast(b, []);
      assert Above(b, b + [0]);
    } else if IsLast(b) {
      BumpNone(b);
      forall k ensures !Above(b, k) { BumpIsLeast(b, k); }
    } else {
      var i :| 0 <= i < |b| && b[i] != 0xff;
      BumpSome(b, i);
      BumpIsLeast(b, []);
      BeforeItself(b);
      assert Above(b, Bump(b).value);
    }
  }

  // ---- display ----

  predicate Printable(b: Bytes) {
    b != [] && forall i | 0 <= i < |b| :: 0x20 <= b[i] < 0x7f
  }

  function Text(b: Bytes): string {
    seq(|b|, i requires 0 <= i < |b| => (b[i] as int) as char)
  }

  /** The line printed for a key that arrived spelled as `hex`. */
  function FormatKey(hex: string): Option<string> {
    var b := DecodeHex(hex);
    if b.None? then None else if Printable(b.value) then Some(Text(b.value)) else Some("0x" + hex)
  }

  function Shown(b: Bytes): string {
    if Printable(b) then Text(b) else "0x" + Oid(b)
  }

  /** A printable key that spells the hex literal of a binary key is shown like it. */
  lemma LiteralIsAmbiguous()
    ensures var a: Bytes, b: Bytes := [0x30, 0x78, 0x30, 0x30], [0]; a != b && Shown(a) == Shown(b) == "0x00"
  {
    var a: Bytes, b: Bytes := [0x30, 0x78, 0x30, 0x30], [0];
    assert Text(a) == "0x00";
    assert b[1..] == [] && Oid(b) == Pair(0) + "" && Pair(0) + "" == "00";
    assert "0x" + "00" == "0x00";
  }

  predicate IsKey(b: Bytes) {
    1 <= |b| <= KEY_MAX
  }

  /** Another key is shown like `a`. */
  ghost predicate Ambiguous(a: Bytes) {
    exists b :: IsKey(b) && b != a && Shown(b) == Shown(a)
  }

  /** The text of `a` is `0x` and the lowercase hex of a key that is not printable. */
  predicate SpellsLiteral(a: Bytes) {
    && |a| >= 2 && Text(a)[..2] == "0x"
    && var k := KeyOf(Text(a)[2..]); k.Some? && !Printable(k.value)
  }

  lemma TextInjective(a: Bytes, b: Bytes)
    requires Text(a) == Text(b)
    ensures a == b
  {
    assert |Text(a)| == |Text(b)|;
    forall i | 0 <= i < |a| ensures a[i] == b[i] { assert Text(a)[i] == Text(b)[i]; }
  }

  lemma LiteralInjective(a: Bytes, b: Bytes)
    requires "0x" + Oid(a) == "0x" + Oid(b)
    ensures a == b
  {
    hide Oid;
    assert ("0x" + Oid(a))[2..] == Oid(a) && ("0x" + Oid(b))[2..] == Oid(b);
    DecodeEncoded(a);
    DecodeEncoded(b);
  }

  /** The printable key that reads as the literal of `a`. */
  lemma LiteralKey(a: Bytes) returns (b: Bytes)
    requires a != []
    ensures |b| == 2 + 2 * |a| && Printable(b) && Text(b) == "0x" + Oid(a)
  {
    var text := "0x" + Oid(a);
    OidLength(a);
    forall i | 0 <= i < |text| ensures ' ' <= text[i] < 127 as char {
      if i >= 2 {
        OidAt(a, (i - 2) / 2);
        assert text[i] == Oid(a)[i - 2];
        assert i - 2 == 2 * ((i - 2) / 2) || i - 2 == 2 * ((i - 2) / 2) + 1;
      }
    }
    b := seq(|text|, i requires 0 <= i < |text| => text[i] as int as byte);
    assert Text(b) == text;
  }

  lemma PrintableAmbiguous(a: Bytes)
    requires IsKey(a) && Printable(a)
    ensures Ambiguous(a) <==> SpellsLiteral(a)
  {
    hide Oid, KeyOf, Printable;
    if SpellsLiteral(a) {
      var hex := Text(a)[2..];
      var b := KeyOf(hex).value;
      KeyOfSpelling(hex);
      assert Text(a) == "0x" + hex;
      assert IsKey(b) && b != a && Shown(b) == Shown(a);
    }
    if Ambiguous(a) {
      var b :| IsKey(b) && b != a && Shown(b) == Shown(a);
      if Printable(b) { TextInjective(a, b); } else {
        OidRoundTrip(b, Oid(b));
        assert Text(a)[2..] == Oid(b);
      }
    }
  }

  lemma KeyOfSpelling(hex: string)
    requires KeyOf(hex).Some?
    ensures Oid(KeyOf(hex).value) == hex && 2 * |KeyOf(hex).value| == |hex| > 0
  {
    OidOfBytes(hex);
  }

  lemma BinaryAmbiguous(a: Bytes)
    requires IsKey(a) && !Printable(a)
    ensures Ambiguous(a) <==> |a| <= 7
  {
    hide Oid, Printable;
    var literal := LiteralKey(a);
    if |a| <= 7 {
      assert IsKey(literal) && literal != a && Shown(literal) == Shown(a);
    }
    if Ambiguous(a) {
      var b :| IsKey(b) && b != a && Shown(b) == Shown(a);
      if Printable(b) { TextInjective(b, literal); } else { LiteralInjective(a, b); }
    }
  }

  /**
   * Which keys are shown like another: the printable ones that spell the hex literal of a key that is
   * not printable, and the others of at most seven bytes, whose literal is itself short enough for a key.
   */
  lemma AmbiguousExact(a: Bytes)
    requires IsKey(a)
    ensures Ambiguous(a) <==> if Printable(a) then SpellsLiteral(a) else |a| <= 7
  {
    hide Ambiguous, SpellsLiteral, Printable;
    if Printable(a) { PrintableAmbiguous(a); } else { BinaryAmbiguous(a); }
  }

  // ---- paging ----

  ghost predicate KeySet(keys: seq<Bytes>) {
    Ascending(keys) && forall i | 0 <= i < |keys| :: IsKey(keys[i])
  }

  /** The keys at or after a start key, of keys in ascending order. */
  function AtOrAfter(keys: seq<Bytes>, start: Bytes): seq<Bytes> {
    if keys == [] then [] else if Before(keys[0], start) then AtOrAfter(keys[1..], start) else keys
  }

  lemma {:induction false} AtOrAfterSkips(keys: seq<Bytes>, start: Bytes, p: nat)
    requires p <= |keys| && (forall i | 0 <= i < p :: Before(keys[i], start))
        && (p < |keys| ==> !Before(keys[p], start))
    ensures AtOrAfter(keys, start) == keys[p..]
    decreases p
  {
    hide Before;
    if p > 0 {
      AtOrAfterSkips(keys[1..], start, p - 1);
      assert keys[1..][p - 1..] == keys[p..];
    } else {
      assert keys[0..] == keys;
    }
  }

  /** Resuming at the successor of the last key seen serves exactly the keys not yet seen. */
  lemma ResumesExactly(keys: seq<Bytes>, p: nat)
    requires KeySet(keys) && 0 < p < |keys|
    ensures AtOrAfter(keys, Next(keys[p - 1])) == keys[p..]
  {
    hide Before, Next;
    var last := keys[p - 1];
    assert Before(last, keys[p]);
    NextIsLeast(last, keys[p]);
    forall i | 0 <= i < p ensures Before(keys[i], Next(last)) {
      if i < p - 1 { OrderTransitive(keys[i], last, Next(last)); }
    }
    AtOrAfterSkips(keys, Next(last), p);
  }

  /** A sorted backend: as many keys as it likes from the start on, spelled in hex, and an exact `more`. */
  function Page(keys: seq<Bytes>, start: Option<string>, limit: nat, spell: Bytes -> string)
    : Option<(seq<string>, bool)>
  {
    var from := if start.None? then Some([]) else DecodeHex(start.value);
    if from.None? then None
    else
      var rest := AtOrAfter(keys, from.value);
      var n := if limit < |rest| then limit else |rest|;
      Some((seq(n, i requires 0 <= i < n => spell(rest[i])), n < |rest|))
  }

  ghost predicate Spells(spell: Bytes -> string) {
    forall k :: DecodeHex(spell(k)) == Some(k)
  }

  /** The line for key `i`, as spelled by the backend. */
  function Line(b: Bytes, spell: Bytes -> string): string {
    if Printable(b) then Text(b) else "0x" + spell(b)
  }

  ghost function Lines(keys: seq<Bytes>, spell: Bytes -> string): seq<string> {
    seq(|keys|, i requires 0 <= i < |keys| => Line(keys[i], spell))
  }

  /** Print one page after what is printed already. */
  method PrintPage(page: seq<string>, printed: seq<string>, ghost keys: seq<Bytes>, ghost spell: Bytes -> string)
    returns (lines: seq<string>)
    requires Spells(spell) && |page| == |keys| && forall i | 0 <= i < |keys| :: page[i] == spell(keys[i])
    ensures lines == printed + Lines(keys, spell)
  {
    hide DecodeHex, Printable, Text;
    lines := printed;
    for i := 0 to |page|
      invariant lines == printed + Lines(keys, spell)[..i]
    {
      var line := FormatKey(page[i]);
      assert line == Some(Line(keys[i], spell));
      lines := lines + [line.value];
      assert Lines(keys, spell)[..i + 1] == Lines(keys, spell)[..i] + [Lines(keys, spell)[i]];
    }
  }

  /** Where the next page starts: nowhere yet, or at a key from which exactly the keys from `p` on are served. */
  ghost predicate StartsAt(keys: seq<Bytes>, start: Option<string>, p: nat) {
    && p <= |keys|
    && (start.Some? ==> DecodeHex(start.value).Some?)
    && AtOrAfter(keys, if start.None? then [] else DecodeHex(start.value).value) == keys[p..]
  }

  lemma PageServes(keys: seq<Bytes>, start: Option<string>, p: nat, limit: nat, spell: Bytes -> string)
    requires StartsAt(keys, start, p)
    ensures var r := Page(keys, start, limit, spell);
            && r.Some? && p + |r.value.0| <= |keys| && |r.value.0| == Min(limit, |keys| - p)
            && (r.value.0 == [] ==> limit == 0 || p == |keys|)
            && (r.value.1 <==> p + |r.value.0| < |keys|)
            && forall i | 0 <= i < |r.value.0| :: r.value.0[i] == spell(keys[p..p + |r.value.0|][i])
  {
    hide DecodeHex, AtOrAfter;
  }

  lemma StartsAtResume(keys: seq<Bytes>, p: nat)
    requires KeySet(keys) && 0 < p < |keys|
    ensures StartsAt(keys, Some(Oid(Next(keys[p - 1]))), p)
  {
    hide DecodeHex, Next, Oid, Ascending, AtOrAfter;
    DecodeEncoded(Next(keys[p - 1]));
    ResumesExactly(keys, p);
  }

  lemma StartsAtFirst(keys: seq<Bytes>)
    ensures StartsAt(keys, None, 0)
  {
    assert keys[0..] == keys;
  }

  datatype Outcome = Done | EmptyPage

  /** How many keys the first `calls` pages hold. */
  function Served(limit: nat -> nat, n: nat, calls: nat): nat {
    if calls == 0 then 0 else Min(n, Served(limit, n, calls - 1) + limit(calls - 1))
  }

  /** Call number `call` is the first the backend answers with nothing, and there is more. */
  ghost predicate Starves(limit: nat -> nat, n: nat, call: nat) {
    limit(call) == 0 && Served(limit, n, call) < n && forall c: nat | c < call :: limit(c) > 0
  }

  /**
   * `list_keys`: print page after page. Whatever page sizes the backend chooses, every key is printed
   * once and in order, unless it says there is more and returns nothing; then the keys up to there are.
   */
  method ListKeys(keys: seq<Bytes>, limit: nat -> nat, spell: Bytes -> string)
    returns (lines: seq<string>, outcome: Outcome)
    requires KeySet(keys) && Spells(spell)
    ensures outcome.Done? ==> lines == Lines(keys, spell)
    ensures outcome.EmptyPage? <==> exists call: nat :: Starves(limit, |keys|, call)
    ensures forall call: nat | Starves(limit, |keys|, call) ::
              Served(limit, |keys|, call) <= |keys| && lines == Lines(keys[..Served(limit, |keys|, call)], spell)
  {
    hide DecodeHex, Next, Oid, Ascending, Lines, StartsAt, Page, Served, Starves, AtOrAfter, KeySet;
    lines := [];
    var start: Option<string> := None;
    var p, call := 0, 0;
    StartsAtFirst(keys);
    LinesOfNone(keys, spell);
    ServedNone(limit, |keys|);
    while true
      invariant 0 <= p <= |keys| && lines == Lines(keys[..p], spell) && StartsAt(keys, start, p)
      invariant 0 <= call && p == Served(limit, |keys|, call) && forall c: nat | c < call :: limit(c) > 0
      invariant call > 0 ==> p < |keys|
      decreases |keys| - p
    {
      PageServes(keys, start, p, limit(call), spell);
      var reply := Page(keys, start, limit(call), spell).value;
      var page, more := reply.0, reply.1;
      ghost var served := keys[p..p + |page|];
      lines := PrintPage(page, lines, served, spell);
      assert keys[..p + |page|] == keys[..p] + served;
      LinesConcat(keys[..p], served, spell);
      p := p + |page|;
      ServedNext(limit, |keys|, call);
      if !more {
        assert keys[..p] == keys;
        NoneStarves(limit, |keys|, call);
        return lines, Done;
      }
      if |page| == 0 {
        StarvesHere(limit, |keys|, call);
        return lines, EmptyPage;
      }
      assert page[|page| - 1] == spell(keys[p - 1]);
      start := NextHexKey(page[|page| - 1]);
      StartsAtResume(keys, p);
      call := call + 1;
    }
  }

  lemma ServedNone(limit: nat -> nat, n: nat)
    ensures Served(limit, n, 0) == 0
  {
  }

  lemma ServedNext(limit: nat -> nat, n: nat, call: nat)
    ensures Served(limit, n, call + 1) == Min(n, Served(limit, n, call) + limit(call))
  {
  }

  lemma StarvesHere(limit: nat -> nat, n: nat, call: nat)
    requires limit(call) == 0 && Served(limit, n, call) < n && forall c: nat | c < call :: limit(c) > 0
    ensures Starves(limit, n, call) && forall c: nat | Starves(limit, n, c) :: c == call
  {
  }

  lemma {:induction false} ServedGrows(limit: nat -> nat, n: nat, a: nat, b: nat)
    requires a <= b
    ensures Served(limit, n, a) <= Served(limit, n, b) <= n
    decreases b
  {
    if b > 0 { if a < b { ServedGrows(limit, n, a, b - 1); } else { ServedGrows(limit, n, 0, b - 1); } }
  }

  /** Once everything is served, or with nothing to serve, no call starves. */
  lemma NoneStarves(limit: nat -> nat, n: nat, call: nat)
    requires Served(limit, n, call + 1) == n && forall c: nat | c < call :: limit(c) > 0
    ensures forall c: nat :: !Starves(limit, n, c)
  {
    forall c: nat ensures !Starves(limit, n, c) {
      if c > call { ServedGrows(limit, n, call + 1, c); }
    }
  }

  lemma LinesOfNone(keys: seq<Bytes>, spell: Bytes -> string)
    ensures Lines(keys[..0], spell) == []
  {
  }

  lemma LinesConcat(a: seq<Bytes>, b: seq<Bytes>, spell: Bytes -> string)
    ensures Lines(a + b, spell) == Lines(a, spell) + Lines(b, spell)
  {
    hide Line;
  }
}
