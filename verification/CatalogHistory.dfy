/**
 * The catalog as a whole: after any history of publishes and collections, what a load returns
 * is exactly what an abstract map from revisions to published bytes says.
 */
module CatalogHistory {
  import opened Common
  import opened CatalogManifest
  import opened CatalogRoundTrip
  import opened CatalogStore
  import opened CatalogPublisher
  import opened CatalogPublish
  import opened CatalogLoader
  import opened CatalogGc

  /** The tensors published under one revision. */
  type Content = map<Part, Tensor>

  /** Canonical revision to content; none where the stored manifest cannot be parsed. */
  type Catalog = map<Bytes, Option<Content>>

  function RevKey(c: Codec, canonical: Bytes): Key {
    [MANIFEST_TAG] + c.hash(canonical)
  }

  /** The manifest lists exactly the parts of `content`, each with its dtype, its shape and its bytes. */
  ghost predicate Holds(c: Codec, s: Store, m: Manifest, content: Content) {
    && (forall n, p :: VariantAt(m, n, p).Some? <==> Part(n, p) in content)
    && (forall n, p | VariantAt(m, n, p).Some? ::
          Part(n, p) in content && Keeps(c, s, m, n, VariantAt(m, n, p).value, content[Part(n, p)]))
  }

  ghost predicate Keeps(c: Codec, s: Store, m: Manifest, n: string, v: Variant, t: Tensor) {
    v.dtype == t.dtype && ShapeOf(m, n) == t.shape && Reads(c, s, v, t.data)
  }

  ghost predicate RevisionHolds(c: Codec, s: Store, x: Bytes, content: Content) {
    && RevKey(c, x) in s
    && Parse(c, s[RevKey(c, x)]).Ok?
    && var m := Parse(c, s[RevKey(c, x)]).value;
       WellFormed(m) && NoComma(m.precisions) && Holds(c, s, m, content)
  }

  ghost predicate RevisionOk(c: Codec, s: Store, x: Bytes, entry: Option<Content>) {
    && RevKey(c, x) in s
    && match entry
       case Some(content) => RevisionHolds(c, s, x, content)
       case None => Parse(c, s[RevKey(c, x)]).Err?
  }

  /** The store represents the abstract catalog. */
  ghost predicate Represents(c: Codec, s: Store, a: Catalog) {
    && ChunksIntact(c, s)
    && (forall k | k in s && !IsChunkKey(k) :: exists x :: x in a && k == RevKey(c, x))
    && (forall x | x in a :: RevisionOk(c, s, x, a[x]))
  }

  // ---- loads are exact ----

  /** Exactly the tensors published at `p`, with their bytes. */
  ghost predicate Exactly(content: Content, p: string, got: map<string, Bytes>) {
    forall n :: (n in got <==> Part(n, p) in content) && (n in got ==> got[n] == content[Part(n, p)].data)
  }

  /** Exactly the tensors published at `p`, each as it was given. */
  ghost predicate ExactlyGiven(content: Content, p: string, got: map<string, Tensor>) {
    forall n :: (n in got <==> Part(n, p) in content) && (n in got ==> got[n] == content[Part(n, p)])
  }

  /** What a load must answer to a catalog entry: the bytes alone, and the tensors with dtype and shape. */
  ghost predicate Answers(a: Catalog, x: Bytes, p: string, bytes: Result<map<string, Bytes>, LoadError>,
                          arrays: Result<map<string, Tensor>, LoadError>) {
    if x !in a then bytes == Err(ManifestNotFound) && arrays == Err(ManifestNotFound)
    else match a[x]
      case None => bytes == Err(Unparseable) && arrays == Err(Unparseable)
      case Some(content) =>
        if forall n :: Part(n, p) !in content
        then bytes == Err(PrecisionNotFound) && arrays == Err(PrecisionNotFound)
        else bytes.Ok? && Exactly(content, p, bytes.value) && arrays.Ok? && ExactlyGiven(content, p, arrays.value)
  }

  lemma AbsentRevision(c: Codec, s: Store, a: Catalog, x: Bytes)
    requires Represents(c, s, a) && CollisionFree(c) && x !in a
    ensures RevKey(c, x) !in s
  {
    hide RevisionOk;
    var k := RevKey(c, x);
    if k in s {
      assert k[0] == MANIFEST_TAG;
      var y :| y in a && k == RevKey(c, y);
      RevKeyInjective(c, x, y);
      assert false;
    }
  }

  lemma RevKeyInjective(c: Codec, x: Bytes, y: Bytes)
    requires CollisionFree(c)
    ensures RevKey(c, x) == RevKey(c, y) <==> x == y
  {
    assert RevKey(c, x)[1..] == c.hash(x) && RevKey(c, y)[1..] == c.hash(y);
  }

  lemma HeldPrecision(m: Manifest, c: Codec, s: Store, content: Content, p: string)
    requires WellFormed(m) && Holds(c, s, m, content)
    ensures p in m.precisions <==> exists n :: Part(n, p) in content
  {
    hide Reads;
    if p in m.precisions {
      var k := CarrierOf(m, p);
      assert Part(m.names[k], p) in content;
    }
    if exists n :: Part(n, p) in content {
      var n :| Part(n, p) in content;
      assert VariantAt(m, n, p).Some?;
      VariantRecorded(m, n, p);
    }
  }

  lemma HeldTensors(m: Manifest, c: Codec, s: Store, content: Content, p: string)
    requires WellFormed(m) && Holds(c, s, m, content)
    ensures var r := Tensors(c, s, m, p, |m.names|);
            r.Ok? && Exactly(content, p, r.value) && ExactlyGiven(content, p, Described(m, p, r.value))
  {
    hide Reads, WellFormed, Tensors;
    var want := map n | n in m.rows && Part(n, p) in content :: content[Part(n, p)].data;
    forall n | n in m.names && VariantAt(m, n, p).Some?
      ensures n in want && Reads(c, s, VariantAt(m, n, p).value, want[n]) {
      assert Part(n, p) in content;
    }
    TensorsRead(c, s, m, p, |m.names|, want);
    assert m.names[..|m.names|] == m.names;
    var got := Tensors(c, s, m, p, |m.names|).value;
    forall n ensures (n in got <==> Part(n, p) in content) && (n in got ==> got[n] == content[Part(n, p)].data) {
      if VariantAt(m, n, p).Some? { NameListed(m, n); }
    }
  }

  /** A load returns exactly the content, or says precisely what is missing. */
  lemma LoadIsExact(c: Codec, s: Store, a: Catalog, revision: string, p: string)
    requires Represents(c, s, a) && CollisionFree(c)
    ensures Answers(a, c.canonical(revision), p, Load(c, s, revision, p), LoadArrays(c, s, revision, p))
  {
    hide WellFormed, Holds, Tensors, ChunksIntact, Parse, NoComma;
    var x := c.canonical(revision);
    if x !in a {
      AbsentRevision(c, s, a, x);
    } else {
      assert RevisionOk(c, s, x, a[x]);
      if a[x].Some? {
        var m := Parse(c, s[RevKey(c, x)]).value;
        HeldPrecision(m, c, s, a[x].value, p);
        HeldTensors(m, c, s, a[x].value, p);
      }
    }
  }

  // ---- changes that keep what a manifest uses ----

  lemma ReadsChunkKeys(c: Codec, s: Store, v: Variant, data: Bytes)
    requires Reads(c, s, v, data)
    ensures forall k | k in v.keys :: IsChunkKey(k) && k in s
  {
    forall k | k in v.keys ensures IsChunkKey(k) && k in s {
      var i: nat :| i < |v.keys| && v.keys[i] == k;
      assert SliceOk(c, s, v, i);
    }
  }

  lemma HoldsStays(c: Codec, s: Store, s': Store, m: Manifest, content: Content)
    requires Holds(c, s, m, content)
    requires forall k | k in s && IsChunkKey(k) && RefersTo(m, k) :: k in s' && s'[k] == s[k]
    ensures Holds(c, s', m, content)
  {
    hide Reads;
    forall n, p | VariantAt(m, n, p).Some?
      ensures Part(n, p) in content && Keeps(c, s', m, n, VariantAt(m, n, p).value, content[Part(n, p)]) {
      var v := VariantAt(m, n, p).value;
      ReadsChunkKeys(c, s, v, content[Part(n, p)].data);
      forall k | k in v.keys && k in s ensures k in s' && s'[k] == s[k] {
        assert RefersTo(m, k);
      }
      ReadsStays(c, s, s', v, content[Part(n, p)].data);
    }
  }

  lemma RevisionStays(c: Codec, s: Store, s': Store, x: Bytes, entry: Option<Content>)
    requires RevisionOk(c, s, x, entry)
    requires RevKey(c, x) in s' && s'[RevKey(c, x)] == s[RevKey(c, x)]
    requires entry.Some? ==> forall k | k in s && IsChunkKey(k) && RefersTo(Parse(c, s[RevKey(c, x)]).value, k) ::
               k in s' && s'[k] == s[k]
    ensures RevisionOk(c, s', x, entry)
  {
    hide Holds, WellFormed, NoComma, Parse, RefersTo;
    if entry.Some? { HoldsStays(c, s, s', Parse(c, s[RevKey(c, x)]).value, entry.value); }
  }

  // ---- publishing ----

  function Given(e: Entry): Tensor {
    Tensor(e.dtype, e.shape, e.data)
  }

  function Written(es: seq<Entry>): Content {
    if es == [] then map[] else Written(es[..|es| - 1])[es[|es| - 1].part := Given(es[|es| - 1])]
  }

  lemma {:induction false} WrittenAt(es: seq<Entry>)
    requires DistinctParts(es)
    ensures forall i | 0 <= i < |es| :: es[i].part in Written(es) && Written(es)[es[i].part] == Given(es[i])
    ensures forall q | q in Written(es) :: exists i :: 0 <= i < |es| && es[i].part == q
    decreases |es|
  {
    if es != [] {
      var n := |es| - 1;
      WrittenAt(es[..n]);
      forall i | 0 <= i < |es| ensures es[i].part in Written(es) && Written(es)[es[i].part] == Given(es[i]) {
        if i < n { assert es[..n][i] == es[i]; }
      }
      forall q | q in Written(es) ensures exists i :: 0 <= i < |es| && es[i].part == q {
        if q == es[n].part { assert es[n].part == q; }
        else {
          var i :| 0 <= i < |es[..n]| && es[..n][i].part == q;
          assert es[i].part == q;
        }
      }
    }
  }

  predicate PlainNames(es: seq<Entry>) {
    forall i | 0 <= i < |es| :: ',' !in es[i].part.precision
  }

  /** The abstract effect of a publish that succeeded. */
  function AfterPublish(c: Codec, a: Catalog, revision: string, es: seq<Entry>, merge: bool): Catalog {
    a[c.canonical(revision) := if PlainNames(es) then Some(Before(c, a, revision, merge) + Written(es)) else None]
  }

  /** What a publish adds to: the revision's content when merging into a readable one, else nothing. */
  function Before(c: Codec, a: Catalog, revision: string, merge: bool): Content {
    var x := c.canonical(revision);
    if merge && x in a && a[x].Some? then a[x].value else map[]
  }

  /** The manifest of a publish holds the base content overlaid with what was written. */
  lemma AddsHolds(c: Codec, s: Store, mid: Store, base: Manifest, m: Manifest, es: seq<Entry>, old_: Content)
    requires DistinctParts(es) && Adds(c, mid, base, m, es, true) && Holds(c, s, base, old_)
    requires forall k | k in s && IsChunkKey(k) :: k in mid && mid[k] == s[k]
    ensures Holds(c, mid, m, old_ + Written(es))
  {
    hide Reads, WellFormed;
    HoldsStays(c, s, mid, base, old_);
    WrittenAt(es);
    var content := old_ + Written(es);
    forall n, p ensures VariantAt(m, n, p).Some? <==> Part(n, p) in content
                ensures VariantAt(m, n, p).Some? ==>
                    Part(n, p) in content && Keeps(c, mid, m, n, VariantAt(m, n, p).value, content[Part(n, p)])
    {
      if Part(n, p) in Written(es) {
        var i :| 0 <= i < |es| && es[i].part == Part(n, p);
        assert Recorded(c, mid, m, es[i], true);
        assert content[Part(n, p)] == Given(es[i]);
      } else {
        assert VariantAt(m, n, p) == VariantAt(base, n, p);
      }
    }
  }

  lemma AddsNoComma(c: Codec, mid: Store, base: Manifest, m: Manifest, es: seq<Entry>)
    requires Adds(c, mid, base, m, es, true) && WellFormed(base) && NoComma(base.precisions) && PlainNames(es)
    ensures NoComma(m.precisions)
  {
    hide Reads, WellFormed;
    forall p | p in m.precisions ensures ',' !in p {
      var k := CarrierOf(m, p);
      var n := m.names[k];
      if exists i :: 0 <= i < |es| && es[i].part == Part(n, p) {
        var i :| 0 <= i < |es| && es[i].part == Part(n, p);
      } else {
        assert VariantAt(base, n, p).Some?;
        VariantRecorded(base, n, p);
      }
    }
  }

  /** What is written under the manifest key parses back to a manifest with the same variants. */
  lemma StoredManifest(c: Codec, s': Store, x: Bytes, m: Manifest, mid: Store, content: Content)
    requires Lossless(c) && s' == mid[RevKey(c, x) := c.encode(ToTable(m))]
    requires WellFormed(m) && NoComma(m.precisions) && Holds(c, mid, m, content)
    ensures RevisionHolds(c, s', x, content)
  {
    hide WellFormed, FromTable, ToTable, RefersTo, Reads;
    RoundTrip(m);
    assert c.decode(c.encode(ToTable(m))) == Some(ToTable(m));
    var m' := FromTable(ToTable(m)).value;
    assert NoComma(m'.precisions);
    assert m'.rows == m.rows;
    assert forall n :: ShapeOf(m', n) == ShapeOf(m, n);
    assert forall n, p :: VariantAt(m', n, p) == VariantAt(m, n, p);
    assert Holds(c, mid, m', content);
    hide Holds;
    assert !IsChunkKey(RevKey(c, x));
    HoldsStays(c, mid, s', m', content);
  }

  lemma PublishFails(c: Codec, s: Store, s': Store, a: Catalog, cap: nat)
    requires Represents(c, s, a) && Grown(c, s, s', cap)
    ensures Represents(c, s', a)
  {
    hide RefersTo, Parse, RevisionHolds;
    forall x | x in a ensures RevisionOk(c, s', x, a[x]) {
      assert RevisionOk(c, s, x, a[x]);
      RevisionStays(c, s, s', x, a[x]);
    }
    hide RevisionOk;
    forall k | k in s' && !IsChunkKey(k) ensures exists x :: x in a && k == RevKey(c, x) {
      assert k in s;
    }
  }

  lemma BaseHolds(c: Codec, s: Store, a: Catalog, revision: string, merge: bool)
    requires Represents(c, s, a) && CollisionFree(c)
    ensures var x := c.canonical(revision); var base := BaseOf(c, s, revision, merge);
            && (base.Ok? <==> !(merge && x in a && a[x].None?))
            && (base.Ok? ==> && WellFormed(base.value) && NoComma(base.value.precisions)
                             && Holds(c, s, base.value, Before(c, a, revision, merge)))
  {
    hide ChunksIntact;
    var x := c.canonical(revision);
    if x in a {
      assert RevisionOk(c, s, x, a[x]);
    } else {
      AbsentRevision(c, s, a, x);
    }
    EmptyWellFormed();
  }

  lemma PublishSucceeds(c: Codec, s: Store, s': Store, a: Catalog, revision: string, es: seq<Entry>, cap: nat,
                        merge: bool)
    requires Sound(c) && Represents(c, s, a) && DistinctParts(es)
    requires BaseOf(c, s, revision, merge).Ok?
    requires Published(c, s, s', revision, es, cap, BaseOf(c, s, revision, merge).value)
    ensures Represents(c, s', AfterPublish(c, a, revision, es, merge))
  {
    hide RevisionHolds, Holds, WellFormed, NoComma, BaseOf, Adds, ToTable, PlainNames, Before, Represents,
         ChunksIntact, Parse;
    var x := c.canonical(revision);
    var base := BaseOf(c, s, revision, merge).value;
    BaseHolds(c, s, a, revision, merge);
    var before := Before(c, a, revision, merge);
    assert ChunksIntact(c, s) by { RepresentsIntact(c, s, a); }
    var m, mid :| && Grown(c, s, mid, cap) && s' == mid[ManifestKey(c, revision) := c.encode(ToTable(m))]
                  && Adds(c, mid, base, m, es, ChunksIntact(c, s) && CollisionFree(c));
    AddsWellFormed(c, mid, base, m, es);
    AddsCommaExact(c, mid, base, m, es);
    PublishFails(c, s, mid, a, cap);
    var entry := if PlainNames(es) then Some(before + Written(es)) else None;
    if PlainNames(es) {
      AddsHolds(c, s, mid, base, m, es, before);
      StoredManifest(c, s', x, m, mid, before + Written(es));
    } else {
      StoredUnreadable(c, s', x, m, mid);
    }
    PublishOthers(c, mid, s', a, x, entry, c.encode(ToTable(m)));
  }

  lemma RepresentsIntact(c: Codec, s: Store, a: Catalog)
    requires Represents(c, s, a)
    ensures ChunksIntact(c, s)
  {
  }

  /** With a comma in a precision name, what is written does not parse. */
  lemma StoredUnreadable(c: Codec, s': Store, x: Bytes, m: Manifest, mid: Store)
    requires Lossless(c) && s' == mid[RevKey(c, x) := c.encode(ToTable(m))] && WellFormed(m) && !NoComma(m.precisions)
    ensures RevKey(c, x) in s' && Parse(c, s'[RevKey(c, x)]).Err?
  {
    hide WellFormed, FromTable, ToTable, NoComma;
    RoundTripExact(m);
    assert c.decode(c.encode(ToTable(m))) == Some(ToTable(m));
  }

  lemma AddsWellFormed(c: Codec, mid: Store, base: Manifest, m: Manifest, es: seq<Entry>)
    requires Adds(c, mid, base, m, es, true) && WellFormed(base)
    ensures WellFormed(m)
  {
  }

  /** Writing one manifest key disturbs no other revision. */
  lemma PublishOthers(c: Codec, s: Store, s': Store, a: Catalog, x: Bytes, entry: Option<Content>, raw: Bytes)
    requires CollisionFree(c) && Represents(c, s, a) && s' == s[RevKey(c, x) := raw] && RevisionOk(c, s', x, entry)
    ensures Represents(c, s', a[x := entry])
  {
    hide RefersTo, Parse, RevisionHolds;
    var a' := a[x := entry];
    assert !IsChunkKey(RevKey(c, x));
    forall y | y in a' ensures RevisionOk(c, s', y, a'[y]) {
      if y != x {
        assert RevisionOk(c, s, y, a[y]);
        assert RevKey(c, y)[1..] == c.hash(y) && RevKey(c, x)[1..] == c.hash(x);
        RevisionStays(c, s, s', y, a[y]);
      }
    }
    hide RevisionOk;
    forall k | k in s' && !IsChunkKey(k) ensures exists y :: y in a' && k == RevKey(c, y) {
      if k == RevKey(c, x) {
        assert x in a';
      } else {
        var y :| y in a && k == RevKey(c, y);
        assert y in a';
      }
    }
  }

  // ---- collecting ----

  ghost predicate Kept(c: Codec, revisions: seq<string>, x: Bytes) {
    exists i :: 0 <= i < |revisions| && c.canonical(revisions[i]) == x
  }

  /** The abstract effect of a real collection that succeeded. */
  ghost function AfterGc(c: Codec, a: Catalog, revisions: seq<string>): Catalog {
    map x | x in a && Kept(c, revisions, x) :: a[x]
  }

  lemma KeptRevision(c: Codec, s: Store, s': Store, revisions: seq<string>, x: Bytes, entry: Option<Content>,
                     r: Result<GcStats, seq<Bytes>>)
    requires GcStep(c, s, s', revisions, false, r) && r.Ok? && Kept(c, revisions, x) && RevisionOk(c, s, x, entry)
    ensures RevisionOk(c, s', x, entry)
  {
    hide RevisionOk, Parse, RefersTo, SumSizes, Unreadable;
    var i :| 0 <= i < |revisions| && c.canonical(revisions[i]) == x;
    var rev := revisions[i];
    var k := ManifestKey(c, rev);
    assert Readable(c, s, rev);
    assert k == RevKey(c, x);
    forall q | q == k || RefersTo(Parse(c, s[k]).value, q) ensures Live(c, s, revisions, q) {
      assert LiveBy(c, s, rev, q);
    }
    RevisionStays(c, s, s', x, entry);
  }

  /** A surviving manifest key belongs to a live revision. */
  lemma SurvivorIsKept(c: Codec, s: Store, s': Store, a: Catalog, revisions: seq<string>,
                       r: Result<GcStats, seq<Bytes>>, k: Key)
    requires Represents(c, s, a) && CollisionFree(c) && GcStep(c, s, s', revisions, false, r) && r.Ok?
    requires k in s' && !IsChunkKey(k)
    ensures exists x :: x in a && Kept(c, revisions, x) && k == RevKey(c, x)
  {
    hide RevisionOk, Parse, RefersTo, SumSizes, Unreadable, ChunksIntact, Live, AllReadable;
    assert k in s && Live(c, s, revisions, k);
    var i := LiveWitness(c, s, revisions, k);
    var rev := revisions[i];
    var x :| x in a && k == RevKey(c, x);
    if k == ManifestKey(c, rev) {
      assert k[1..] == c.hash(c.canonical(rev)) && RevKey(c, x)[1..] == c.hash(x);
      assert Kept(c, revisions, x);
    } else {
      ManifestsReferToChunks(c, s, a, rev, k);
      assert false;
    }
  }

  lemma LiveWitness(c: Codec, s: Store, revisions: seq<string>, k: Key) returns (i: nat)
    requires Live(c, s, revisions, k)
    ensures i < |revisions| && LiveBy(c, s, revisions[i], k)
  {
    i :| 0 <= i < |revisions| && LiveBy(c, s, revisions[i], k);
  }

  lemma ManifestsReferToChunks(c: Codec, s: Store, a: Catalog, revision: string, k: Key)
    requires Represents(c, s, a) && CollisionFree(c) && LiveBy(c, s, revision, k) && k != ManifestKey(c, revision)
    ensures IsChunkKey(k)
  {
    hide Parse, Reads, WellFormed, ChunksIntact, NoComma;
    var x := c.canonical(revision);
    assert ManifestKey(c, revision) == RevKey(c, x);
    if x !in a { AbsentRevision(c, s, a, x); assert false; }
    assert RevisionOk(c, s, x, a[x]);
    var m := Parse(c, s[RevKey(c, x)]).value;
    var n, p :| VariantAt(m, n, p).Some? && k in VariantAt(m, n, p).value.keys;
    ReadsChunkKeys(c, s, VariantAt(m, n, p).value, a[x].value[Part(n, p)].data);
  }

  lemma GcSucceeds(c: Codec, s: Store, s': Store, a: Catalog, revisions: seq<string>, r: Result<GcStats, seq<Bytes>>)
    requires Represents(c, s, a) && CollisionFree(c) && GcStep(c, s, s', revisions, false, r) && r.Ok?
    ensures Represents(c, s', AfterGc(c, a, revisions))
  {
    hide RevisionOk, Parse, RefersTo, SumSizes, Unreadable, Live, AllReadable;
    var a' := AfterGc(c, a, revisions);
    forall x | x in a' ensures RevisionOk(c, s', x, a'[x]) {
      KeptRevision(c, s, s', revisions, x, a[x], r);
    }
    forall k | k in s' && !IsChunkKey(k) ensures exists x :: x in a' && k == RevKey(c, x) {
      SurvivorIsKept(c, s, s', a, revisions, r, k);
      var x :| x in a && Kept(c, revisions, x) && k == RevKey(c, x);
      assert x in a';
    }
  }

  // ---- histories ----

  datatype Op =
    | PublishOp(revision: string, entries: seq<Entry>, cap: int, merge: bool, outcome: Result<Stats, PublishError>)
    | GcOp(revisions: seq<string>, dryRun: bool, swept: Result<GcStats, seq<Bytes>>)

  /** One operation, with the outcome it had, takes store `s` to `s'`. */
  ghost predicate Took(c: Codec, s: Store, s': Store, op: Op) {
    match op
    case PublishOp(revision, es, cap, merge, outcome) =>
      DistinctParts(es) && PublishStep(c, s, s', revision, es, cap, merge, outcome)
    case GcOp(revisions, dryRun, swept) => GcStep(c, s, s', revisions, dryRun, swept)
  }

  /** What the operation means for the abstract catalog: failures and dry runs mean nothing. */
  ghost function Effect(c: Codec, a: Catalog, op: Op): Catalog {
    match op
    case PublishOp(revision, es, _, merge, outcome) =>
      if outcome.Ok? then AfterPublish(c, a, revision, es, merge) else a
    case GcOp(revisions, dryRun, swept) => if swept.Ok? && !dryRun then AfterGc(c, a, revisions) else a
  }

  lemma StepRepresents(c: Codec, s: Store, s': Store, a: Catalog, op: Op)
    requires Sound(c) && Represents(c, s, a) && Took(c, s, s', op)
    ensures Represents(c, s', Effect(c, a, op))
  {
    hide Represents, Published, Grown, Fits, AllReadable, Unreadable, Live, SumSizes, AfterGc, AfterPublish, BaseOf;
    match op
    case PublishOp(revision, es, cap, merge, outcome) =>
      if outcome.Ok? {
        PublishSucceeds(c, s, s', a, revision, es, cap, merge);
      } else if cap > 0 {
        PublishFails(c, s, s', a, cap);
      }
    case GcOp(revisions, dryRun, swept) =>
      if swept.Ok? && !dryRun { GcSucceeds(c, s, s', a, revisions, swept); }
  }

  /** The abstract catalog after a history that began with nothing. */
  ghost function Meaning(c: Codec, ops: seq<Op>): Catalog {
    if ops == [] then map[] else Effect(c, Meaning(c, ops[..|ops| - 1]), ops[|ops| - 1])
  }

  ghost predicate History(c: Codec, stores: seq<Store>, ops: seq<Op>) {
    && |stores| == |ops| + 1 && stores[0] == map[]
    && forall i | 0 <= i < |ops| :: Took(c, stores[i], stores[i + 1], ops[i])
  }

  lemma {:induction false} HistoryRepresents(c: Codec, stores: seq<Store>, ops: seq<Op>)
    requires Sound(c) && History(c, stores, ops)
    ensures Represents(c, stores[|ops|], Meaning(c, ops))
    decreases |ops|
  {
    hide Took, Effect, Sound;
    if ops != [] {
      var n := |ops| - 1;
      assert History(c, stores[..|ops|], ops[..n]) by {
        forall i | 0 <= i < n ensures Took(c, stores[..|ops|][i], stores[..|ops|][i + 1], ops[..n][i]) {
          assert Took(c, stores[i], stores[i + 1], ops[i]);
        }
      }
      HistoryRepresents(c, stores[..|ops|], ops[..n]);
      StepRepresents(c, stores[n], stores[n + 1], Meaning(c, ops[..n]), ops[n]);
    }
  }

  /**
   * After any history of publishes (any cap, packed or not, merged or not, succeeding or raising)
   * and collections (dry or real, succeeding or aborting), every load returns exactly the tensors
   * published under that revision and precision and not since collected, each with the dtype, the shape
   * and the bytes it was given, or says what is missing.
   */
  lemma CatalogHistoryExact(c: Codec, stores: seq<Store>, ops: seq<Op>, revision: string, p: string)
    requires Sound(c) && History(c, stores, ops)
    ensures var s := stores[|ops|];
            Answers(Meaning(c, ops), c.canonical(revision), p, Load(c, s, revision, p), LoadArrays(c, s, revision, p))
  {
    hide Represents, Meaning, Load, LoadArrays, Answers, Took;
    HistoryRepresents(c, stores, ops);
    LoadIsExact(c, stores[|ops|], Meaning(c, ops), revision, p);
  }

  // ---- a kept revision ----

  /** The operation leaves revision `x` alone: it publishes elsewhere or raises, and collects with `x` live. */
  ghost predicate Spares(c: Codec, op: Op, x: Bytes) {
    match op
    case PublishOp(revision, _, _, _, outcome) => outcome.Ok? ==> c.canonical(revision) != x
    case GcOp(revisions, dryRun, swept) => swept.Ok? && !dryRun ==> Kept(c, revisions, x)
  }

  lemma {:induction false} SparedContent(c: Codec, ops: seq<Op>, k: nat, x: Bytes)
    requires k <= |ops| && x in Meaning(c, ops[..k]) && forall j | k <= j < |ops| :: Spares(c, ops[j], x)
    ensures x in Meaning(c, ops) && Meaning(c, ops)[x] == Meaning(c, ops[..k])[x]
    decreases |ops|
  {
    if k == |ops| {
      assert ops[..k] == ops;
    } else {
      var n := |ops| - 1;
      assert ops[..n][..k] == ops[..k];
      assert forall j | k <= j < n :: ops[..n][j] == ops[j];
      SparedContent(c, ops[..n], k, x);
      assert Spares(c, ops[n], x);
    }
  }

  /**
   * A revision written by a publish, and since then never overwritten and live in every collection,
   * loads at each of its precisions the tensors that publish was given, and if it did not merge nothing
   * else; unless a precision was given with a comma, when it cannot be parsed.
   */
  lemma KeptRevisionLoads(c: Codec, stores: seq<Store>, ops: seq<Op>, k: nat, p: string)
    requires Sound(c) && History(c, stores, ops) && k < |ops|
    requires ops[k].PublishOp? && ops[k].outcome.Ok?
    requires forall j | k < j < |ops| :: Spares(c, ops[j], c.canonical(ops[k].revision))
    requires exists n :: Part(n, p) in Written(ops[k].entries)
    ensures var r, w := LoadArrays(c, stores[|ops|], ops[k].revision, p), Written(ops[k].entries);
            if !PlainNames(ops[k].entries) then r == Err(Unparseable)
            else && r.Ok?
                 && (forall n | Part(n, p) in w :: n in r.value && r.value[n] == w[Part(n, p)])
                 && (!ops[k].merge ==> ExactlyGiven(w, p, r.value))
  {
    hide Represents, Load, LoadArrays, Took, Spares, Written, Before, PlainNames;
    var x := c.canonical(ops[k].revision);
    var w := Written(ops[k].entries);
    assert ops[..k + 1][..k] == ops[..k] && ops[..k + 1][k] == ops[k];
    var before := Before(c, Meaning(c, ops[..k]), ops[k].revision, ops[k].merge);
    assert Meaning(c, ops[..k + 1])[x] == if PlainNames(ops[k].entries) then Some(before + w) else None;
    SparedContent(c, ops, k + 1, x);
    CatalogHistoryExact(c, stores, ops, ops[k].revision, p);
    if !ops[k].merge { assert before == map[] by { FreshBefore(c, Meaning(c, ops[..k]), ops[k].revision); } }
    var n :| Part(n, p) in w;
    assert Part(n, p) in before + w;
  }

  lemma FreshBefore(c: Codec, a: Catalog, revision: string)
    ensures Before(c, a, revision, false) == map[]
  {
  }

  // ---- names with commas ----

  /**
   * A publish that succeeds leaves its revision readable if and only if no precision it was given
   * contains a comma; otherwise every load of that revision fails to parse the manifest.
   */
  lemma PublishReadableExact(c: Codec, s: Store, s': Store, a: Catalog, revision: string, es: seq<Entry>, cap: int,
                             merge: bool, r: Result<Stats, PublishError>)
    requires Sound(c) && Represents(c, s, a) && DistinctParts(es) && PublishStep(c, s, s', revision, es, cap, merge, r)
        && r.Ok?
    ensures Readable(c, s', revision) <==> PlainNames(es)
    ensures !PlainNames(es) ==> forall p :: Load(c, s', revision, p) == Err(Unparseable)
  {
    hide RevisionOk, Holds, Adds, ToTable, FromTable, WellFormed, BaseOf, Fits, Grown, PlainNames, NoComma,
         ChunksIntact;
    BaseHolds(c, s, a, revision, merge);
    assert ChunksIntact(c, s);
    var base := BaseOf(c, s, revision, merge).value;
    var m, mid :| && Grown(c, s, mid, cap) && s' == mid[ManifestKey(c, revision) := c.encode(ToTable(m))]
                  && Adds(c, mid, base, m, es, ChunksIntact(c, s) && CollisionFree(c));
    AddsWellFormed(c, mid, base, m, es);
    AddsCommaExact(c, mid, base, m, es);
    RoundTripExact(m);
    assert c.decode(c.encode(ToTable(m))) == Some(ToTable(m));
  }

  lemma AddsCommaExact(c: Codec, mid: Store, base: Manifest, m: Manifest, es: seq<Entry>)
    requires Adds(c, mid, base, m, es, true) && WellFormed(base) && NoComma(base.precisions)
    ensures NoComma(m.precisions) <==> PlainNames(es)
  {
    hide Reads, WellFormed;
    if PlainNames(es) {
      AddsNoComma(c, mid, base, m, es);
    } else {
      AddsWellFormed(c, mid, base, m, es);
      var i :| 0 <= i < |es| && ',' in es[i].part.precision;
      assert VariantAt(m, es[i].part.tensor, es[i].part.precision).Some?;
      VariantRecorded(m, es[i].part.tensor, es[i].part.precision);
    }
  }
}
