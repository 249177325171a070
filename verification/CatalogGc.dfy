/** Mark-sweep reclaim over the live revisions. */
module CatalogGc {
  import opened Common
  import opened CatalogManifest
  import opened CatalogRoundTrip
  import opened CatalogStore

  /** Some tensor at some precision has a slice in the Value under `k`. */
  ghost predicate RefersTo(m: Manifest, k: Key) {
    exists n, p :: VariantAt(m, n, p).Some? && k in VariantAt(m, n, p).value.keys
  }

  ghost predicate Readable(c: Codec, s: Store, revision: string) {
    ManifestKey(c, revision) in s && Parse(c, s[ManifestKey(c, revision)]).Ok?
  }

  /** `k` is a live manifest key, or a Value some live manifest refers to. */
  ghost predicate LiveBy(c: Codec, s: Store, revision: string, k: Key) {
    && Readable(c, s, revision)
    && (k == ManifestKey(c, revision) || RefersTo(Parse(c, s[ManifestKey(c, revision)]).value, k))
  }

  ghost predicate Live(c: Codec, s: Store, revisions: seq<string>, k: Key) {
    exists i :: 0 <= i < |revisions| && LiveBy(c, s, revisions[i], k)
  }

  ghost predicate AllReadable(c: Codec, s: Store, revisions: seq<string>) {
    forall i | 0 <= i < |revisions| :: Readable(c, s, revisions[i])
  }

  // ---- whatever parses is well formed ----

  lemma {:induction false} AddRowParsed(t: Table, m: Manifest, i: nat, ps: seq<string>)
    requires i < |t.names| == |t.shapes| && (forall p | p in ps :: HasGroup(t, p)) && WellFormed(m)
    ensures AddRow(t, m, i, ps).Ok? ==> WellFormed(AddRow(t, m, i, ps).value)
    decreases |ps|
  {
    hide WellFormed, AddTensor;
    if ps != [] {
      var p := ps[0];
      assert p in ps;
      var r := AddCell(t, m, i, p);
      if r.Ok? {
        AddCellParsed(t, m, i, p);
        AddRowParsed(t, r.value, i, ps[1..]);
      }
    }
  }

  lemma AddCellParsed(t: Table, m: Manifest, i: nat, p: string)
    requires i < |t.names| == |t.shapes| && HasGroup(t, p) && WellFormed(m)
    ensures AddCell(t, m, i, p).Ok? ==> WellFormed(AddCell(t, m, i, p).value)
  {
    hide WellFormed, AddTensor;
    var dtype := Find(t.columns, DtypeCol(p)).value.texts[i];
    var keys := Find(t.columns, KeysCol(p)).value.keys[i];
    var sizes := Find(t.columns, SizesCol(p)).value.ints[i];
    var offsets := Find(t.columns, OffsetsCol(p));
    if dtype.Some? && keys.Some? && sizes.Some? {
      AddTensorWellFormed(m, t.names[i], p, dtype.value, t.shapes[i], keys.value, sizes.value,
                          if offsets.Some? then offsets.value.ints[i] else None);
    }
  }

  lemma {:induction false} AddRowsParsed(t: Table, m: Manifest, i: nat, ps: seq<string>)
    requires i <= |t.names| == |t.shapes| && (forall p | p in ps :: HasGroup(t, p)) && WellFormed(m)
    ensures AddRows(t, m, i, ps).Ok? ==> WellFormed(AddRows(t, m, i, ps).value)
    decreases |t.names| - i
  {
    hide WellFormed, AddRow;
    if i < |t.names| {
      AddRowParsed(t, m, i, ps);
      var r := AddRow(t, m, i, ps);
      if r.Ok? { AddRowsParsed(t, r.value, i + 1, ps); }
    }
  }

  lemma ParsedWellFormed(c: Codec, raw: Bytes)
    ensures Parse(c, raw).Ok? ==> WellFormed(Parse(c, raw).value)
  {
    hide WellFormed, AddRows, HasGroup;
    match c.decode(raw)
    case None =>
    case Some(t) =>
      EmptyWellFormed();
      if FromTable(t).Ok? { AddRowsParsed(t, EMPTY, 0, Precisions(t)); }
  }

  // ---- mark ----

  /** The keys of every variant at precision `p` among the first rows. */
  method KeysAt(m: Manifest, p: string) returns (ks: set<Key>)
    ensures forall k :: k in ks <==>
        exists n :: n in m.names && VariantAt(m, n, p).Some? && k in VariantAt(m, n, p).value.keys
  {
    ks := {};
    for i := 0 to |m.names|
      invariant forall k :: k in ks <==>
          exists n :: n in m.names[..i] && VariantAt(m, n, p).Some? && k in VariantAt(m, n, p).value.keys
    {
      var n := m.names[i];
      assert m.names[..i + 1] == m.names[..i] + [n];
      var v := VariantAt(m, n, p);
      if v.Some? {
        var add := set k | k in v.value.keys;
        ks := ks + add;
      }
    }
    assert m.names[..|m.names|] == m.names;
  }

  /** Every Value a manifest refers to, over all its precisions and tensors. */
  method ChunkKeys(m: Manifest) returns (ks: set<Key>)
    requires WellFormed(m)
    ensures forall k :: k in ks <==> RefersTo(m, k)
  {
    hide WellFormed;
    ks := {};
    for i := 0 to |m.precisions|
      invariant forall k :: k in ks <==>
                  exists p, n :: p in m.precisions[..i] && n in m.names && VariantAt(m, n, p).Some?
                    && k in VariantAt(m, n, p).value.keys
    {
      var p := m.precisions[i];
      assert m.precisions[..i + 1] == m.precisions[..i] + [p];
      var add := KeysAt(m, p);
      ks := ks + add;
    }
    assert m.precisions[..|m.precisions|] == m.precisions;
    forall k ensures k in ks <==> RefersTo(m, k) {
      if RefersTo(m, k) {
        var n, p :| VariantAt(m, n, p).Some? && k in VariantAt(m, n, p).value.keys;
        VariantRecorded(m, n, p);
        assert n in m.names by { NameListed(m, n); }
      }
    }
  }

  lemma NameListed(m: Manifest, n: string)
    requires WellFormed(m) && n in m.rows
    ensures n in m.names
  {
  }

  datatype Marks = Marks(live: set<Key>, manifests: nat)

  /** Some revision in the list spells the one stored under manifest key `k`. */
  ghost predicate Spelled(c: Codec, revisions: seq<string>, k: Key) {
    exists i :: 0 <= i < |revisions| && ManifestKey(c, revisions[i]) == k
  }

  /** `name` is the canonical spelling of a listed revision whose manifest cannot be read. */
  ghost predicate Unreadable(c: Codec, s: Store, revisions: seq<string>, name: Bytes) {
    exists i :: 0 <= i < |revisions| && c.canonical(revisions[i]) == name && !Readable(c, s, revisions[i])
  }

  /** The distinct manifest keys of the listed revisions. */
  ghost function ManifestKeys(c: Codec, revisions: seq<string>): set<Key> {
    set i | 0 <= i < |revisions| :: ManifestKey(c, revisions[i])
  }

  lemma SeenKeys(c: Codec, revisions: seq<string>, seen: set<Key>)
    requires forall k :: k in seen <==> Spelled(c, revisions, k)
    ensures seen == ManifestKeys(c, revisions)
  {
    hide ManifestKey;
    forall k ensures k in seen <==> k in ManifestKeys(c, revisions) {
      if k in ManifestKeys(c, revisions) {
        var i :| 0 <= i < |revisions| && ManifestKey(c, revisions[i]) == k;
      }
    }
  }

  ghost predicate MarkedOk(c: Codec, s: Store, revs: seq<string>, seen: set<Key>, live: set<Key>, manifests: nat,
                           unreadable: seq<Bytes>) {
    && (forall k :: k in seen <==> Spelled(c, revs, k))
    && (forall k :: k in live <==> Live(c, s, revs, k))
    && (unreadable == [] <==> AllReadable(c, s, revs))
    && (forall x :: x in unreadable ==> Unreadable(c, s, revs, x))
    && (unreadable == [] ==> manifests == |seen|)
  }

  /** The revision is named, by a canonical spelling with its manifest key. */
  ghost predicate Reported(c: Codec, unreadable: seq<Bytes>, rev: string) {
    exists x :: x in unreadable && ManifestKey(c, rev) == [MANIFEST_TAG] + c.hash(x)
  }

  ghost predicate NoneMissed(c: Codec, s: Store, revs: seq<string>, unreadable: seq<Bytes>) {
    forall i | 0 <= i < |revs| && !Readable(c, s, revs[i]) :: Reported(c, unreadable, revs[i])
  }

  lemma ReportMore(c: Codec, s: Store, revs: seq<string>, rev: string, unreadable: seq<Bytes>)
    requires NoneMissed(c, s, revs, unreadable)
    ensures NoneMissed(c, s, revs + [rev], unreadable + [c.canonical(rev)])
  {
    hide Readable;
    var all, named := revs + [rev], unreadable + [c.canonical(rev)];
    assert named[|unreadable|] == c.canonical(rev);
    forall i | 0 <= i < |all| && !Readable(c, s, all[i]) ensures Reported(c, named, all[i]) {
      if i < |revs| {
        assert Reported(c, unreadable, revs[i]);
        var x :| x in unreadable && ManifestKey(c, revs[i]) == [MANIFEST_TAG] + c.hash(x);
        assert x in named;
      } else {
        assert c.canonical(rev) in named;
      }
    }
  }

  lemma ReportSame(c: Codec, s: Store, revs: seq<string>, rev: string, unreadable: seq<Bytes>)
    requires NoneMissed(c, s, revs, unreadable)
    requires Readable(c, s, rev) || exists i :: 0 <= i < |revs| && ManifestKey(c, revs[i]) == ManifestKey(c, rev)
    ensures NoneMissed(c, s, revs + [rev], unreadable)
  {
    var all := revs + [rev];
    forall i | 0 <= i < |all| && !Readable(c, s, all[i]) ensures Reported(c, unreadable, all[i]) {
      if i < |revs| {
        assert Reported(c, unreadable, revs[i]);
      } else {
        var k :| 0 <= k < |revs| && ManifestKey(c, revs[k]) == ManifestKey(c, rev);
        assert Reported(c, unreadable, revs[k]);
      }
    }
  }

  /** Revisions that share a manifest key are one revision for the mark. */
  lemma SameSpelling(c: Codec, s: Store, a: string, b: string)
    requires ManifestKey(c, a) == ManifestKey(c, b)
    ensures Readable(c, s, a) == Readable(c, s, b)
    ensures forall k :: LiveBy(c, s, a, k) <==> LiveBy(c, s, b, k)
  {
  }

  lemma MarkSeenAgain(c: Codec, s: Store, revs: seq<string>, rev: string, seen: set<Key>, live: set<Key>,
                      manifests: nat, unreadable: seq<Bytes>)
    requires MarkedOk(c, s, revs, seen, live, manifests, unreadable) && ManifestKey(c, rev) in seen
    ensures MarkedOk(c, s, revs + [rev], seen, live, manifests, unreadable)
  {
    hide LiveBy, Readable;
    var i :| 0 <= i < |revs| && ManifestKey(c, revs[i]) == ManifestKey(c, rev);
    SameSpelling(c, s, revs[i], rev);
    SnocFacts(c, s, revs, rev);
    assert Readable(c, s, rev) == Readable(c, s, revs[i]);
    forall k ensures Live(c, s, revs + [rev], k) <==> Live(c, s, revs, k) {
      if LiveBy(c, s, rev, k) { assert LiveBy(c, s, revs[i], k); }
    }
  }

  lemma SnocFacts(c: Codec, s: Store, revs: seq<string>, rev: string)
    ensures forall k :: Spelled(c, revs + [rev], k) <==> Spelled(c, revs, k) || ManifestKey(c, rev) == k
    ensures forall k :: Live(c, s, revs + [rev], k) <==> Live(c, s, revs, k) || LiveBy(c, s, rev, k)
    ensures AllReadable(c, s, revs + [rev]) <==> AllReadable(c, s, revs) && Readable(c, s, rev)
    ensures forall x :: Unreadable(c, s, revs + [rev], x) <==>
                        Unreadable(c, s, revs, x) || (x == c.canonical(rev) && !Readable(c, s, rev))
  {
    hide LiveBy, Readable, ManifestKey;
    var all := revs + [rev];
    assert all[|revs|] == rev;
    forall k | Spelled(c, revs, k) ensures Spelled(c, all, k) {
      var i :| 0 <= i < |revs| && ManifestKey(c, revs[i]) == k;
      assert all[i] == revs[i];
    }
    forall k | Live(c, s, revs, k) ensures Live(c, s, all, k) {
      var i :| 0 <= i < |revs| && LiveBy(c, s, revs[i], k);
      assert all[i] == revs[i];
    }
    forall x | Unreadable(c, s, revs, x) ensures Unreadable(c, s, all, x) {
      var i :| 0 <= i < |revs| && c.canonical(revs[i]) == x && !Readable(c, s, revs[i]);
      assert all[i] == revs[i];
    }
    if AllReadable(c, s, all) {
      forall i | 0 <= i < |revs| ensures Readable(c, s, revs[i]) { assert all[i] == revs[i]; }
    }
  }

  lemma MarkUnreadable(c: Codec, s: Store, revs: seq<string>, rev: string, seen: set<Key>, live: set<Key>,
                       manifests: nat, unreadable: seq<Bytes>)
    requires MarkedOk(c, s, revs, seen, live, manifests, unreadable) && !Readable(c, s, rev)
    ensures MarkedOk(c, s, revs + [rev], seen + {ManifestKey(c, rev)}, live, manifests, unreadable + [c.canonical(rev)])
  {
    assert forall k :: !LiveBy(c, s, rev, k);
    hide LiveBy, Readable, ManifestKey, Live, Spelled, AllReadable, Unreadable;
    SnocFacts(c, s, revs, rev);
    assert unreadable + [c.canonical(rev)] != [];
  }

  lemma MarkReadable(c: Codec, s: Store, revs: seq<string>, rev: string, seen: set<Key>, live: set<Key>,
                     manifests: nat, unreadable: seq<Bytes>, ks: set<Key>)
    requires MarkedOk(c, s, revs, seen, live, manifests, unreadable) && Readable(c, s, rev)
        && ManifestKey(c, rev) !in seen
    requires forall k :: k in ks <==> RefersTo(Parse(c, s[ManifestKey(c, rev)]).value, k)
    ensures MarkedOk(c, s, revs + [rev], seen + {ManifestKey(c, rev)}, live + {ManifestKey(c, rev)} + ks,
        manifests + 1, unreadable)
  {
    assert forall k :: LiveBy(c, s, rev, k) <==> k == ManifestKey(c, rev) || k in ks;
    hide LiveBy, Readable, ManifestKey, Live, Spelled, AllReadable, Unreadable, RefersTo, Parse;
    SnocFacts(c, s, revs, rev);
  }

  lemma SeenSpelled(c: Codec, s: Store, revs: seq<string>, seen: set<Key>, live: set<Key>, manifests: nat,
                    unreadable: seq<Bytes>, k: Key)
    requires MarkedOk(c, s, revs, seen, live, manifests, unreadable)
    ensures k in seen ==> exists i :: 0 <= i < |revs| && ManifestKey(c, revs[i]) == k
  {
  }

  /** Build the live set; fail if any live revision's manifest is missing or unparseable. */
  method Mark(c: Codec, kv: KvClient, revisions: seq<string>) returns (r: Result<Marks, seq<Bytes>>)
    ensures r.Ok? <==> AllReadable(c, kv.data, revisions)
    ensures r.Ok? ==> forall k :: k in r.value.live <==> Live(c, kv.data, revisions, k)
    ensures r.Ok? ==> r.value.manifests == |ManifestKeys(c, revisions)|
    ensures r.Err? ==> r.error != [] && forall x :: x in r.error ==> Unreadable(c, kv.data, revisions, x)
    ensures r.Err? ==> NoneMissed(c, kv.data, revisions, r.error)
  {
    var live: set<Key>, unreadable: seq<Bytes>, manifests := {}, [], 0;
    var seen: set<Key> := {};
    assert revisions[..0] == [];
    for i := 0 to |revisions|
      invariant MarkedOk(c, kv.data, revisions[..i], seen, live, manifests, unreadable)
      invariant NoneMissed(c, kv.data, revisions[..i], unreadable)
    {
      SeenSpelled(c, kv.data, revisions[..i], seen, live, manifests, unreadable, ManifestKey(c, revisions[i]));
      hide MarkedOk, NoneMissed;
      var rev := revisions[i];
      var mkey := ManifestKey(c, rev);
      assert revisions[..i + 1] == revisions[..i] + [rev];
      if mkey in seen {
        MarkSeenAgain(c, kv.data, revisions[..i], rev, seen, live, manifests, unreadable);
        ReportSame(c, kv.data, revisions[..i], rev, unreadable);
        continue;
      }
      if mkey !in kv.data {
        MarkUnreadable(c, kv.data, revisions[..i], rev, seen, live, manifests, unreadable);
        ReportMore(c, kv.data, revisions[..i], rev, unreadable);
        seen := seen + {mkey};
        unreadable := unreadable + [c.canonical(rev)];
        continue;
      }
      var m := Parse(c, kv.data[mkey]);
      if m.Err? {
        MarkUnreadable(c, kv.data, revisions[..i], rev, seen, live, manifests, unreadable);
        ReportMore(c, kv.data, revisions[..i], rev, unreadable);
        seen := seen + {mkey};
        unreadable := unreadable + [c.canonical(rev)];
        continue;
      }
      ParsedWellFormed(c, kv.data[mkey]);
      var ks := ChunkKeys(m.value);
      MarkReadable(c, kv.data, revisions[..i], rev, seen, live, manifests, unreadable, ks);
      ReportSame(c, kv.data, revisions[..i], rev, unreadable);
      seen := seen + {mkey};
      live := live + {mkey} + ks;
      manifests := manifests + 1;
    }
    assert revisions[..|revisions|] == revisions;
    SeenKeys(c, revisions, seen);
    r := if unreadable != [] then Err(unreadable) else Ok(Marks(live, manifests));
  }

  // ---- sweep ----

  datatype GcStats = GcStats(liveChunks: int, liveManifests: nat, swept: nat, bytesSwept: nat, sweptKeys: seq<Key>)

  function SumSizes(s: Store, ks: seq<Key>): nat {
    if ks == [] then 0
    else SumSizes(s, ks[..|ks| - 1]) + if ks[|ks| - 1] in s then |s[ks[|ks| - 1]]| else 0
  }

  lemma SumNil(s: Store)
    ensures SumSizes(s, []) == 0
  {
  }

  lemma SumSnoc(s: Store, ks: seq<Key>, k: Key)
    ensures SumSizes(s, ks + [k]) == SumSizes(s, ks) + if k in s then |s[k]| else 0
  {
    assert (ks + [k])[..|ks|] == ks;
  }

  /** `list` holds each element of `xs` once. */
  ghost predicate Lists<K(!new)>(list: seq<K>, xs: set<K>) {
    Distinct(list) && forall k :: k in list <==> k in xs
  }

  lemma ListsSnoc<K(!new)>(list: seq<K>, xs: set<K>, k: K)
    requires Lists(list, xs) && k !in xs
    ensures Lists(list + [k], xs + {k})
  {
  }

  lemma SetStep<K>(all: set<K>, todo: set<K>, live: set<K>, key: K)
    requires todo <= all && key in todo
    ensures key in live ==> all - (todo - {key}) - live == all - todo - live
    ensures key !in live ==> all - (todo - {key}) - live == all - todo - live + {key} && key !in all - todo - live
  {
  }

  lemma MapMinus<K, V>(s: map<K, V>, gone: set<K>, key: K)
    ensures s - gone - {key} == s - (gone + {key})
  {
  }

  /** So many keys are live besides the manifests, and so many manifests. */
  ghost predicate Counts(c: Codec, s: Store, revisions: seq<string>, chunks: int, manifests: nat) {
    && manifests == |ManifestKeys(c, revisions)|
    && exists live: set<Key> :: (forall k :: k in live <==> Live(c, s, revisions, k)) && chunks + manifests == |live|
  }

  /** What one collection does to the store. */
  ghost predicate GcStep(c: Codec, s: Store, s': Store, revisions: seq<string>, dryRun: bool,
                         r: Result<GcStats, seq<Bytes>>) {
    && (r.Ok? <==> AllReadable(c, s, revisions))
    && (r.Err? ==>
          && s' == s && r.error != [] && (forall x :: x in r.error ==> Unreadable(c, s, revisions, x))
          && NoneMissed(c, s, revisions, r.error))
    && (r.Ok? ==>
          && Distinct(r.value.sweptKeys) && r.value.swept == |r.value.sweptKeys|
          && (forall k :: k in r.value.sweptKeys <==> k in s && !Live(c, s, revisions, k))
          && r.value.bytesSwept == SumSizes(s, r.value.sweptKeys)
          && Counts(c, s, revisions, r.value.liveChunks, r.value.liveManifests)
          && (dryRun ==> s' == s)
          && (!dryRun ==>
                && (forall k :: k in s' <==> k in s && Live(c, s, revisions, k))
                && (forall k | k in s' :: k in s && s'[k] == s[k])))
  }

  /** Delete (or, in a dry run, list) every stored key outside the live set. */
  method Sweep(kv: KvClient, live: set<Key>, dryRun: bool) returns (swept: seq<Key>, bytes: nat)
    modifies kv`data
    ensures Lists(swept, old(kv.data).Keys - live)
    ensures bytes == SumSizes(old(kv.data), swept)
    ensures kv.data == if dryRun then old(kv.data) else old(kv.data) - (old(kv.data).Keys - live)
  {
    hide SumSizes, Lists;
    ghost var s := kv.data;
    ghost var gone: set<Key> := {};
    SumNil(s);
    assert Lists<Key>([], {}) by { NothingListed<Key>(); }
    var todo := kv.data.Keys;
    swept, bytes := [], 0;
    while todo != {}
      invariant todo <= s.Keys && gone == s.Keys - todo - live
      invariant Lists(swept, gone) && bytes == SumSizes(s, swept)
      invariant kv.data == if dryRun then s else s - gone
      decreases |todo|
    {
      var key :| key in todo;
      SetStep(s.Keys, todo, live, key);
      todo := todo - {key};
      if key in live { continue; }
      bytes := bytes + |kv.data[key]|;
      SumSnoc(s, swept, key);
      ListsSnoc(swept, gone, key);
      MapMinus(s, gone, key);
      swept := swept + [key];
      gone := gone + {key};
      if !dryRun { kv.Delete(key); }
    }
  }

  lemma NothingListed<K(!new)>()
    ensures Lists<K>([], {})
  {
  }

  method Gc(c: Codec, kv: KvClient, revisions: seq<string>, dryRun: bool) returns (r: Result<GcStats, seq<Bytes>>)
    modifies kv`data
    ensures GcStep(c, old(kv.data), kv.data, revisions, dryRun, r)
  {
    hide Live, AllReadable, Unreadable, SumSizes, Distinct;
    var marks := Mark(c, kv, revisions);
    if marks.Err? { return Err(marks.error); }
    var swept, bytes := Sweep(kv, marks.value.live, dryRun);
    r := Ok(GcStats(|marks.value.live| - marks.value.manifests, marks.value.manifests, |swept|, bytes, swept));
  }

  // ---- running it again ----

  lemma ManifestIsLive(c: Codec, s: Store, revisions: seq<string>, i: nat)
    requires i < |revisions| && Readable(c, s, revisions[i])
    ensures ManifestKey(c, revisions[i]) in s && Live(c, s, revisions, ManifestKey(c, revisions[i]))
  {
    assert LiveBy(c, s, revisions[i], ManifestKey(c, revisions[i]));
  }

  lemma KeptManifest(c: Codec, s: Store, s': Store, revision: string)
    requires Readable(c, s, revision)
    requires var k := ManifestKey(c, revision); k in s' && s'[k] == s[k]
    ensures Readable(c, s', revision) && forall k :: LiveBy(c, s', revision, k) <==> LiveBy(c, s, revision, k)
  {
  }

  lemma FirstIsIn(ks: seq<Key>)
    ensures ks != [] ==> ks[0] in ks
  {
  }

  /** A sweep keeps the live set: what was live stays live and nothing else appears. */
  lemma LiveAfterSweep(c: Codec, s: Store, s': Store, revisions: seq<string>)
    requires AllReadable(c, s, revisions)
    requires forall k :: k in s' <==> k in s && Live(c, s, revisions, k)
    requires forall k | k in s' && k in s :: s'[k] == s[k]
    ensures AllReadable(c, s', revisions)
    ensures forall k :: Live(c, s', revisions, k) <==> Live(c, s, revisions, k)
  {
    hide LiveBy, Readable;
    forall i | 0 <= i < |revisions|
      ensures Readable(c, s', revisions[i]) && forall k :: LiveBy(c, s', revisions[i], k) <==>
          LiveBy(c, s, revisions[i], k)
    {
      ManifestIsLive(c, s, revisions, i);
      KeptManifest(c, s, s', revisions[i]);
    }
    forall k ensures Live(c, s', revisions, k) <==> Live(c, s, revisions, k) {
      if Live(c, s, revisions, k) {
        var i :| 0 <= i < |revisions| && LiveBy(c, s, revisions[i], k);
        assert LiveBy(c, s', revisions[i], k);
      }
      if Live(c, s', revisions, k) {
        var i :| 0 <= i < |revisions| && LiveBy(c, s', revisions[i], k);
        assert LiveBy(c, s, revisions[i], k);
      }
    }
  }

  /** A second run with the same live revisions succeeds, sweeps nothing and changes nothing. */
  lemma SecondRunSweepsNothing(c: Codec, s: Store, s1: Store, s2: Store, revisions: seq<string>,
                               r1: Result<GcStats, seq<Bytes>>, r2: Result<GcStats, seq<Bytes>>)
    requires GcStep(c, s, s1, revisions, false, r1) && r1.Ok? && GcStep(c, s1, s2, revisions, false, r2)
    ensures r2.Ok? && r2.value.sweptKeys == [] && s2 == s1
  {
    hide Live, AllReadable, Unreadable, SumSizes;
    LiveAfterSweep(c, s, s1, revisions);
    assert r2.Ok?;
    assert forall k :: k !in r2.value.sweptKeys;
    FirstIsIn(r2.value.sweptKeys);
    assert s2.Keys == s1.Keys;
  }

  /** A dry run names exactly the keys a real run deletes. */
  lemma DryRunPreviews(c: Codec, s: Store, s1: Store, s2: Store, revisions: seq<string>,
                       dry: Result<GcStats, seq<Bytes>>, wet: Result<GcStats, seq<Bytes>>)
    requires GcStep(c, s, s1, revisions, true, dry) && GcStep(c, s, s2, revisions, false, wet)
    ensures dry.Ok? == wet.Ok? && s1 == s
    ensures dry.Ok? ==> forall k :: k in dry.value.sweptKeys <==> k in s && k !in s2
  {
    hide Live, AllReadable, Unreadable, SumSizes;
  }

  // ---- conservation ----

  /** All the bytes a store holds. */
  ghost function StoreSize(s: Store): nat
    decreases |s|
  {
    if s == map[] then 0
    else
      var k :| k in s;
      assert |s - {k}| < |s| by { Smaller(s, k); }
      |s[k]| + StoreSize(s - {k})
  }

  lemma Smaller(s: Store, k: Key)
    requires k in s
    ensures |s - {k}| < |s|
  {
    var t := s - {k};
    assert t.Keys == s.Keys - {k};
    assert |t| == |t.Keys| && |s| == |s.Keys|;
  }

  /** In whatever order the keys are taken. */
  lemma {:induction false} SizeWithout(s: Store, k: Key)
    requires k in s
    ensures StoreSize(s) == |s[k]| + StoreSize(s - {k})
    decreases |s|
  {
    var j :| j in s && StoreSize(s) == |s[j]| + StoreSize(s - {j});
    if j != k {
      Smaller(s, j);
      Smaller(s, k);
      SizeWithout(s - {j}, k);
      SizeWithout(s - {k}, j);
      assert s - {j} - {k} == s - {k} - {j};
    }
  }

  lemma {:induction false} SizeWithoutAll(s: Store, ks: seq<Key>)
    requires Distinct(ks) && forall k | k in ks :: k in s
    ensures StoreSize(s) == StoreSize(s - (set k | k in ks)) + SumSizes(s, ks)
    decreases |ks|
  {
    if ks == [] {
      assert s - (set k | k in ks) == s;
    } else {
      var n := |ks| - 1;
      var front, x := ks[..n], ks[n];
      assert forall k | k in front :: k in ks;
      SizeWithoutAll(s, front);
      var gone := set k | k in front;
      assert x !in front;
      SizeWithout(s - gone, x);
      assert ks == front + [x];
      assert (set k | k in ks) == gone + {x};
      assert s - gone - {x} == s - (gone + {x});
    }
  }

  /** What a collection says it swept is exactly what the store lost, to the byte; nothing if it was dry or failed. */
  lemma GcConserves(c: Codec, s: Store, s': Store, revisions: seq<string>, dryRun: bool,
                    r: Result<GcStats, seq<Bytes>>)
    requires GcStep(c, s, s', revisions, dryRun, r)
    ensures StoreSize(s) == StoreSize(s') + if r.Ok? && !dryRun then r.value.bytesSwept else 0
  {
    hide Live, AllReadable, Unreadable, SumSizes, Counts, NoneMissed, StoreSize;
    if r.Ok? && !dryRun {
      var ks := r.value.sweptKeys;
      SizeWithoutAll(s, ks);
      assert s' == s - (set k | k in ks);
    }
  }
}
