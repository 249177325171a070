/** The table of named objects as a map, and what the array operations do to that map. */
module ExecutorTable {
  import opened Common
  import opened ExecutorOid

  datatype MemObj = MemObj(oid: string, value: Bytes)

  type Table = map<string, Bytes>

  ghost predicate DistinctOids(s: seq<MemObj>) {
    forall i, j | 0 <= i < j < |s| :: s[i].oid != s[j].oid
  }

  function ToMap(s: seq<MemObj>): Table {
    if s == [] then map[] else ToMap(s[..|s| - 1])[s[|s| - 1].oid := s[|s| - 1].value]
  }

  ghost predicate Named(s: seq<MemObj>, oid: string) {
    exists i :: 0 <= i < |s| && s[i].oid == oid
  }

  /** `t` has exactly the objects of `s`. */
  ghost predicate Holds(s: seq<MemObj>, t: Table) {
    && (forall i | 0 <= i < |s| :: s[i].oid in t && t[s[i].oid] == s[i].value)
    && (forall o | o in t :: Named(s, o))
  }

  lemma {:induction false} ToMapHolds(s: seq<MemObj>)
    requires DistinctOids(s)
    ensures Holds(s, ToMap(s)) && |ToMap(s)| == |s|
  {
    if s != [] {
      var n := |s| - 1;
      var rest := s[..n];
      ToMapHolds(rest);
      assert !Named(rest, s[n].oid);
      forall o | o in ToMap(s) ensures Named(s, o) {
        if o == s[n].oid { assert s[n].oid == o; } else {
          assert Named(rest, o);
          var i :| 0 <= i < n && rest[i].oid == o;
          assert s[i].oid == o;
        }
      }
      assert forall i | 0 <= i < n :: s[i] == rest[i];
    }
  }

  lemma HoldsUnique(s: seq<MemObj>, t: Table)
    requires DistinctOids(s) && Holds(s, t)
    ensures ToMap(s) == t
  {
    hide ToMap;
    ToMapHolds(s);
    forall o | o in t ensures o in ToMap(s) && ToMap(s)[o] == t[o] {
      assert Named(s, o);
    }
    forall o | o in ToMap(s) ensures o in t {
      assert Named(s, o);
    }
  }

  /** An object not in the table goes at the end. */
  lemma AppendHolds(s: seq<MemObj>, x: MemObj)
    requires DistinctOids(s) && !Named(s, x.oid)
    ensures DistinctOids(s + [x]) && ToMap(s + [x]) == ToMap(s)[x.oid := x.value]
  {
    assert (s + [x])[..|s|] == s;
  }

  lemma OverwriteHolds(s: seq<MemObj>, i: nat, v: Bytes)
    requires DistinctOids(s) && i < |s|
    ensures DistinctOids(s[i := s[i].(value := v)])
    ensures ToMap(s[i := s[i].(value := v)]) == ToMap(s)[s[i].oid := v]
  {
    hide ToMap;
    var r := s[i := s[i].(value := v)];
    ToMapHolds(s);
    var t := ToMap(s)[s[i].oid := v];
    forall o | o in t ensures Named(r, o) {
      assert Named(s, o);
      var k :| 0 <= k < |s| && s[k].oid == o;
      assert r[k].oid == o;
    }
    HoldsUnique(r, t);
  }

  /** Moving the last object into the hole removes exactly the object that was there. */
  lemma TailSwapHolds(s: seq<MemObj>, i: nat)
    requires DistinctOids(s) && i < |s|
    ensures var r := s[i := s[|s| - 1]][..|s| - 1]; DistinctOids(r) && ToMap(r) == ToMap(s) - {s[i].oid}
  {
    hide ToMap;
    var n := |s| - 1;
    var r := s[i := s[n]][..n];
    ToMapHolds(s);
    var t := ToMap(s) - {s[i].oid};
    forall o | o in t ensures Named(r, o) {
      assert Named(s, o);
      var k :| 0 <= k < |s| && s[k].oid == o;
      if k == n { assert r[i].oid == o; } else { assert r[k].oid == o; }
    }
    HoldsUnique(r, t);
  }

  /** Exchanging two objects changes nothing the map can see. */
  lemma SwapHolds(s: seq<MemObj>, i: nat, j: nat)
    requires DistinctOids(s) && i < j < |s|
    ensures var r := s[i := s[j]][j := s[i]]; DistinctOids(r) && ToMap(r) == ToMap(s)
  {
    hide ToMap, Named;
    var r := s[i := s[j]][j := s[i]];
    ToMapHolds(s);
    forall o | o in ToMap(s) ensures Named(r, o) { SwapNamed(s, i, j, o); }
    SwapDistinct(s, i, j);
    HoldsUnique(r, ToMap(s));
  }

  lemma SwapNamed(s: seq<MemObj>, i: nat, j: nat, o: string)
    requires i < j < |s| && Named(s, o)
    ensures Named(s[i := s[j]][j := s[i]], o)
  {
    var r := s[i := s[j]][j := s[i]];
    var k :| 0 <= k < |s| && s[k].oid == o;
    if k == i { assert r[j].oid == o; } else if k == j { assert r[i].oid == o; } else { assert r[k].oid == o; }
  }

  lemma SwapDistinct(s: seq<MemObj>, i: nat, j: nat)
    requires DistinctOids(s) && i < j < |s|
    ensures DistinctOids(s[i := s[j]][j := s[i]])
  {
  }

  // ---- sets of keys in byte order ----

  ghost predicate Ascending(ks: seq<Bytes>) {
    forall i, j | 0 <= i < j < |ks| :: Before(ks[i], ks[j])
  }

  ghost predicate IsLeast(k: Bytes, s: set<Bytes>) {
    k in s && forall j | j in s :: j == k || Before(k, j)
  }

  lemma {:induction false} LeastExists(s: set<Bytes>)
    requires s != {}
    ensures exists k :: IsLeast(k, s)
    decreases |s|
  {
    hide Before;
    var x :| x in s;
    var rest := s - {x};
    if rest == {} {
      assert forall j | j in s :: j == x || j in rest;
      assert IsLeast(x, s);
    } else {
      LeastExists(rest);
      var k :| IsLeast(k, rest);
      OrderTotal(x, k);
      if Before(x, k) {
        forall j | j in s ensures j == x || Before(x, j) {
          if j != x && j != k { OrderTransitive(x, k, j); }
        }
        assert IsLeast(x, s);
      } else {
        assert IsLeast(k, s);
      }
    }
  }

  /** The keys of a set, least first. */
  ghost function Sorted(s: set<Bytes>): seq<Bytes>
    decreases |s|
  {
    if s == {} then []
    else
      LeastExists(s);
      var k :| IsLeast(k, s);
      [k] + Sorted(s - {k})
  }

  ghost function Elements(ks: seq<Bytes>): set<Bytes> {
    set k | k in ks
  }

  lemma BeforeItself(k: Bytes)
    ensures !Before(k, k)
  {
    OrderTotal(k, k);
  }

  lemma AscendingCons(k: Bytes, rest: seq<Bytes>)
    requires Ascending(rest) && forall j | j in Elements(rest) :: Before(k, j)
    ensures Ascending([k] + rest) && Elements([k] + rest) == {k} + Elements(rest)
  {
    hide Before;
    var ks := [k] + rest;
    forall i, j | 0 <= i < j < |ks| ensures Before(ks[i], ks[j]) {
      assert ks[j] == rest[j - 1] && ks[j] in Elements(rest);
      if i > 0 { assert ks[i] == rest[i - 1]; }
    }
  }

  lemma {:induction false} SortedIsSorted(s: set<Bytes>)
    ensures Ascending(Sorted(s)) && Elements(Sorted(s)) == s
    decreases |s|
  {
    hide Before;
    if s != {} {
      LeastExists(s);
      var k := Sorted(s)[0];
      assert IsLeast(k, s) && Sorted(s) == [k] + Sorted(s - {k});
      SortedIsSorted(s - {k});
      AscendingCons(k, Sorted(s - {k}));
    }
  }

  /** An ascending sequence is determined by its elements. */
  lemma {:induction false} AscendingUnique(a: seq<Bytes>, b: seq<Bytes>)
    requires Ascending(a) && Ascending(b) && Elements(a) == Elements(b)
    ensures a == b
    decreases |a|
  {
    hide Before;
    EmptyElements(a);
    EmptyElements(b);
    if a != [] {
      FirstIsLeast(a);
      FirstIsLeast(b);
      OrderTotal(a[0], b[0]);
      ElementsTail(a);
      ElementsTail(b);
      AscendingUnique(a[1..], b[1..]);
      assert a == [a[0]] + a[1..] && b == [b[0]] + b[1..];
    }
  }

  lemma EmptyElements(a: seq<Bytes>)
    ensures Elements(a) == {} <==> a == []
  {
    if a != [] { assert a[0] in Elements(a); }
  }

  lemma FirstIsLeast(a: seq<Bytes>)
    requires Ascending(a) && a != []
    ensures IsLeast(a[0], Elements(a))
  {
    hide Before;
    forall j | j in Elements(a) ensures j == a[0] || Before(a[0], j) {
      var i :| 0 <= i < |a| && a[i] == j;
    }
  }

  lemma ElementsTail(a: seq<Bytes>)
    requires Ascending(a) && a != []
    ensures Ascending(a[1..]) && Elements(a[1..]) == Elements(a) - {a[0]}
  {
    hide Before;
    forall k | k in Elements(a[1..]) ensures k in Elements(a) && k != a[0] {
      var i :| 0 <= i < |a[1..]| && a[1..][i] == k;
      assert Before(a[0], a[i + 1]);
      BeforeItself(a[0]);
    }
    forall k | k in Elements(a) - {a[0]} ensures k in Elements(a[1..]) {
      var i :| 0 <= i < |a| && a[i] == k;
      assert a[1..][i - 1] == k;
    }
  }
}
