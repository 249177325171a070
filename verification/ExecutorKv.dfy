/** What the KV verbs answer, as functions of the table, and the laws those answers obey. */
module ExecutorKv {
  import opened Common
  import opened ExecutorOid
  import opened LittleEndian
  import opened ExecutorList
  import opened ExecutorTable

  const MEM_MAX_OBJS: nat := 64
  const UINT32_MAX: nat := 0xffff_ffff

  datatype Verb = Retrieve | Store | Delete | Exist | List | Unknown

  /** A value that arrived, or a length whose bytes never did. */
  datatype Payload = Missing(len: nat) | Given(bytes: Bytes)

  datatype KvIn = KvIn(verb: Verb, key: Bytes, osize: nat, readOnly: bool, ifExists: bool, ifAbsent: bool,
    value: Payload)

  /** Which of the allocations a request may need succeed. */
  datatype Alloc = Alloc(copy: bool, result: bool, listing: bool)

  function Bare(status: Status): ExecResult {
    ExecResult(status, 0, [])
  }

  function Payloaded(value: Payload): (b: Bytes)
    ensures value == Given(b) || (value.Missing? && b == [])
  {
    if value.Given? then value.bytes else []
  }

  /** Hand over a value: true length (capped at 32 bits), as many bytes as the caller has room for. */
  function Deliver(v: Bytes, osize: nat, ok: bool): ExecResult {
    var len := Min(|v|, UINT32_MAX);
    var deliver := Min(osize, len);
    var status := if len > osize then BUFFER_TOO_SMALL else SUCCESS;
    if deliver == 0 then ExecResult(status, len, [])
    else if ok then ExecResult(status, len, v[..deliver])
    else Bare(NOMEM)
  }

  function StoreStatus(t: Table, input: KvIn, alloc: Alloc): Status {
    var present := Oid(input.key) in t;
    if input.readOnly then READ_ONLY
    else if input.value.Missing? && input.value.len > 0 then NOT_SUPPORTED
    else if input.ifAbsent && present then KEY_EXIST
    else if input.ifExists && !present then KEY_NOT_EXIST
    else if !alloc.copy then FAILED
    else if !present && |t| >= MEM_MAX_OBJS then NOMEM
    else SUCCESS
  }

  function DeleteStatus(t: Table, input: KvIn): Status {
    if input.readOnly then READ_ONLY else if Oid(input.key) in t then SUCCESS else KEY_NOT_EXIST
  }

  /** The keys a table holds at or after a start key. */
  ghost function KeysFrom(t: Table, start: Bytes): set<Bytes> {
    set o | o in t && KeyOf(o).Some? && !Before(KeyOf(o).value, start) :: KeyOf(o).value
  }

  ghost function Listed(t: Table, start: Bytes): (ks: seq<Bytes>)
    ensures Ascending(ks) && Sized(ks)
    ensures forall k :: k in ks <==> 1 <= |k| <= KEY_MAX_LEN && Oid(k) in t && !Before(k, start)
  {
    var s := KeysFrom(t, start);
    SortedIsSorted(s);
    KeysFromExact(t, start);
    InSorted(s);
    Sorted(s)
  }

  lemma InSorted(s: set<Bytes>)
    ensures forall k :: k in Sorted(s) <==> k in s
  {
    SortedIsSorted(s);
    forall k ensures k in Sorted(s) <==> k in s {
      assert k in Sorted(s) <==> k in Elements(Sorted(s));
    }
  }

  lemma KeyOfExact(oid: string)
    ensures KeyOf(oid).Some? ==> 1 <= |KeyOf(oid).value| <= KEY_MAX_LEN && oid == Oid(KeyOf(oid).value)
  {
    if KeyOf(oid).Some? { OidOfBytes(oid); }
  }

  lemma KeysFromExact(t: Table, start: Bytes)
    ensures forall k :: k in KeysFrom(t, start) <==> 1 <= |k| <= KEY_MAX_LEN && Oid(k) in t && !Before(k, start)
  {
    hide Before, KeyOf, Oid;
    forall k ensures k in KeysFrom(t, start) <==> 1 <= |k| <= KEY_MAX_LEN && Oid(k) in t && !Before(k, start) {
      if k in KeysFrom(t, start) {
        var o :| o in t && KeyOf(o) == Some(k) && !Before(k, start);
        KeyOfExact(o);
      }
      if 1 <= |k| <= KEY_MAX_LEN { OidRoundTrip(k, Oid(k)); }
    }
  }

  ghost function ListAnswer(t: Table, start: Bytes, osize: nat, ok: bool): ExecResult {
    var ks := Listed(t, start);
    var cap := if osize > NRK_SIZE then osize else NRK_SIZE;
    if !ok then Bare(NOMEM)
    else ExecResult(if FullLength(ks) > osize then BUFFER_TOO_SMALL else SUCCESS, FullLength(ks),
                    Listing(ks[..FitCount(ks, cap)]))
  }

  ghost function Answer(t: Table, input: KvIn, alloc: Alloc): ExecResult {
    if input.verb.List? then ListAnswer(t, input.key, input.osize, alloc.listing)
    else if input.verb.Unknown? || input.key == [] then Bare(INVALID)
    else match input.verb
      case Retrieve =>
        if Oid(input.key) in t then Deliver(t[Oid(input.key)], input.osize, alloc.result) else Bare(KEY_NOT_EXIST)
      case Store => Bare(StoreStatus(t, input, alloc))
      case Delete => Bare(DeleteStatus(t, input))
      case Exist =>
        if Oid(input.key) in t then ExecResult(SUCCESS, Min(|t[Oid(input.key)]|, UINT32_MAX), [])
          else Bare(KEY_NOT_EXIST)
      case _ => Bare(INVALID)
  }

  ghost function After(t: Table, input: KvIn, alloc: Alloc): Table {
    if input.key == [] then t
    else if input.verb.Store?
      && StoreStatus(t, input, alloc) == SUCCESS then t[Oid(input.key) := Payloaded(input.value)]
    else if input.verb.Delete? && DeleteStatus(t, input) == SUCCESS then t - {Oid(input.key)}
    else t
  }

  // ---- runs ----

  type Request = (KvIn, Alloc)

  ghost function TableAfter(run: seq<Request>): Table {
    if run == [] then map[] else
      var last := run[|run| - 1];
      After(TableAfter(run[..|run| - 1]), last.0, last.1)
  }

  ghost function AnswerAt(run: seq<Request>, i: nat): ExecResult
    requires i < |run|
  {
    Answer(TableAfter(run[..i]), run[i].0, run[i].1)
  }

  /** The value last stored under a key and not deleted since, going only by what was asked and answered. */
  ghost function LastWritten(run: seq<Request>, key: Bytes): Option<Bytes> {
    if run == [] then None
    else
      var i := |run| - 1;
      var input := run[i].0;
      if input.key == key && AnswerAt(run, i).status == SUCCESS && input.verb.Store? then Some(Payloaded(input.value))
      else if input.key == key && AnswerAt(run, i).status == SUCCESS && input.verb.Delete? then None
      else LastWritten(run[..i], key)
  }

  lemma OidsDiffer(a: Bytes, b: Bytes)
    requires Oid(a) == Oid(b)
    ensures a == b
  {
    BytesOfOid(a);
    BytesOfOid(b);
  }

  /** The table holds, under each key, what was last written there; the requests' own answers tell. */
  lemma {:induction false} LastWriteWins(run: seq<Request>, key: Bytes)
    requires key != []
    ensures (Oid(key) in TableAfter(run)) == LastWritten(run, key).Some?
    ensures Oid(key) in TableAfter(run) ==> TableAfter(run)[Oid(key)] == LastWritten(run, key).value
    decreases |run|
  {
    hide Oid, Listed, FitCount, FullLength, Deliver;
    if run != [] {
      var i := |run| - 1;
      LastWriteWins(run[..i], key);
      if Oid(run[i].0.key) == Oid(key) { OidsDiffer(run[i].0.key, key); }
    }
  }

  /** The value whole, or its longest prefix that fits, with its true length. */
  ghost predicate HandsOver(r: ExecResult, v: Bytes, osize: nat) {
    && (|v| <= UINT32_MAX ==> r.resultLen == |v| && (r.status == SUCCESS <==> |v| <= osize))
    && r.buf <= v && |r.buf| <= osize
    && (r.status == SUCCESS && |v| <= UINT32_MAX ==> r.buf == v)
    && (r.status == BUFFER_TOO_SMALL ==> |r.buf| == osize < |v|)
    && (r.status == SUCCESS || r.status == BUFFER_TOO_SMALL)
  }

  /**
   * Retrieve answers a run's last write: absent, whole, or its longest prefix that fits, with its true
   * length. Only a copy that cannot be made is refused.
   */
  lemma RetrieveReadsBack(run: seq<Request>, input: KvIn, alloc: Alloc)
    requires input.verb.Retrieve? && input.key != []
    ensures var r := Answer(TableAfter(run), input, alloc);
            match LastWritten(run, input.key)
            case None => r == Bare(KEY_NOT_EXIST)
            case Some(v) =>
              if !alloc.result && v != [] && input.osize > 0 then r == Bare(NOMEM) else HandsOver(r, v, input.osize)
  {
    hide Oid, Listed, FitCount, FullLength;
    LastWriteWins(run, input.key);
  }

  // ---- the answers against the history ----

  /** The keys that hold something after a run. */
  ghost function HeldKeys(run: seq<Request>): set<Bytes> {
    set q | q in run && q.0.key != [] && LastWritten(run, q.0.key).Some? :: q.0.key
  }

  lemma {:induction false} WrittenWasAsked(run: seq<Request>, key: Bytes)
    requires LastWritten(run, key).Some?
    ensures exists q :: q in run && q.0.key == key
    decreases |run|
  {
    hide Answer;
    var i := |run| - 1;
    if run[i].0.key == key {
      assert run[i] in run;
    } else {
      WrittenWasAsked(run[..i], key);
      var q :| q in run[..i] && q.0.key == key;
      assert q in run;
    }
  }

  lemma {:induction false} ObjectsAreSpelled(run: seq<Request>, oid: string)
    requires oid in TableAfter(run)
    ensures exists k :: k != [] && oid == Oid(k)
    decreases |run|
  {
    hide Oid, StoreStatus, DeleteStatus;
    var i := |run| - 1;
    if oid in TableAfter(run[..i]) {
      ObjectsAreSpelled(run[..i], oid);
    } else {
      assert run[i].0.key != [] && oid == Oid(run[i].0.key);
    }
  }

  ghost function Spelled(ks: set<Bytes>): set<string> {
    set k | k in ks :: Oid(k)
  }

  lemma {:induction false} SpelledCount(ks: set<Bytes>)
    ensures |Spelled(ks)| == |ks|
    decreases |ks|
  {
    hide Oid;
    if ks != {} {
      var x :| x in ks;
      var rest := ks - {x};
      SpelledCount(rest);
      forall k | k in rest ensures Oid(k) != Oid(x) { if Oid(k) == Oid(x) { OidsDiffer(k, x); } }
      assert Oid(x) !in Spelled(rest);
      assert Spelled(ks) == Spelled(rest) + {Oid(x)};
    }
  }

  /** As many objects as keys that hold something. */
  lemma HeldKeysExact(run: seq<Request>)
    ensures forall k :: k in HeldKeys(run) <==> k != [] && LastWritten(run, k).Some?
    ensures |HeldKeys(run)| == |TableAfter(run)|
  {
    hide Oid, LastWritten, TableAfter;
    var t, ks := TableAfter(run), HeldKeys(run);
    forall k | k != [] ensures Oid(k) in t <==> LastWritten(run, k).Some? { LastWriteWins(run, k); }
    forall k | k != [] && LastWritten(run, k).Some? ensures k in ks {
      WrittenWasAsked(run, k);
      var q :| q in run && q.0.key == k;
    }
    forall o | o in t ensures o in Spelled(ks) {
      ObjectsAreSpelled(run, o);
      var k :| k != [] && o == Oid(k);
      assert k in ks;
    }
    assert Spelled(ks) == t.Keys;
    SpelledCount(ks);
    Keys(t);
  }

  /** Success with the value's length, which is capped at 32 bits, and no bytes. */
  ghost predicate SaysLength(r: ExecResult, v: Bytes) {
    && r.status == SUCCESS && r.buf == []
    && r.resultLen == if |v| <= UINT32_MAX then |v| else UINT32_MAX
  }

  /** A Store is answered by what its key holds: the conditions first, then memory, then space for a new key. */
  ghost predicate StoreAnswered(status: Status, input: KvIn, alloc: Alloc, held: Option<Bytes>, heldKeys: nat) {
    if input.readOnly then status == READ_ONLY
    else if input.value.Missing? && input.value.len > 0 then status == NOT_SUPPORTED
    else
      && (status == KEY_EXIST <==> input.ifAbsent && held.Some?)
      && (status == KEY_NOT_EXIST <==> input.ifExists && held.None?)
      && (!(input.ifAbsent && held.Some?) && !(input.ifExists && held.None?) ==>
            && (status == FAILED <==> !alloc.copy)
            && (status == NOMEM <==> alloc.copy && held.None? && heldKeys == MEM_MAX_OBJS)
            && (status == SUCCESS <==> alloc.copy && (held.Some? || heldKeys < MEM_MAX_OBJS)))
  }

  /**
   * After any run every verb answers by its own fields and by what its key last held: read-only forbids
   * both mutations, a Delete succeeds exactly on a key that holds something, Exist reports its length,
   * and an overwrite is never refused for space.
   */
  lemma VerbsFollowHistory(run: seq<Request>, input: KvIn, alloc: Alloc)
    ensures var r, held := Answer(TableAfter(run), input, alloc), LastWritten(run, input.key);
            if input.verb.List? then !alloc.listing ==> r == Bare(NOMEM)
            else if input.verb.Unknown? || input.key == [] then r == Bare(INVALID)
            else match input.verb
              case Store => r == Bare(r.status) && StoreAnswered(r.status, input, alloc, held, |HeldKeys(run)|)
              case Delete =>
                r == Bare(if input.readOnly then READ_ONLY else if held.Some? then SUCCESS else KEY_NOT_EXIST)
              case Exist =>
                if held.None? then r == Bare(KEY_NOT_EXIST) else SaysLength(r, held.value)
              case _ => held.None? ==> r == Bare(KEY_NOT_EXIST)
  {
    hide Oid, Listed, FitCount, FullLength, Deliver;
    HeldKeysExact(run);
    TableStaysSmall(run);
    if input.key != [] { LastWriteWins(run, input.key); }
    hide LastWritten, TableAfter, HeldKeys;
  }

  /** A request without success, and one of another key, leaves what a key holds. */
  lemma ChangesByWrites(run: seq<Request>, input: KvIn, alloc: Alloc, k: Bytes)
    ensures LastWritten(run + [(input, alloc)], k) ==
            if k != input.key || Answer(TableAfter(run), input, alloc).status != SUCCESS then LastWritten(run, k)
            else if input.verb.Store? then Some(Payloaded(input.value))
            else if input.verb.Delete? then None else LastWritten(run, k)
  {
    hide Oid, Answer;
    assert (run + [(input, alloc)])[..|run|] == run;
  }

  /** Requests that do not report success change nothing, and the table never outgrows its array. */
  lemma {:induction false} TableStaysSmall(run: seq<Request>)
    ensures |TableAfter(run)| <= MEM_MAX_OBJS
    ensures run != [] && AnswerAt(run, |run| - 1).status != SUCCESS ==> TableAfter(run) == TableAfter(run[..|run| - 1])
    decreases |run|
  {
    hide Oid, Listed, FitCount, FullLength, Deliver;
    if run != [] {
      var i := |run| - 1;
      TableStaysSmall(run[..i]);
      var t, k := TableAfter(run[..i]), Oid(run[i].0.key);
      Sizes(t, k, Payloaded(run[i].0.value));
    }
  }

  lemma Sizes(t: Table, k: string, v: Bytes)
    ensures |t[k := v]| == (if k in t then |t| else |t| + 1) && |t - {k}| <= |t|
  {
    assert t[k := v].Keys == t.Keys + {k};
    assert (t - {k}).Keys == t.Keys - {k};
    Keys(t);
    Keys(t[k := v]);
    Keys(t - {k});
  }

  lemma Keys(t: Table)
    ensures |t.Keys| == |t|
  {
  }

  // ---- the listing ----

  /**
   * A reader of the returned table finds the longest prefix that fits of all keys at or after the
   * start key in byte order; the reported length is that of the complete listing; and
   * BUFFER_TOO_SMALL says exactly that a key was left out.
   */
  lemma ListReadsBack(t: Table, start: Bytes, osize: nat)
    requires NRK_SIZE <= osize <= UINT32_MAX
    ensures var r, ks := ListAnswer(t, start, osize, true), Listed(t, start);
            var n := FitCount(ks, osize);
            && ReadListing(r.buf) == Some(ks[..n])
            && |r.buf| <= osize
            && (forall j | n < j <= |ks| :: |Listing(ks[..j])| > osize)
            && r.resultLen == |Listing(ks)|
            && (r.status == BUFFER_TOO_SMALL <==> n < |ks|)
            && (r.status == SUCCESS <==> n == |ks|)
  {
    hide Listed, Before, Oid, FitCount, FullLength, Listing, ReadListing;
    var ks := Listed(t, start);
    var n := FitCount(ks, osize);
    FitCountIsLongest(ks, osize);
    ListingLength(ks);
    ListingLength(ks[..n]);
    ListingRoundTrip(ks[..n]);
    forall j | n < j <= |ks| ensures |Listing(ks[..j])| > osize { ListingLength(ks[..j]); }
  }

  /** The keys a run's listing shows are those that hold something, from the start key on. */
  lemma ListShowsHistory(run: seq<Request>, start: Bytes)
    ensures forall k :: k in Listed(TableAfter(run), start) <==>
                        1 <= |k| <= KEY_MAX_LEN && LastWritten(run, k).Some? && !Before(k, start)
  {
    hide Oid, Before, LastWritten, TableAfter;
    forall k | k != [] ensures Oid(k) in TableAfter(run) <==> LastWritten(run, k).Some? { LastWriteWins(run, k); }
  }

  /** Below four bytes of room the header alone is delivered, more than the caller asked for. */
  lemma ListFitsExact(t: Table, start: Bytes, osize: nat)
    ensures var r, ks := ListAnswer(t, start, osize, true), Listed(t, start);
            && (|r.buf| <= osize <==> osize >= NRK_SIZE)
            && (osize < NRK_SIZE ==> r.buf == U32(0) && r.status == BUFFER_TOO_SMALL)
  {
    hide Listed, Before, Oid, FitCount, FullLength, Listing, ReadListing, U32;
    var ks := Listed(t, start);
    var cap := if osize > NRK_SIZE then osize else NRK_SIZE;
    var n := FitCount(ks, cap);
    FitCountIsLongest(ks, cap);
    ListingLength(ks);
    ListingLength(ks[..n]);
    if osize < NRK_SIZE {
      assert n == 0 && ks[..n] == [];
      EmptyListing();
    }
  }

  lemma EmptyListing()
    ensures Listing([]) == U32(0)
  {
  }

  /** So the too-small status means a key was left out, except for an empty listing and no room for its header. */
  lemma TooSmallExact(t: Table, start: Bytes, osize: nat)
    ensures var r, ks := ListAnswer(t, start, osize, true), Listed(t, start);
            var n := FitCount(ks, if osize > NRK_SIZE then osize else NRK_SIZE);
            (r.status == BUFFER_TOO_SMALL <==> n < |ks|) <==> (osize >= NRK_SIZE || ks != [])
  {
    hide Listed, Before, Oid, FitCount, FullLength, Listing, ReadListing;
    var ks := Listed(t, start);
    var cap := if osize > NRK_SIZE then osize else NRK_SIZE;
    FitCountIsLongest(ks, cap);
    ListingLength(ks);
    ListingLength(ks[..FitCount(ks, cap)]);
  }
}
