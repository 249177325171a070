/** The pool backend behind a read cache: the cache can hide a fault but never change an answer. */
module ExecutorCache {
  import opened Common
  import opened ExecutorOid
  import opened ExecutorTable
  import opened ExecutorKv

  /**
   * What the object store, the cache and the allocator do during one request. A write that fails may
   * still have been applied; a fill may succeed and its entry be lost again before it is pinned; any
   * other entries may be evicted at any request.
   */
  datatype Env = Env(statFails: bool, fills: bool, pinLost: bool, readFails: bool, resultOk: bool,
                     opOk: bool, writeFails: bool, applied: bool, evicted: set<string>)

  /** Stat, then read as many bytes as are wanted. */
  function Direct(pool: Table, oid: string, osize: nat, env: Env): ExecResult {
    if env.statFails then Bare(FAILED)
    else if oid !in pool then Bare(KEY_NOT_EXIST)
    else if Min(osize, Min(|pool[oid]|, UINT32_MAX)) > 0 && env.resultOk && env.readFails then Bare(FAILED)
    else Deliver(pool[oid], osize, env.resultOk)
  }

  function Conditional(input: KvIn): bool {
    input.ifAbsent || input.ifExists
  }

  /** The status of a write to the pool; create-exclusive wins when both conditions are asked for. */
  function PoolStoreStatus(pool: Table, input: KvIn, env: Env): Status {
    var present := Oid(input.key) in pool;
    if input.readOnly then READ_ONLY
    else if input.value.Missing? && input.value.len > 0 then NOT_SUPPORTED
    else if Conditional(input) && !env.opOk then NOMEM
    else if input.ifAbsent && present then KEY_EXIST
    else if !input.ifAbsent && input.ifExists && !present then KEY_NOT_EXIST
    else if env.writeFails then FAILED
    else SUCCESS
  }

  function PoolDeleteStatus(pool: Table, input: KvIn, env: Env): Status {
    if input.readOnly then READ_ONLY
    else if Oid(input.key) !in pool then KEY_NOT_EXIST
    else if env.writeFails then FAILED
    else SUCCESS
  }

  predicate Lands(status: Status, env: Env) {
    status == SUCCESS || (status == FAILED && env.applied)
  }

  /** The answers of an executor without a cache. */
  function PoolAnswer(pool: Table, input: KvIn, env: Env): ExecResult {
    if input.key == [] then Bare(INVALID)
    else match input.verb
      case Retrieve => Direct(pool, Oid(input.key), input.osize, env)
      case Store => Bare(PoolStoreStatus(pool, input, env))
      case Delete => Bare(PoolDeleteStatus(pool, input, env))
      case Exist =>
        if env.statFails then Bare(FAILED)
        else if Oid(input.key) !in pool then Bare(KEY_NOT_EXIST)
        else ExecResult(SUCCESS, Min(|pool[Oid(input.key)]|, UINT32_MAX), [])
      case _ => Bare(INVALID)
  }

  function PoolAfter(pool: Table, input: KvIn, env: Env): Table {
    if input.key == [] then pool
    else if input.verb.Store?
      && Lands(PoolStoreStatus(pool, input, env), env) then pool[Oid(input.key) := Payloaded(input.value)]
    else if input.verb.Delete? && Lands(PoolDeleteStatus(pool, input, env), env) then pool - {Oid(input.key)}
    else pool
  }

  /** The same answer, or the answer the request would have had without its read faults. */
  ghost predicate Agrees(r: ExecResult, pool: Table, input: KvIn, env: Env) {
    || r == PoolAnswer(pool, input, env)
    || (input.verb.Retrieve? && r == PoolAnswer(pool, input, env.(statFails := false, readFails := false)))
  }

  type Op = (KvIn, Env)

  ghost function PoolRun(start: Table, run: seq<Op>): Table {
    if run == [] then start
    else PoolAfter(PoolRun(start, run[..|run| - 1]), run[|run| - 1].0, run[|run| - 1].1)
  }

  lemma PoolRunEmpty(start: Table, run: seq<Op>)
    ensures PoolRun(start, run[..0]) == start
  {
  }

  lemma PoolRunStep(start: Table, run: seq<Op>, i: nat)
    requires i < |run|
    ensures PoolRun(start, run[..i + 1]) == PoolAfter(PoolRun(start, run[..i]), run[i].0, run[i].1)
  {
    assert run[..i + 1][..i] == run[..i];
  }

  ghost predicate Coherent(cache: Table, pool: Table) {
    forall o | o in cache :: o in pool && cache[o] == pool[o]
  }

  class CachedBackend {
    var pool: Table
    var cache: Table

    ghost predicate Valid()
      reads this
    {
      Coherent(cache, pool)
    }

    constructor (objects: Table)
      ensures Valid() && pool == objects && cache == map[]
    {
      pool, cache := objects, map[];
    }

    method Invalidate(oid: string)
      requires Valid()
      modifies this`cache
      ensures Valid() && oid !in cache
    {
      cache := cache - {oid};
    }

    /** Entries may leave the cache at any time. */
    method Evict(oids: set<string>)
      requires Valid()
      modifies this`cache
      ensures Valid() && forall o | o in oids :: o !in cache
    {
      cache := cache - oids;
    }

    method Retrieve(oid: string, input: KvIn, env: Env) returns (r: ExecResult)
      requires Valid()
      modifies this`cache
      ensures Valid()
      ensures r == Direct(pool, oid, input.osize, env)
          || r == Direct(pool, oid, input.osize, env.(statFails := false, readFails := false))
      ensures oid in old(cache) ==> r == Direct(pool, oid, input.osize, env.(statFails := false, readFails := false))
    {
      if oid in cache { return Deliver(cache[oid], input.osize, env.resultOk); }
      if env.statFails { return Bare(FAILED); }
      if oid !in pool { return Bare(KEY_NOT_EXIST); }
      if env.fills {
        cache := cache[oid := pool[oid]];
        if env.pinLost {
          Invalidate(oid);
        } else {
          return Deliver(cache[oid], input.osize, env.resultOk);
        }
      }
      var len := Min(|pool[oid]|, UINT32_MAX);
      var deliver := Min(input.osize, len);
      var status := if len > input.osize then BUFFER_TOO_SMALL else SUCCESS;
      if deliver == 0 { return ExecResult(status, len, []); }
      if !env.resultOk { return Bare(NOMEM); }
      if env.readFails { return Bare(FAILED); }
      return ExecResult(status, len, pool[oid][..deliver]);
    }

    method Store(oid: string, input: KvIn, env: Env) returns (r: ExecResult)
      requires Valid() && oid == Oid(input.key)
      modifies this
      ensures Valid() && r == Bare(PoolStoreStatus(old(pool), input, env))
      ensures pool == if Lands(r.status, env) then old(pool)[oid := Payloaded(input.value)] else old(pool)
      ensures !input.readOnly && !(input.value.Missing? && input.value.len > 0) ==> oid !in cache
    {
      if input.readOnly { return Bare(READ_ONLY); }
      if input.value.Missing? && input.value.len > 0 { return Bare(NOT_SUPPORTED); }
      Invalidate(oid);
      if input.ifAbsent || input.ifExists {
        if !env.opOk { return Bare(NOMEM); }
        if input.ifAbsent {
          if oid in pool { return Bare(KEY_EXIST); }
        } else if oid !in pool {
          return Bare(KEY_NOT_EXIST);
        }
      }
      if !env.writeFails || env.applied { pool := pool[oid := Payloaded(input.value)]; }
      return Bare(if env.writeFails then FAILED else SUCCESS);
    }

    method Delete(oid: string, input: KvIn, env: Env) returns (r: ExecResult)
      requires Valid() && oid == Oid(input.key)
      modifies this
      ensures Valid() && r == Bare(PoolDeleteStatus(old(pool), input, env))
      ensures pool == if Lands(r.status, env) then old(pool) - {oid} else old(pool)
      ensures !input.readOnly ==> oid !in cache
    {
      if input.readOnly { return Bare(READ_ONLY); }
      Invalidate(oid);
      if oid !in pool { return Bare(KEY_NOT_EXIST); }
      if !env.writeFails || env.applied { pool := pool - {oid}; }
      return Bare(if env.writeFails then FAILED else SUCCESS);
    }

    method Exist(oid: string, env: Env) returns (r: ExecResult)
      ensures r == if env.statFails then Bare(FAILED)
                   else if oid !in pool then Bare(KEY_NOT_EXIST)
                   else ExecResult(SUCCESS, Min(|pool[oid]|, UINT32_MAX), [])
    {
      if env.statFails { return Bare(FAILED); }
      if oid !in pool { return Bare(KEY_NOT_EXIST); }
      return ExecResult(SUCCESS, Min(|pool[oid]|, UINT32_MAX), []);
    }

    /** One request, with any evictions before it. */
    method Kv(input: KvIn, env: Env) returns (r: ExecResult)
      requires Valid() && !input.verb.List?
      modifies this
      ensures Valid()
      ensures Agrees(r, old(pool), input, env)
      ensures pool == PoolAfter(old(pool), input, env)
    {
      hide Direct, Oid, PoolStoreStatus, PoolDeleteStatus, Coherent;
      Evict(env.evicted);
      if input.verb.Unknown? || |input.key| == 0 { return Bare(INVALID); }
      var oid := KeyToOid(input.key);
      match input.verb {
        case Retrieve => r := Retrieve(oid, input, env);
        case Store => r := Store(oid, input, env);
        case Delete => r := Delete(oid, input, env);
        case Exist => r := Exist(oid, env);
      }
    }

    /** Over a whole run the cached executor answers as one without a cache would, and leaves the same objects. */
    method Serve(run: seq<Op>) returns (answers: seq<ExecResult>)
      requires Valid() && forall op | op in run :: !op.0.verb.List?
      modifies this
      ensures Valid() && pool == PoolRun(old(pool), run)
      ensures |answers| == |run|
      ensures forall i | 0 <= i < |run| :: Agrees(answers[i], PoolRun(old(pool), run[..i]), run[i].0, run[i].1)
    {
      hide Agrees, PoolAfter, Coherent, PoolRun;
      answers := [];
      ghost var start := pool;
      assert PoolRun(start, run[..0]) == start by { PoolRunEmpty(start, run); }
      for i := 0 to |run|
        invariant Valid() && pool == PoolRun(start, run[..i]) && |answers| == i
        invariant forall k | 0 <= k < i :: Agrees(answers[k], PoolRun(start, run[..k]), run[k].0, run[k].1)
      {
        assert run[i] in run;
        PoolRunStep(start, run, i);
        var r := Kv(run[i].0, run[i].1);
        answers := answers + [r];
      }
      assert run[..|run|] == run;
    }
  }

  // ---- the pool against its history ----

  ghost function PoolAnswerAt(start: Table, run: seq<Op>, i: nat): ExecResult
    requires i < |run|
  {
    PoolAnswer(PoolRun(start, run[..i]), run[i].0, run[i].1)
  }

  /** What a key holds: what was there, what was last written by an answered success or a failure that landed. */
  ghost function PoolHeld(start: Table, run: seq<Op>, key: Bytes): Option<Bytes> {
    if run == [] then if Oid(key) in start then Some(start[Oid(key)]) else None
    else
      var i := |run| - 1;
      var input := run[i].0;
      if input.key != key || !Lands(PoolAnswerAt(start, run, i).status, run[i].1) then PoolHeld(start, run[..i], key)
      else if input.verb.Store? then Some(Payloaded(input.value))
      else if input.verb.Delete? then None
      else PoolHeld(start, run[..i], key)
  }

  lemma {:induction false} PoolLastWriteWins(start: Table, run: seq<Op>, key: Bytes)
    requires key != []
    ensures (Oid(key) in PoolRun(start, run)) == PoolHeld(start, run, key).Some?
    ensures Oid(key) in PoolRun(start, run) ==> PoolRun(start, run)[Oid(key)] == PoolHeld(start, run, key).value
    decreases |run|
  {
    hide Oid, Direct, PoolStoreStatus, PoolDeleteStatus;
    if run != [] {
      var i := |run| - 1;
      PoolLastWriteWins(start, run[..i], key);
      if Oid(run[i].0.key) == Oid(key) { OidsDiffer(run[i].0.key, key); }
    }
  }

  ghost predicate PoolStoreAnswered(status: Status, input: KvIn, env: Env, held: Option<Bytes>) {
    if input.readOnly then status == READ_ONLY
    else if input.value.Missing? && input.value.len > 0 then status == NOT_SUPPORTED
    else if Conditional(input) && !env.opOk then status == NOMEM
    else
      && (status == KEY_EXIST <==> input.ifAbsent && held.Some?)
      && (status == KEY_NOT_EXIST <==> !input.ifAbsent && input.ifExists && held.None?)
      && (status == KEY_EXIST || status == KEY_NOT_EXIST || status == if env.writeFails then FAILED else SUCCESS)
  }

  ghost predicate PoolRetrieveAnswered(r: ExecResult, osize: nat, env: Env, held: Option<Bytes>) {
    if env.statFails then r == Bare(FAILED)
    else if held.None? then r == Bare(KEY_NOT_EXIST)
    else if held.value != [] && osize > 0 && !env.resultOk then r == Bare(NOMEM)
    else if held.value != [] && osize > 0 && env.readFails then r == Bare(FAILED)
    else HandsOver(r, held.value, osize)
  }

  ghost predicate PoolExistAnswered(r: ExecResult, env: Env, held: Option<Bytes>) {
    if env.statFails then r == Bare(FAILED)
    else if held.None? then r == Bare(KEY_NOT_EXIST)
    else SaysLength(r, held.value)
  }

  /** After any run on the pool every verb answers by its own fields, by what failed, and by what its key holds. */
  lemma PoolVerbsFollowHistory(start: Table, run: seq<Op>, input: KvIn, env: Env)
    requires !input.verb.List?
    ensures var r, held := PoolAnswer(PoolRun(start, run), input, env), PoolHeld(start, run, input.key);
            if input.verb.Unknown? || input.key == [] then r == Bare(INVALID)
            else match input.verb
              case Retrieve => PoolRetrieveAnswered(r, input.osize, env, held)
              case Store => r == Bare(r.status) && PoolStoreAnswered(r.status, input, env, held)
              case Delete =>
                r == Bare(if input.readOnly then READ_ONLY else if held.None? then KEY_NOT_EXIST
                          else if env.writeFails then FAILED else SUCCESS)
              case _ => PoolExistAnswered(r, env, held)
  {
    hide Oid;
    if input.key != [] { PoolLastWriteWins(start, run, input.key); }
    hide PoolHeld, PoolRun;
  }

  /** And what a key holds changes only by a write to it that landed. */
  lemma PoolChangesByWrites(start: Table, run: seq<Op>, input: KvIn, env: Env, k: Bytes)
    ensures var landed := Lands(PoolAnswer(PoolRun(start, run), input, env).status, env);
            PoolHeld(start, run + [(input, env)], k) ==
            if k != input.key || !landed then PoolHeld(start, run, k)
            else if input.verb.Store? then Some(Payloaded(input.value))
            else if input.verb.Delete? then None else PoolHeld(start, run, k)
  {
    hide Oid, PoolAnswer;
    assert (run + [(input, env)])[..|run|] == run;
  }

  /** Without read faults agreeing is being equal: status, true length and bytes. */
  lemma QuietReadsAreExact(r: ExecResult, pool: Table, input: KvIn, env: Env)
    requires Agrees(r, pool, input, env) && !env.statFails && !env.readFails
    ensures r == PoolAnswer(pool, input, env)
    ensures input.verb.Retrieve? && input.key != [] ==>
              r == if Oid(input.key) in pool then Deliver(pool[Oid(input.key)], input.osize, env.resultOk)
                else Bare(KEY_NOT_EXIST)
  {
    assert env.(statFails := false, readFails := false) == env;
  }

  /** A read fault can only turn an answer into a bare failure: bytes delivered are always the object's own. */
  lemma DeliveredBytesAreTrue(r: ExecResult, pool: Table, input: KvIn, env: Env)
    requires Agrees(r, pool, input, env) && input.verb.Retrieve? && (r.buf != [] || r.status == SUCCESS)
    ensures input.key != [] && Oid(input.key) in pool
    ensures r == Deliver(pool[Oid(input.key)], input.osize, true)
  {
    hide Oid;
  }

  /**
   * Where nothing fails and there is room, the two backends give one answer to a Store, except when
   * both conditions are asked for an absent key: the array refuses, the pool creates.
   */
  lemma BackendsAgreeExact(t: Table, input: KvIn, alloc: Alloc, env: Env)
    requires alloc.copy && env.opOk && !env.writeFails && |t| < MEM_MAX_OBJS
    ensures StoreStatus(t, input, alloc) == PoolStoreStatus(t, input, env) <==>
            !(input.ifExists && input.ifAbsent && Oid(input.key) !in t && !input.readOnly
              && (input.value.Given? || input.value.len == 0))
  {
    hide Oid;
  }
}
