/**
 * The synchronous NVMe-KV host shim over a transport that may deliver the completions of abandoned
 * commands at any later poll. Every command has its own context and token; the transport is an
 * arbitrary script of firings over the contexts it still holds.
 */
module Shim {
  import opened Common

  const EIO: int := 5
  const ETIMEDOUT: int := 110
  const DRAIN_PASSES: nat := 8

  /** One heap allocation (`serial` tells allocations apart) and the token stored in it. */
  datatype Ctx = Ctx(serial: nat, opId: nat)

  datatype Cpl = Cpl(sct: nat, sc: nat, cdw0: nat)

  datatype Firing = Firing(ctx: Ctx, cpl: Cpl)

  /** One call into the transport: what it fires, what it returns, and whether the deadline has passed after it. */
  datatype Pass = Pass(fires: seq<Firing>, n: int, late: bool)

  /** Everything outside the shim during one operation. */
  datatype OpEnv = OpEnv(reconnectRc: int, reconnectFires: seq<Firing>, drain: seq<Pass>, mallocOk: bool,
                         submitRc: int, passes: seq<Pass>, disconnectFires: seq<Firing>)

  /** The `n`-th context ever allocated carries the 64-bit counter's value at that moment. */
  function Context(n: nat): Ctx {
    Ctx(n, n % TWO64)
  }

  function StatusToRc(cpl: Cpl): int {
    if cpl.sct != 0 then -EIO else cpl.sc
  }

  /** One call on the shim; a Retrieve also asks for the length. */
  datatype Call = Call(reading: bool, env: OpEnv)

  datatype Answer = Answer(rc: int, completed: bool, length: Option<nat>)

  /** The code is the completion's: a generic status as it is, any other type as an I/O error. */
  predicate Tells(rc: int, cpl: Cpl) {
    (cpl.sct == 0 ==> rc == cpl.sc) && (cpl.sct != 0 ==> rc == -EIO)
  }

  /** A read that the device says succeeded gives the length in its completion, and nothing else gives one. */
  predicate Reports(answer: Answer, reading: bool, cpl: Cpl) {
    && Tells(answer.rc, cpl)
    && answer.length == if reading && cpl.sct == 0 && cpl.sc == 0 then Some(cpl.cdw0) else None
  }

  predicate Fires(fires: seq<Firing>, op: Ctx) {
    exists i :: 0 <= i < |fires| && fires[i].ctx == op
  }

  /** What the first firing of `op` brings. */
  ghost predicate Brings(fires: seq<Firing>, op: Ctx, cpl: Cpl) {
    exists i :: 0 <= i < |fires| && fires[i] == Firing(op, cpl) && forall j | 0 <= j < i :: fires[j].ctx != op
  }

  /** Up to pass `k` the transport neither failed nor ran late, and `op` did not fire. */
  ghost predicate Pending(passes: seq<Pass>, op: Ctx, k: nat) {
    k <= |passes| && forall j | 0 <= j < k :: passes[j].n >= 0 && !passes[j].late && !Fires(passes[j].fires, op)
  }

  /** In pass `k` the awaited operation completes with `cpl`. */
  ghost predicate CompletesAt(passes: seq<Pass>, op: Ctx, k: nat, cpl: Cpl) {
    Pending(passes, op, k) && k < |passes| && passes[k].n >= 0 && Brings(passes[k].fires, op, cpl)
  }

  ghost predicate FailsAt(passes: seq<Pass>, op: Ctx, k: nat) {
    Pending(passes, op, k) && k < |passes| && passes[k].n < 0
  }

  /** How a poll for `op` ends: its completion, the transport's error, or the deadline, whichever is first. */
  ghost predicate Polled(passes: seq<Pass>, op: Ctx, rc: int, cpl: Cpl) {
    && (rc == 0 <==> exists k: nat, c :: CompletesAt(passes, op, k, c))
    && (rc == 0 ==> exists k: nat :: CompletesAt(passes, op, k, cpl))
    && (forall k: nat | FailsAt(passes, op, k) :: rc == passes[k].n)
    && (rc != 0 && (forall k: nat :: !FailsAt(passes, op, k)) ==> rc == -ETIMEDOUT)
  }

  lemma OnePlace(passes: seq<Pass>, op: Ctx, j: nat, k: nat, c: Cpl)
    requires FailsAt(passes, op, j) || (Pending(passes, op, j) && j < |passes| && passes[j].late)
             || CompletesAt(passes, op, j, c)
    requires Pending(passes, op, k) && k < |passes|
    ensures k <= j
  {
  }

  lemma PolledFailure(passes: seq<Pass>, op: Ctx, k: nat, cpl: Cpl)
    requires FailsAt(passes, op, k)
    ensures Polled(passes, op, passes[k].n, cpl)
  {
    forall j: nat, c | CompletesAt(passes, op, j, c) ensures false {
      OnePlace(passes, op, k, j, c);
      OnePlace(passes, op, j, k, c);
    }
    forall j: nat | FailsAt(passes, op, j) ensures j == k {
      OnePlace(passes, op, k, j, cpl);
      OnePlace(passes, op, j, k, cpl);
    }
  }

  lemma PolledLate(passes: seq<Pass>, op: Ctx, k: nat, cpl: Cpl)
    requires Pending(passes, op, k)
    requires k < |passes| ==> passes[k].n >= 0 && passes[k].late && !Fires(passes[k].fires, op)
    ensures Polled(passes, op, -ETIMEDOUT, cpl)
  {
    forall j: nat, c | CompletesAt(passes, op, j, c) ensures false {
      if k < |passes| { OnePlace(passes, op, k, j, c); }
    }
    forall j: nat | FailsAt(passes, op, j) ensures false {
      if k < |passes| { OnePlace(passes, op, k, j, cpl); }
    }
  }

  lemma PolledDone(passes: seq<Pass>, op: Ctx, k: nat, cpl: Cpl)
    requires CompletesAt(passes, op, k, cpl)
    ensures Polled(passes, op, 0, cpl)
  {
    forall j: nat | FailsAt(passes, op, j) ensures false {
      OnePlace(passes, op, k, j, cpl);
      OnePlace(passes, op, j, k, cpl);
    }
  }

  lemma BringsMore(fires: seq<Firing>, i: nat, op: Ctx)
    requires i < |fires|
    ensures Fires(fires[..i + 1], op) <==> Fires(fires[..i], op) || fires[i].ctx == op
    ensures forall c :: Brings(fires[..i], op, c) ==> Brings(fires[..i + 1], op, c)
    ensures fires[i].ctx == op && !Fires(fires[..i], op) ==> Brings(fires[..i + 1], op, fires[i].cpl)
  {
    var a, b := fires[..i], fires[..i + 1];
    assert b == a + [fires[i]];
    if Fires(a, op) {
      var k :| 0 <= k < |a| && a[k].ctx == op;
      assert b[k].ctx == op;
    }
    if fires[i].ctx == op { assert b[i].ctx == op && b[i] == Firing(op, fires[i].cpl); }
    forall c | Brings(a, op, c) ensures Brings(b, op, c) {
      var k :| 0 <= k < |a| && a[k] == Firing(op, c) && forall j | 0 <= j < k :: a[j].ctx != op;
      assert b[k] == Firing(op, c);
    }
    if fires[i].ctx == op && !Fires(a, op) {
      assert forall j | 0 <= j < i :: b[j] == a[j] && a[j].ctx != op;
    }
  }

  /** What becomes of an operation: the first thing to fail decides, and otherwise how its poll ends. */
  ghost predicate Outcome(env: OpEnv, qpairFailed: bool, op: Ctx, rc: int, completed: bool, last: Cpl) {
    if qpairFailed && env.reconnectRc != 0 then !completed && (rc == env.reconnectRc || rc == -env.reconnectRc)
    else if !env.mallocOk then !completed && rc == -ENOMEM
    else if env.submitRc != 0 then !completed && (rc == env.submitRc || rc == -env.submitRc)
    else
      && (completed <==> exists k: nat, c :: CompletesAt(env.passes, op, k, c))
      && (completed ==> Tells(rc, last) && exists k: nat :: CompletesAt(env.passes, op, k, last))
      && (!completed ==> Polled(env.passes, op, rc, last))
  }

  function Negated(rc: int): int {
    if rc < 0 then rc else -rc
  }

  /** No command still outstanding could pass for the one about to carry `token`. */
  ghost predicate NoAlias(outstanding: set<Ctx>, token: nat) {
    forall c | c in outstanding :: c.opId != token && c.opId != 0
  }

  /** Every context ever allocated is either live or has been freed once, and nothing else was ever freed. */
  ghost predicate ContextsOk(live: set<Ctx>, arms: nat, freed: multiset<nat>) {
    && (forall c | c in live :: 1 <= c.serial <= arms && c == Context(c.serial))
    && (forall s: nat :: freed[s] == if 1 <= s <= arms && Context(s) !in live then 1 else 0)
  }

  lemma ArmContexts(live: set<Ctx>, arms: nat, freed: multiset<nat>)
    requires ContextsOk(live, arms, freed)
    ensures Context(arms + 1) !in live && ContextsOk(live + {Context(arms + 1)}, arms + 1, freed)
    ensures (arms % TWO64 + 1) % TWO64 == (arms + 1) % TWO64
  {
  }

  ghost predicate Extends(a: map<nat, Cpl>, b: map<nat, Cpl>) {
    forall s | s in a :: s in b && b[s] == a[s]
  }

  class Shim {
    var nextOpId: nat
    var armedOpId: nat
    var done: bool
    var last: Cpl
    var qpairFailed: bool
    /** The requests the transport holds. */
    var outstanding: set<Ctx>
    /** How many contexts the allocator has handed out. */
    var arms: nat

    /** Whether the shim itself is still allocated. */
    ghost var open: bool
    ghost var live: set<Ctx>
    ghost var freed: multiset<nat>
    /** The completion each context was fired with. */
    ghost var fired: map<nat, Cpl>

    /** The live contexts are those the transport holds and those in `hand`. */
    ghost predicate Holding(hand: set<Ctx>)
      reads this
    {
      && open
      && nextOpId == arms % TWO64
      && live == outstanding + hand && outstanding !! hand
      && ContextsOk(live, arms, freed)
      && (forall s | s in fired :: s <= arms && Context(s) !in live)
    }

    /** Between calls: nothing in hand, nothing armed. */
    ghost predicate Idle()
      reads this
    {
      Holding({}) && armedOpId == 0
    }

    /** The slot is empty and waits for `op`, or holds the completion `op` was fired with. */
    ghost predicate Awaits(op: Ctx)
      reads this
    {
      && NoAlias(outstanding - {op}, op.opId)
      && if done then op !in outstanding && armedOpId == 0 && op.serial in fired && last == fired[op.serial]
         else armedOpId == op.opId
    }

    /** What the callback reads and writes. */
    ghost function Held(): Slot
      reads this
    {
      Slot(armedOpId, done, last)
    }

    /** A connected shim, as opening it leaves it. */
    constructor ()
      ensures Idle() && !qpairFailed && arms == 0
    {
      nextOpId, armedOpId, done, last, qpairFailed, outstanding := 0, 0, false, Cpl(0, 0, 0), false, {};
      open, arms, live, freed, fired := true, 0, {}, multiset{}, map[];
    }

    ghost method Free(ctx: Ctx)
      requires ctx in live && ContextsOk(live, arms, freed)
      modifies this`live, this`freed
      ensures live == old(live) - {ctx} && ContextsOk(live, arms, freed)
    {
      live := live - {ctx};
      freed := freed + multiset{ctx.serial};
    }

    method ArmOp(mallocOk: bool) returns (ctx: Option<Ctx>)
      requires Idle()
      modifies this`nextOpId, this`armedOpId, this`done, this`arms, this`live
      ensures ctx.Some? == mallocOk
      ensures mallocOk ==>
          arms == old(arms) + 1 && ctx.value == Context(arms) && Holding({ctx.value}) && !done
            && armedOpId == ctx.value.opId
      ensures !mallocOk ==> Idle() && arms == old(arms)
    {
      hide ContextsOk;
      ArmContexts(live, arms, freed);
      var previous := nextOpId;
      nextOpId := (nextOpId + 1) % TWO64;
      var id := nextOpId;
      if !mallocOk {
        nextOpId := previous;
        return None;
      }
      arms := arms + 1;
      live := live + {Context(arms)};
      done := false;
      armedOpId := id;
      return Some(Ctx(arms, id));
    }

    method DisarmOp()
      modifies this`armedOpId
      ensures armedOpId == 0
    {
      armedOpId := 0;
    }

    /** The completion callback: record it if it is the armed operation's, and free its context either way. */
    method IoComplete(ctx: Ctx, cpl: Cpl)
      requires Holding({ctx})
      modifies this`armedOpId, this`done, this`last, this`live, this`freed, this`fired
      ensures Holding({})
      ensures ctx.serial !in old(fired) && fired == old(fired)[ctx.serial := cpl]
      ensures Held() == Record(old(Held()), Firing(ctx, cpl))
    {
      if ctx.opId == armedOpId {
        armedOpId := 0;
        last := cpl;
        done := true;
      }
      fired := fired[ctx.serial := cpl];
      Free(ctx);
    }

    /** The transport fires one completion, if it still holds the request. */
    method Fire(f: Firing, ghost op: Ctx) returns (took: bool)
      requires Holding({})
      modifies this`armedOpId, this`done, this`last, this`outstanding, this`live, this`freed, this`fired
      ensures Holding({}) && took == (f.ctx in old(outstanding)) && outstanding == old(outstanding) - {f.ctx}
      ensures Held() == if took then Record(old(Held()), f) else old(Held())
      ensures Extends(old(fired), fired)
      ensures old(Awaits(op)) ==> Awaits(op)
      ensures old(Awaits(op) && !done && op in outstanding) ==>
                if f.ctx == op then done && last == f.cpl else !done && op in outstanding
    {
      hide ContextsOk;
      took := f.ctx in outstanding;
      if took {
        outstanding := outstanding - {f.ctx};
        IoComplete(f.ctx, f.cpl);
      }
    }

    /**
     * One call into the transport, firing what the script names and the transport still holds. What it
     * fires is a schedule over the requests held, and the slot records all of it.
     */
    method ProcessCompletions(fires: seq<Firing>, ghost op: Ctx) returns (ghost taken: seq<Firing>)
      requires Holding({})
      modifies this`armedOpId, this`done, this`last, this`outstanding, this`live, this`freed, this`fired
      ensures Holding({}) && outstanding <= old(outstanding)
      ensures Schedule(taken, old(outstanding)) && Held() == RecordAll(old(Held()), taken)
      ensures armedOpId == 0 || (armedOpId == old(armedOpId) && done == old(done))
      ensures old(done ==> armedOpId == 0) ==> (done ==> armedOpId == 0)
      ensures Extends(old(fired), fired)
      ensures old(Awaits(op)) ==> Awaits(op)
      ensures old(Awaits(op) && !done && op in outstanding) ==>
                && (if done then Brings(fires, op, last) else op in outstanding)
                && (done <==> Fires(fires, op))
    {
      hide ContextsOk;
      assert !Fires(fires[..0], op);
      hide Fires, Brings, Record;
      taken := [];
      var i := 0;
      while i < |fires|
        invariant 0 <= i <= |fires| && Holding({}) && outstanding <= old(outstanding)
        invariant Schedule(taken, old(outstanding)) && forall k | 0 <= k < |taken| :: taken[k].ctx !in outstanding
        invariant Held() == RecordAll(old(Held()), taken)
        invariant armedOpId == 0 || (armedOpId == old(armedOpId) && done == old(done))
        invariant old(done ==> armedOpId == 0) ==> (done ==> armedOpId == 0)
        invariant Extends(old(fired), fired)
        invariant old(Awaits(op)) ==> Awaits(op)
        invariant old(Awaits(op) && !done && op in outstanding) ==>
                    && (if done then Brings(fires[..i], op, last) else op in outstanding)
                    && (done <==> Fires(fires[..i], op))
      {
        var f := fires[i];
        BringsMore(fires, i, op);
        var took := Fire(f, op);
        if took {
          assert (taken + [f])[..|taken|] == taken;
          taken := taken + [f];
        }
        i := i + 1;
      }
      assert fires[..|fires|] == fires;
    }

    /** A bounded number of passes with nothing armed; whatever fires is dropped. */
    method DrainStaleCompletions(passes: seq<Pass>)
      requires Idle()
      modifies this`armedOpId, this`done, this`last, this`outstanding, this`live, this`freed, this`fired
      ensures Idle() && outstanding <= old(outstanding) && Extends(old(fired), fired)
    {
      hide ContextsOk;
      var pass := 0;
      while pass < DRAIN_PASSES && pass < |passes|
        invariant 0 <= pass && Idle() && outstanding <= old(outstanding) && Extends(old(fired), fired)
      {
        ghost var _ := ProcessCompletions(passes[pass].fires, Context(0));
        if passes[pass].n <= 0 { break; }
        pass := pass + 1;
      }
    }

    /** Give up on the armed operation: its completion, if it ever comes, will match nothing. */
    method Abandon(disconnectFires: seq<Firing>)
      requires Holding({})
      modifies this`armedOpId, this`done, this`last, this`qpairFailed, this`outstanding, this`live, this`freed,
        this`fired
      ensures Idle() && qpairFailed && outstanding <= old(outstanding) && Extends(old(fired), fired)
    {
      hide ContextsOk;
      DisarmOp();
      ghost var _ := ProcessCompletions(disconnectFires, Context(0));
      qpairFailed := true;
    }

    /** Poll until the armed operation completes, the transport fails, or the deadline passes. */
    method PollToCompletion(passes: seq<Pass>, disconnectFires: seq<Firing>, ghost op: Ctx) returns (rc: int)
      requires Holding({}) && !done && !qpairFailed
      modifies this`armedOpId, this`done, this`last, this`qpairFailed, this`outstanding, this`live, this`freed,
        this`fired
      ensures Idle() && outstanding <= old(outstanding) && Extends(old(fired), fired)
      ensures rc <= 0 && qpairFailed == (rc != 0)
      ensures rc == 0 && old(Awaits(op)) ==> op.serial in fired && last == fired[op.serial]
      ensures old(Awaits(op) && op in outstanding) ==> Polled(passes, op, rc, last)
    {
      hide ContextsOk, Polled, Brings, Fires;
      var i := 0;
      while !done
        invariant 0 <= i <= |passes| && Holding({}) && !qpairFailed && (done ==> armedOpId == 0)
        invariant outstanding <= old(outstanding) && Extends(old(fired), fired)
        invariant old(Awaits(op)) ==> Awaits(op)
        invariant old(Awaits(op) && op in outstanding) ==>
                    if done then i > 0 && CompletesAt(passes, op, i - 1, last)
                    else op in outstanding && Pending(passes, op, i)
        decreases |passes| - i, !done
      {
        if i == |passes| {
          Abandon(disconnectFires);
          if old(Awaits(op) && op in outstanding) { PolledLate(passes, op, i, last); }
          return -ETIMEDOUT;
        }
        var pass := passes[i];
        ghost var _ := ProcessCompletions(pass.fires, op);
        if pass.n < 0 {
          Abandon(disconnectFires);
          if old(Awaits(op) && op in outstanding) { PolledFailure(passes, op, i, last); }
          return pass.n;
        }
        if !done && pass.late {
          Abandon(disconnectFires);
          if old(Awaits(op) && op in outstanding) { PolledLate(passes, op, i, last); }
          return -ETIMEDOUT;
        }
        i := i + 1;
      }
      if old(Awaits(op) && op in outstanding) { PolledDone(passes, op, i - 1, last); }
      return 0;
    }

    method EnsureConnected(env: OpEnv) returns (rc: int)
      requires Idle()
      modifies this`armedOpId, this`done, this`last, this`qpairFailed, this`outstanding, this`live, this`freed,
        this`fired
      ensures Idle() && outstanding <= old(outstanding) && Extends(old(fired), fired)
      ensures rc <= 0 && qpairFailed == (rc != 0)
      ensures if !old(qpairFailed) || env.reconnectRc == 0 then rc == 0
              else rc == env.reconnectRc || rc == -env.reconnectRc
      ensures arms == old(arms)
    {
      hide ContextsOk;
      if !qpairFailed { return 0; }
      ghost var _ := ProcessCompletions(env.reconnectFires, Context(0));
      if env.reconnectRc != 0 { return Negated(env.reconnectRc); }
      DisarmOp();
      DrainStaleCompletions(env.drain);
      qpairFailed := false;
      return 0;
    }

    /** Hand a request to the transport: only ever on a queue pair not flagged failed. */
    method Submit(ctx: Ctx, rc: int)
      requires Holding({ctx}) && !qpairFailed
      modifies this`outstanding
      ensures if rc == 0 then Holding({}) && outstanding == old(outstanding) + {ctx}
              else Holding({ctx}) && outstanding == old(outstanding)
    {
      if rc == 0 { outstanding := outstanding + {ctx}; }
    }

    /**
     * One Store, Retrieve, Exist or Delete. When the poll succeeds the status reported is the one its
     * own request completed with, whatever else fired meanwhile; otherwise the code is of the first
     * thing that failed.
     */
    method Op(env: OpEnv) returns (rc: int, completed: bool)
      requires Idle()
      modifies this
      ensures Idle() && Extends(old(fired), fired)
      ensures arms == old(arms) || arms == old(arms) + 1
      ensures !completed ==> rc < 0
      ensures completed ==> arms == old(arms) + 1 && !qpairFailed && Tells(rc, last)
      ensures completed && NoAlias(old(outstanding), arms % TWO64) ==> arms in fired && last == fired[arms]
      ensures NoAlias(old(outstanding), (old(arms) + 1) % TWO64) ==>
                Outcome(env, old(qpairFailed), Context(old(arms) + 1), rc, completed, last)
    {
      hide ContextsOk;
      var connected := EnsureConnected(env);
      if connected != 0 { return connected, false; }
      var armed := ArmOp(env.mallocOk);
      if armed.None? { return -ENOMEM, false; }
      var ctx := armed.value;
      ghost var orphans := outstanding;
      Submit(ctx, env.submitRc);
      if env.submitRc != 0 {
        DisarmOp();
        Free(ctx);
        return Negated(env.submitRc), false;
      }
      assert outstanding - {ctx} == orphans;
      var polled := PollToCompletion(env.passes, env.disconnectFires, ctx);
      if polled != 0 { return polled, false; }
      return StatusToRc(last), true;
    }

    /** Retrieve also reports the true length, from the same completion. */
    method Retrieve(env: OpEnv) returns (rc: int, completed: bool, length: Option<nat>)
      requires Idle()
      modifies this
      ensures Idle() && Extends(old(fired), fired)
      ensures arms == old(arms) || arms == old(arms) + 1
      ensures !completed ==> rc < 0 && length.None?
      ensures completed ==> arms == old(arms) + 1
      ensures completed && NoAlias(old(outstanding), arms % TWO64) ==>
                arms in fired && Reports(Answer(rc, completed, length), true, fired[arms])
      ensures NoAlias(old(outstanding), (old(arms) + 1) % TWO64) ==>
                Outcome(env, old(qpairFailed), Context(old(arms) + 1), rc, completed, last)
    {
      rc, completed := Op(env);
      length := if rc == 0 then Some(last.cdw0) else None;
    }

    /** Free the queue pair first: every request still held fires once, then the shim goes. */
    method Close(cpl: Cpl)
      requires Idle()
      modifies this
      ensures !open && live == {} && outstanding == {} && arms == old(arms) && Extends(old(fired), fired)
      ensures forall s: nat :: freed[s] == if 1 <= s <= arms then 1 else 0
    {
      while outstanding != {}
        invariant Idle() && arms == old(arms) && Extends(old(fired), fired)
        decreases outstanding
      {
        var ctx :| ctx in outstanding;
        outstanding := outstanding - {ctx};
        IoComplete(ctx, cpl);
      }
      open := false;
    }

    method Perform(call: Call) returns (answer: Answer)
      requires Idle()
      modifies this
      ensures Idle() && Extends(old(fired), fired)
      ensures arms == old(arms) || arms == old(arms) + 1
      ensures if answer.completed then arms == old(arms) + 1 else answer.rc < 0 && answer.length.None?
      ensures answer.completed && NoAlias(old(outstanding), arms % TWO64) ==>
                arms in fired && Reports(answer, call.reading, fired[arms])
    {
      if call.reading {
        var rc, completed, length := Retrieve(call.env);
        answer := Answer(rc, completed, length);
      } else {
        var rc, completed := Op(call.env);
        answer := Answer(rc, completed, None);
      }
    }

    /**
     * A whole session, from a new shim to its end: every call whose poll succeeded reported the status,
     * and a Retrieve the length, its own context was fired with, no two of them the same context, and
     * each context was freed once.
     */
    method Session(calls: seq<Call>, abort: Cpl) returns (answers: seq<Answer>, ghost ids: seq<nat>)
      requires Idle() && arms == 0
      modifies this
      ensures |answers| == |ids| == |calls|
      ensures |calls| < TWO64 ==>
                forall i | 0 <= i < |calls| && answers[i].completed ::
                  ids[i] in fired && Reports(answers[i], calls[i].reading, fired[ids[i]])
      ensures forall i | 0 <= i < |calls| && !answers[i].completed :: answers[i].rc < 0 && answers[i].length.None?
      ensures forall i, j | 0 <= i < j < |calls| && answers[i].completed && answers[j].completed :: ids[i] < ids[j]
      ensures !open && live == {} && forall s: nat :: freed[s] == if 1 <= s <= arms then 1 else 0
    {
      hide ContextsOk, NoAlias, Reports;
      answers, ids := [], [];
      for i := 0 to |calls|
        invariant Idle() && arms <= i && |answers| == |ids| == i
        invariant |calls| < TWO64 ==>
                    forall k | 0 <= k < i && answers[k].completed ::
                      ids[k] in fired && Reports(answers[k], calls[k].reading, fired[ids[k]])
        invariant forall k | 0 <= k < i && !answers[k].completed :: answers[k].rc < 0 && answers[k].length.None?
        invariant forall k | 0 <= k < i && answers[k].completed :: ids[k] <= arms
        invariant forall j, k | 0 <= j < k < i && answers[j].completed && answers[k].completed :: ids[j] < ids[k]
      {
        assert live == outstanding;
        if |calls| < TWO64 { FewArmsNoAlias(live, arms, freed); }
        var answer := Perform(calls[i]);
        answers, ids := answers + [answer], ids + [arms];
      }
      Close(abort);
    }
  }

  /** As long as the counter has not wrapped, no two live contexts share a token and none can pass for the next. */
  lemma FewArmsNoAlias(live: set<Ctx>, arms: nat, freed: multiset<nat>)
    requires ContextsOk(live, arms, freed) && arms + 1 < TWO64
    ensures NoAlias(live, (arms + 1) % TWO64)
    ensures forall c, d | c in live && d in live :: c.opId == d.opId ==> c == d
  {
  }

  // ---- exactly when the token gate is enough ----

  datatype Slot = Slot(armed: nat, done: bool, last: Cpl)

  /** What the callback does to the slot. */
  function Record(slot: Slot, f: Firing): Slot {
    if f.ctx.opId == slot.armed then Slot(0, true, f.cpl) else slot
  }

  function RecordAll(slot: Slot, fires: seq<Firing>): Slot {
    if fires == [] then slot else Record(RecordAll(slot, fires[..|fires| - 1]), fires[|fires| - 1])
  }

  /** Each context fires at most once, and only contexts the transport holds. */
  ghost predicate Schedule(fires: seq<Firing>, held: set<Ctx>) {
    && (forall i | 0 <= i < |fires| :: fires[i].ctx in held)
    && (forall i, j | 0 <= i < j < |fires| :: fires[i].ctx != fires[j].ctx)
  }

  /** If anything is recorded, it is what `op` was fired with. */
  ghost predicate ReportsOwn(slot: Slot, op: Ctx, fires: seq<Firing>) {
    slot.done ==> Firing(op, slot.last) in fires
  }

  ghost predicate Immune(op: Ctx, orphans: set<Ctx>) {
    forall fires: seq<Firing>, last: Cpl | Schedule(fires, orphans + {op}) ::
      ReportsOwn(RecordAll(Slot(op.opId, false, last), fires), op, fires)
  }

  lemma {:induction false} NoAliasImmune(op: Ctx, orphans: set<Ctx>, fires: seq<Firing>, last: Cpl)
    requires op !in orphans && NoAlias(orphans, op.opId) && Schedule(fires, orphans + {op})
    ensures var slot := RecordAll(Slot(op.opId, false, last), fires);
            && ReportsOwn(slot, op, fires)
            && slot.armed == (if slot.done then 0 else op.opId)
            && (slot.done <==> exists i :: 0 <= i < |fires| && fires[i].ctx == op)
    decreases |fires|
  {
    if fires != [] {
      var n := |fires| - 1;
      NoAliasImmune(op, orphans, fires[..n], last);
      var before := RecordAll(Slot(op.opId, false, last), fires[..n]);
      if before.done {
        assert Firing(op, before.last) in fires[..n];
        var i :| 0 <= i < n && fires[..n][i].ctx == op;
        assert fires[i].ctx == op;
      } else if fires[n].ctx == op {
        assert fires[n] == Firing(op, fires[n].cpl);
      } else {
        assert forall i | 0 <= i < n :: fires[..n][i].ctx != op;
      }
    }
  }

  /** A schedule that breaks the gate when an orphan carries the token in use, or the token that means none. */
  lemma AliasBreaks(op: Ctx, orphan: Ctx, orphans: set<Ctx>)
    requires op !in orphans && orphan in orphans && (orphan.opId == op.opId || orphan.opId == 0)
    ensures !Immune(op, orphans)
  {
    var own, other := Firing(op, Cpl(0, 0, 1)), Firing(orphan, Cpl(0, 0, 2));
    var start := Slot(op.opId, false, Cpl(0, 0, 0));
    var fires := if orphan.opId == op.opId then [other] else [own, other];
    assert Schedule(fires, orphans + {op});
    if orphan.opId == op.opId {
      assert fires[..0] == [] && RecordAll(start, fires) == Slot(0, true, other.cpl);
    } else {
      assert fires[..1] == [own] && [own][..0] == [];
      assert RecordAll(start, [own]) == Slot(0, true, own.cpl);
      assert RecordAll(start, fires) == Slot(0, true, other.cpl);
    }
    assert !ReportsOwn(RecordAll(start, fires), op, fires);
  }

  /** Every schedule leaves an operation with its own completion or none, exactly when no orphan aliases it. */
  lemma ImmuneExact(op: Ctx, orphans: set<Ctx>)
    requires op !in orphans
    ensures Immune(op, orphans) <==> NoAlias(orphans, op.opId)
  {
    if NoAlias(orphans, op.opId) {
      forall fires: seq<Firing>, last: Cpl | Schedule(fires, orphans + {op})
        ensures ReportsOwn(RecordAll(Slot(op.opId, false, last), fires), op, fires)
      {
        NoAliasImmune(op, orphans, fires, last);
      }
    } else {
      var orphan :| orphan in orphans && (orphan.opId == op.opId || orphan.opId == 0);
      AliasBreaks(op, orphan, orphans);
    }
  }
}
