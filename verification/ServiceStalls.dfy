/** The tick walk reaches every entry, and every stall ends. */
module ServiceStalls {
  import opened Common
  import opened ServiceState
  import opened ServiceInvariant
  import opened ServiceSteps
  import opened ServiceTheorems

  /** Nothing but request `id` changed, not even its owner, and the trace only grew. */
  ghost predicate Elsewhere(s: State, s': State, id: Id) {
    && (forall j: Id | j != id :: (j in s.reqs <==> j in s'.reqs) && (j in s.reqs ==> s'.reqs[j] == s.reqs[j]))
    && (id in s.reqs && id in s'.reqs ==> SameOwner(s.reqs[id], s'.reqs[id]))
    && s.trace <= s'.trace && s'.cfg == s.cfg && s'.nextHandle == s.nextHandle
  }

  lemma FinishElsewhere(s: State, id: Id)
    requires id in s.reqs
    ensures Elsewhere(s, Finish(s, id), id) && id !in Finish(s, id).reqs
  {
    FinishShape(s, id);
    FinishTrace(s, id);
  }

  lemma FailElsewhere(s: State, id: Id, status: Status)
    requires id in s.reqs
    ensures Elsewhere(s, Fail(s, id, status), id) && id !in Fail(s, id, status).reqs
  {
    hide Finish;
    FinishElsewhere(Put(s, id, s.reqs[id].(out := FailOut(status))), id);
  }

  /** After a submission attempt the request is gone or has exactly that transfer live. */
  ghost predicate Submitted(s: State, s': State, id: Id, kind: Kind) {
    && Elsewhere(s, s', id)
    && (id in s.reqs && id in s'.reqs ==>
          && s'.reqs[id] == s.reqs[id].(inFlight := true, op := s.nextOp)
          && exists bytes :: s'.trace == s.trace + [Submit(id, kind, bytes)])
  }

  lemma FailSubmitted(s: State, id: Id, status: Status, kind: Kind)
    requires id in s.reqs
    ensures Submitted(s, Fail(s, id, status), id, kind)
  {
    hide Fail;
    FailElsewhere(s, id, status);
  }

  lemma RefuseSubmitted(s: State, id: Id, kind: Kind, what: Resource, status: Status)
    requires id in s.reqs
    ensures Submitted(s, Fail(Log(s, Refused(id, kind, what)), id, status), id, kind)
  {
    hide Fail;
    FailElsewhere(Log(s, Refused(id, kind, what)), id, status);
  }

  lemma StartSubmitted(s: State, id: Id, kind: Kind, bytes: Bytes)
    requires id in s.reqs
    ensures Submitted(s, StartTransfer(s, id, kind, bytes), id, kind) && id in StartTransfer(s, id, kind, bytes).reqs
  {
  }

  lemma SubmitPushElsewhere(s: State, id: Id, env: Env)
    requires id in s.reqs
    ensures Submitted(s, SubmitPush(s, id, env), id, Push)
    ensures !s.reqs[id].doNotPush && env.createPushOk && env.transferPushOk ==> id in SubmitPush(s, id, env).reqs
  {
    hide Fail, StartTransfer, Submitted;
    if s.reqs[id].doNotPush {
      FailSubmitted(s, id, ABORTED, Push);
    } else if !env.createPushOk {
      RefuseSubmitted(s, id, Push, View, FAILED);
    } else if !env.transferPushOk {
      RefuseSubmitted(s, id, Push, Wire, FAILED);
    } else {
      StartSubmitted(s, id, Push, s.reqs[id].res.buf);
    }
  }

  lemma SubmitPullElsewhere(s: State, id: Id, env: Env)
    requires id in s.reqs
    ensures Submitted(s, SubmitPull(s, id, env), id, Pull)
    ensures !s.reqs[id].doNotPush && env.mallocOk && env.createPullOk && env.transferPullOk
            ==> id in SubmitPull(s, id, env).reqs
  {
    hide Fail, StartTransfer, Submitted;
    if s.reqs[id].doNotPush {
      FailSubmitted(s, id, ABORTED, Pull);
    } else if !env.mallocOk {
      RefuseSubmitted(s, id, Pull, Memory, NOMEM);
    } else if !env.createPullOk {
      RefuseSubmitted(s, id, Pull, View, FAILED);
    } else if !env.transferPullOk {
      RefuseSubmitted(s, id, Pull, Wire, FAILED);
    } else {
      StartSubmitted(s, id, Pull, []);
    }
  }

  lemma Chain(s: State, s1: State, s2: State, id: Id)
    requires Elsewhere(s, s1, id) && Elsewhere(s1, s2, id) && (id in s.reqs && id in s2.reqs ==> id in s1.reqs)
    ensures Elsewhere(s, s2, id)
  {
  }

  lemma DeliverElsewhere(s: State, id: Id, env: Env)
    requires id in s.reqs
    ensures Elsewhere(s, Deliver(s, id, env), id)
  {
    hide Fail, Finish, SubmitPush, Elsewhere, Submitted, SameOwner;
    var r := s.reqs[id];
    if r.sink && |r.res.buf| > INLINE_MAX {
      if r.doNotPush {
        FailElsewhere(s, id, ABORTED);
      } else if r.stallTicks > 0 {
        PutElsewhere(s, id, r.(pushPending := true));
      } else {
        SubmitPushElsewhere(s, id, env);
        SubmittedElsewhere(s, SubmitPush(s, id, env), id, Push);
      }
    } else if |r.res.buf| > INLINE_MAX {
      FailElsewhere(s, id, NOT_SUPPORTED);
    } else {
      var r' := r.(out := Out(r.res.status, r.res.resultLen, r.res.buf));
      PutElsewhere(s, id, r');
      FinishElsewhere(Put(s, id, r'), id);
      Chain(s, Put(s, id, r'), Finish(Put(s, id, r'), id), id);
    }
  }

  lemma RunAndDeliverElsewhere(s: State, id: Id, env: Env)
    requires id in s.reqs
    ensures Elsewhere(s, RunAndDeliver(s, id, env), id)
  {
    hide Deliver, Elsewhere;
    var r := s.reqs[id].(res := env.res);
    var s1 := Log(Put(s, id, r), Ran(id, env.res));
    LoggedElsewhere(s, id, r, Ran(id, env.res));
    DeliverElsewhere(s1, id, env);
    Chain(s, s1, Deliver(s1, id, env), id);
  }

  lemma SubmittedElsewhere(s: State, s': State, id: Id, kind: Kind)
    requires Submitted(s, s', id, kind)
    ensures Elsewhere(s, s', id)
  {
  }

  lemma PutElsewhere(s: State, id: Id, r: Req)
    requires id in s.reqs
    requires r.cancelHandle == s.reqs[id].cancelHandle && r.exec == s.reqs[id].exec && r.key == s.reqs[id].key
    ensures Elsewhere(s, Put(s, id, r), id)
  {
  }

  lemma LoggedElsewhere(s: State, id: Id, r: Req, e: Event)
    requires id in s.reqs
    requires r.cancelHandle == s.reqs[id].cancelHandle && r.exec == s.reqs[id].exec && r.key == s.reqs[id].key
    ensures Elsewhere(s, Log(Put(s, id, r), e), id)
  {
  }

  lemma RetireElsewhere(s: State, op: OpId, outcome: Outcome)
    requires op in s.live && s.live[op].id in s.reqs
    ensures Elsewhere(s, Retire(s, op, outcome), s.live[op].id) && s.live[op].id in Retire(s, op, outcome).reqs
  {
  }

  lemma CanceledOrBrokenElsewhere(s: State, id: Id, outcome: Outcome)
    requires id in s.reqs
    ensures Elsewhere(s, CanceledOrBroken(s, id, outcome), id)
  {
    hide Fail, Elsewhere;
    var r := s.reqs[id].(hadPushCanceled := true);
    PutElsewhere(s, id, r);
    FailElsewhere(Put(s, id, r), id, ABORTED);
    Chain(s, Put(s, id, r), Fail(Put(s, id, r), id, ABORTED), id);
    FailElsewhere(s, id, FAILED);
  }

  lemma TransferDoneElsewhere(s: State, op: OpId, outcome: Outcome, env: Env)
    requires op in s.live && s.live[op].id in s.reqs
    ensures Elsewhere(s, TransferDone(s, op, outcome, env), s.live[op].id)
  {
    hide Finish, RunAndDeliver, Elsewhere, CanceledOrBroken, Retire;
    var id := s.live[op].id;
    var s1 := Retire(s, op, outcome);
    RetireElsewhere(s, op, outcome);
    CanceledOrBrokenElsewhere(s1, id, outcome);
    RunAndDeliverElsewhere(s1, id, env);
    var r := s1.reqs[id];
    var p := Put(s1, id, r.(out := Out(r.res.status, r.res.resultLen, [])));
    PutElsewhere(s1, id, r.(out := Out(r.res.status, r.res.resultLen, [])));
    FinishElsewhere(p, id);
    Chain(s1, p, Finish(p, id), id);
    Chain(s, s1, TransferDone(s, op, outcome, env), id);
  }

  lemma ArriveElsewhere(s: State, exec: bool, key: Key, inputBulk: bool, inputLen: nat, sink: bool, env: Env)
    ensures var s' := Arrive(s, true, exec, key, inputBulk, inputLen, sink, env);
            && (s.nextReq !in s.reqs ==> Elsewhere(s, s', s.nextReq))
            && (s.nextReq in s'.reqs ==> s'.reqs[s.nextReq].cancelHandle.None?)
  {
    hide Fail, SubmitPull, RunAndDeliver;
    var id := s.nextReq;
    var s1 := Admit(s, NewReq(s.cfg, exec, key, inputBulk, inputLen, sink));
    if !s.cfg.hasExecutor {
      FailElsewhere(s1, id, NOT_SUPPORTED);
    } else if inputBulk && inputLen > INLINE_MAX {
      SubmitPullElsewhere(s1, id, env);
    } else {
      RunAndDeliverElsewhere(s1, id, env);
    }
    assert s.nextReq !in s.reqs ==> Elsewhere(s, s1, id);
    assert Elsewhere(s1, Start(s1, id, env), id);
    hide Elsewhere, Start, Admit;
    if s.nextReq !in s.reqs { Chain(s, s1, Start(s1, id, env), id); }
  }

  // ---- the countdown ----

  /** Ticks left before a stalled request's transfer is submitted; 0 when it is not stalled. */
  function Left(s: State, id: Id): nat {
    if id !in s.reqs then 0
    else if s.reqs[id].pullPending then s.reqs[id].pullStallTicks + 1
    else if s.reqs[id].pushPending then s.reqs[id].stallTicks + 1
    else 0
  }

  /** A tick takes one off, but a marked PULL is given up at once. */
  function LeftAfterTick(s: State, id: Id): nat
    requires Left(s, id) > 0
  {
    if s.reqs[id].pullPending && s.reqs[id].doNotPush then 0 else Left(s, id) - 1
  }

  lemma SubmittedEnds(s: State, s': State, id: Id, kind: Kind)
    requires id in s.reqs && Submitted(s, s', id, kind) && !s.reqs[id].pullPending && !s.reqs[id].pushPending
    ensures Elsewhere(s, s', id) && Left(s', id) == 0
  {
  }

  /** One tick of a stall passes. */
  lemma HeldLeft(s: State, id: Id, kind: Kind, r: Req)
    requires id in s.reqs && CountsDown(s.reqs[id], kind, r) && !(r.pullPending && r.pushPending)
    ensures var s' := Log(Put(s, id, r), Held(id, kind));
            Elsewhere(s, s', id) && Left(s, id) > 0 && Left(s', id) == Left(s, id) - 1
  {
    LoggedElsewhere(s, id, r, Held(id, kind));
  }

  /** A stall is given up. */
  lemma AbortLeft(s: State, id: Id, r: Req)
    requires id in s.reqs && SameOwner(s.reqs[id], r)
    ensures var s' := Fail(Put(s, id, r), id, ABORTED); Elsewhere(s, s', id) && Left(s', id) == 0
  {
    hide Fail, Elsewhere;
    PutElsewhere(s, id, r);
    FailElsewhere(Put(s, id, r), id, ABORTED);
    Chain(s, Put(s, id, r), Fail(Put(s, id, r), id, ABORTED), id);
  }

  /** A stall ends with an attempt to submit. */
  lemma SubmitLeft(s: State, id: Id, r: Req, s': State, kind: Kind)
    requires id in s.reqs && SameOwner(s.reqs[id], r) && !r.pullPending && !r.pushPending
    requires Submitted(Put(s, id, r), s', id, kind)
    ensures Elsewhere(s, s', id) && Left(s', id) == 0
  {
    hide Elsewhere, Submitted;
    PutElsewhere(s, id, r);
    SubmittedEnds(Put(s, id, r), s', id, kind);
    Chain(s, Put(s, id, r), s', id);
  }

  lemma TickPullLeft(s: State, id: Id, env: Env)
    requires id in s.reqs && s.reqs[id].pullPending && !s.reqs[id].pushPending
    ensures var s' := TickOne(s, id, env);
            Elsewhere(s, s', id) && Left(s, id) > 0 && Left(s', id) == LeftAfterTick(s, id)
  {
    hide Fail, SubmitPull, Elsewhere, Submitted;
    var r := s.reqs[id];
    if r.doNotPush {
      AbortLeft(s, id, r.(pullPending := false));
    } else if r.pullStallTicks > 0 {
      HeldLeft(s, id, Pull, r.(pullStallTicks := r.pullStallTicks - 1));
    } else {
      var s1 := Put(s, id, r.(pullPending := false));
      SubmitPullElsewhere(s1, id, env);
      SubmitLeft(s, id, r.(pullPending := false), SubmitPull(s1, id, env), Pull);
    }
  }

  lemma TickPushLeft(s: State, id: Id, env: Env)
    requires id in s.reqs && s.reqs[id].pushPending && !s.reqs[id].pullPending
    ensures var s' := TickOne(s, id, env);
            Elsewhere(s, s', id) && Left(s, id) > 0 && Left(s', id) == LeftAfterTick(s, id)
  {
    hide Fail, SubmitPush, Elsewhere, Submitted;
    var r := s.reqs[id];
    if r.stallTicks > 0 {
      HeldLeft(s, id, Push, r.(stallTicks := r.stallTicks - 1));
    } else if r.doNotPush {
      AbortLeft(s, id, r.(pushPending := false));
    } else {
      var s1 := Put(s, id, r.(pushPending := false));
      SubmitPushElsewhere(s1, id, env);
      SubmitLeft(s, id, r.(pushPending := false), SubmitPush(s1, id, env), Push);
    }
  }

  lemma TickOneLeft(s: State, id: Id, env: Env)
    requires id in s.reqs && !(s.reqs[id].pullPending && s.reqs[id].pushPending)
    ensures var s' := TickOne(s, id, env);
            && Elsewhere(s, s', id)
            && (Left(s, id) > 0 ==> Left(s', id) == LeftAfterTick(s, id))
            && (Left(s, id) == 0 ==> s' == s)
  {
    hide Elsewhere;
    var r := s.reqs[id];
    if r.pullPending {
      TickPullLeft(s, id, env);
    } else if r.pushPending {
      TickPushLeft(s, id, env);
    } else {
      PutElsewhere(s, id, r);
      assert Put(s, id, r) == s;
    }
  }

  /** The walk treats each listed request once, in spite of removals along the way. */
  lemma {:induction false} TickAllLeft(s: State, ids: seq<Id>, env: Id -> Env, id: Id)
    requires Inv(s, {}) && Distinct(ids)
    ensures var s' := TickAll(s, ids, env);
            && s'.cfg == s.cfg && s.trace <= s'.trace
            && (id in ids && Left(s, id) > 0 ==> Left(s', id) == LeftAfterTick(s, id))
            && (id !in ids || Left(s, id) == 0 ==>
                  (id in s.reqs <==> id in s'.reqs) && (id in s.reqs ==> s'.reqs[id] == s.reqs[id]))
    decreases |ids|
  {
    hide Inv, TickOne, Left;
    if ids != [] {
      var a := ids[0];
      assert ids == [a] + ids[1..];
      assert a !in ids[1..];
      assert Distinct(ids[1..]);
      if a in s.reqs {
        NotBoth(s, a);
        TickOneLeft(s, a, env(a));
        TickOneInv(s, a, env(a));
        TickAllLeft(TickOne(s, a, env(a)), ids[1..], env, id);
        LeftDepends(s, TickOne(s, a, env(a)), id);
        LeftDepends(TickOne(s, a, env(a)), TickAll(s, ids, env), id);
      } else {
        TickAllLeft(s, ids[1..], env, id);
        LeftDepends(s, s, id);
      }
    }
  }

  lemma NotBoth(s: State, id: Id)
    requires Inv(s, {}) && id in s.reqs
    ensures !(s.reqs[id].pullPending && s.reqs[id].pushPending)
  {
    SettledFacts(s, id);
  }

  lemma LeftDepends(s: State, s': State, id: Id)
    ensures (id in s.reqs <==> id in s'.reqs) && (id in s.reqs ==> s'.reqs[id] == s.reqs[id]) ==>
        Left(s', id) == Left(s, id)
    ensures id !in s.reqs ==> Left(s, id) == 0
  {
  }

  lemma CancelLeft(s: State, decoded: bool, key: Key, bulkCancelOk: bool, id: Id)
    requires RegistryOk(s)
    ensures Left(Cancel(s, decoded, key, bulkCancelOk), id) == Left(s, id)
  {
    hide Lookup;
  }

  lemma TransferLeft(s: State, op: OpId, outcome: Outcome, env: Env, id: Id)
    requires Inv(s, {}) && Left(s, id) > 0
    ensures Left(TransferDone(s, op, outcome, env), id) == Left(s, id)
  {
    hide TransferDone, HandlesOk, TrackOf;
    SettledFacts(s, id);
    if op in s.live && s.live[op].id in s.reqs {
      TransferDoneElsewhere(s, op, outcome, env);
    } else {
      TransferIdle(s, op, outcome, env);
    }
  }

  lemma TickLeft(s: State, env: Id -> Env, id: Id)
    requires Inv(s, {}) && Left(s, id) > 0
    ensures Left(Tick(s, env), id) == LeftAfterTick(s, id)
  {
    hide TickAll, HandlesOk, TrackOf;
    SettledFacts(s, id);
    TickAllLeft(s, s.inflight, env, id);
  }

  /** Only ticks touch a stall, and every tick takes exactly one off it. */
  lemma StepLeft(s: State, i: Input, id: Id)
    requires Inv(s, {}) && RegistryOk(s) && Left(s, id) > 0
    ensures var s' := Step(s, i); Left(s', id) == if i.TickIn? then LeftAfterTick(s, id) else Left(s, id)
  {
    hide Arrive, TransferDone, Tick, Cancel, Inv;
    match i
    case ArriveIn(decoded, exec, key, inputBulk, inputLen, sink, env) =>
      assert id < s.nextReq by { SettledFacts(s, id); }
      assert s.nextReq !in s.reqs by { FreshId(s); }
      ArriveElsewhere(s, exec, key, inputBulk, inputLen, sink, env);
      ArriveIdle(s, exec, key, inputBulk, inputLen, sink, env);
    case CancelIn(decoded, key, bulkCancelOk) => CancelLeft(s, decoded, key, bulkCancelOk, id);
    case TransferIn(op, outcome, env) => TransferLeft(s, op, outcome, env, id);
    case TickIn(envs) => TickLeft(s, envs, id);
  }

  lemma TransferIdle(s: State, op: OpId, outcome: Outcome, env: Env)
    requires op !in s.live || s.live[op].id !in s.reqs
    ensures TransferDone(s, op, outcome, env) == s
  {
  }

  function Ticks(inputs: seq<Input>): nat {
    if inputs == [] then 0 else (if inputs[0].TickIn? then 1 else 0) + Ticks(inputs[1..])
  }

  /**
   * A stall lasts at most one tick more than its configured count: whatever else happens in
   * between, after that many ticks there has been a moment at which the request was no longer stalled.
   */
  lemma {:induction false} StallEnds(cfg: Config, inputs: seq<Input>, more: seq<Input>, id: Id)
    requires Ticks(more) >= Left(Run(cfg, inputs), id)
    ensures exists k :: 0 <= k <= |more| && Left(Run(cfg, inputs + more[..k]), id) == 0
    decreases |more|
  {
    hide Inv, TrackOf, Step, Left;
    var s := Run(cfg, inputs);
    assert inputs + more[..0] == inputs;
    if Left(s, id) > 0 {
      assert more != [];
      var i := more[0];
      var next := inputs + [i];
      assert next[..|inputs|] == inputs;
      RunInv(cfg, inputs);
      StepInv(s, i);
      StepLeft(s, i, id);
      StallEnds(cfg, next, more[1..], id);
      var k :| 0 <= k <= |more[1..]| && Left(Run(cfg, next + more[1..][..k]), id) == 0;
      assert next + more[1..][..k] == inputs + more[..k + 1];
    }
  }

  function HeldCount(trace: seq<Event>, id: Id, kind: Kind): nat {
    if trace == [] then 0
    else HeldCount(trace[..|trace| - 1], id, kind) + if trace[|trace| - 1] == Held(id, kind) then 1 else 0
  }

  lemma HeldStep(t: Track, e: Event, id: Id, kind: Kind)
    requires Sane(t) && Allowed(t, e) && About(e, id)
    ensures HeldSoFar(Effect(t, e), kind) == HeldSoFar(t, kind) + if e == Held(id, kind) then 1 else 0
  {
    hide Verdict;
  }

  lemma {:induction false} HeldSays(trace: seq<Event>, id: Id, kind: Kind)
    requires Clean(trace)
    ensures HeldSoFar(TrackOf(trace, id), kind) == HeldCount(trace, id, kind)
    decreases |trace|
  {
    hide TrackOf, Allowed, Effect, Sane;
    TrackNil(id);
    if trace != [] {
      hide HeldSoFar;
      var n := |trace| - 1;
      CleanPrefix(trace, n);
      HeldSays(trace[..n], id, kind);
      assert trace[..n + 1] == trace;
      At(trace, n, id);
      SaneAt(trace, n, id);
      if About(trace[n], id) { HeldStep(TrackOf(trace[..n], id), trace[n], id, kind); }
    }
  }

  /** What is left of a stall is what is configured for its kind and has not passed yet. */
  lemma StallIsExact(cfg: Config, inputs: seq<Input>, id: Id)
    requires id in Run(cfg, inputs).reqs
    ensures var s := Run(cfg, inputs);
            && (s.reqs[id].pullPending ==> Left(s, id) + HeldCount(s.trace, id, Pull) == cfg.pullStall + 1)
            && (s.reqs[id].pushPending ==> Left(s, id) + HeldCount(s.trace, id, Push) == cfg.pushStall + 1)
  {
    hide TrackOf, Run;
    var s := Run(cfg, inputs);
    RunCfg(cfg, inputs);
    RunInv(cfg, inputs);
    RunClean(cfg, inputs);
    SettledFacts(s, id);
    HeldSays(s.trace, id, Pull);
    HeldSays(s.trace, id, Push);
  }

  /** A transfer of an Exec is tried after exactly the configured ticks of its kind, one of a KV verb at once. */
  lemma TriedOnTime(cfg: Config, inputs: seq<Input>, k: nat, i: nat)
    requires var tr := Run(cfg, inputs).trace;
             && k < |tr| && i < |tr| && tr[k].Received? && (tr[i].Submit? || tr[i].Refused?) && tr[i].id == tr[k].id
    ensures var tr := Run(cfg, inputs).trace; var ask := tr[k].ask;
            HeldCount(tr[..i], tr[k].id, tr[i].kind) ==
            if !tr[k].exec then 0 else if tr[i].kind.Pull? then ask.cfg.pullStall else ask.cfg.pushStall
  {
    hide TrackOf, Run;
    var tr := Run(cfg, inputs).trace;
    RunClean(cfg, inputs);
    At(tr, i, tr[k].id);
    ReceivedSays(tr, k, i, tr[k].id);
    CleanPrefix(tr, i);
    HeldSays(tr[..i], tr[k].id, tr[i].kind);
  }

  lemma {:induction false} RunCfg(cfg: Config, inputs: seq<Input>)
    ensures Run(cfg, inputs).cfg == cfg
    decreases |inputs|
  {
    hide Inv, TrackOf, Step;
    if inputs != [] {
      var n := |inputs| - 1;
      RunCfg(cfg, inputs[..n]);
      RunInv(cfg, inputs[..n]);
      StepInv(Run(cfg, inputs[..n]), inputs[n]);
      StepGrows(Run(cfg, inputs[..n]), inputs[n]);
    }
  }

  lemma StepGrows(s: State, i: Input)
    requires Inv(s, {}) && RegistryOk(s)
    ensures Step(s, i).cfg == s.cfg && s.trace <= Step(s, i).trace
  {
    hide Arrive, TransferDone, TickAll, Inv;
    FreshId(s);
    match i
    case ArriveIn(decoded, exec, key, inputBulk, inputLen, sink, env) =>
      ArriveElsewhere(s, exec, key, inputBulk, inputLen, sink, env);
      ArriveIdle(s, exec, key, inputBulk, inputLen, sink, env);
    case CancelIn(_, _, _) =>
    case TransferIn(op, outcome, env) =>
      if op in s.live && s.live[op].id in s.reqs { TransferDoneElsewhere(s, op, outcome, env); }
      else { TransferIdle(s, op, outcome, env); }
    case TickIn(envs) =>
      assert Distinct(s.inflight) by { InvDistinct(s); }
      TickAllLeft(s, s.inflight, envs, 0);
  }

  /** Ticks and completions leave what is stashed where it is. */
  lemma {:induction false} TickAllKeeps(s: State, ids: seq<Id>, env: Id -> Env)
    requires Inv(s, {})
    ensures KeepsHandles(s, TickAll(s, ids, env)) && TickAll(s, ids, env).reqs.Keys <= s.reqs.Keys
    ensures TickAll(s, ids, env).nextHandle == s.nextHandle
    decreases |ids|
  {
    hide Inv, TickOne;
    if ids != [] && ids[0] in s.reqs {
      NotBoth(s, ids[0]);
      TickOneLeft(s, ids[0], env(ids[0]));
      TickOneInv(s, ids[0], env(ids[0]));
      TickAllKeeps(TickOne(s, ids[0], env(ids[0])), ids[1..], env);
    } else if ids != [] {
      TickAllKeeps(s, ids[1..], env);
    }
  }

  lemma StepKeeps(s: State, i: Input)
    requires Inv(s, {}) && RegistryOk(s) && !i.CancelIn?
    ensures KeepsHandles(s, Step(s, i)) && Step(s, i).nextHandle == s.nextHandle
    ensures forall j | j in Step(s, i).reqs && j !in s.reqs :: Step(s, i).reqs[j].cancelHandle.None?
  {
    hide Arrive, TransferDone, TickAll, HandlesOk, RequestsOk;
    match i
    case ArriveIn(decoded, exec, key, inputBulk, inputLen, sink, env) =>
      ArriveElsewhere(s, exec, key, inputBulk, inputLen, sink, env);
      ArriveIdle(s, exec, key, inputBulk, inputLen, sink, env);
    case TransferIn(op, outcome, env) =>
      if op in s.live && s.live[op].id in s.reqs { TransferDoneElsewhere(s, op, outcome, env); }
      else { TransferIdle(s, op, outcome, env); }
    case TickIn(envs) => TickAllKeeps(s, s.inflight, envs);
  }

  lemma ArriveIdle(s: State, exec: bool, key: Key, inputBulk: bool, inputLen: nat, sink: bool, env: Env)
    ensures Arrive(s, false, exec, key, inputBulk, inputLen, sink, env) == s
  {
  }

  lemma FreshId(s: State)
    requires Inv(s, {})
    ensures s.nextReq !in s.reqs
  {
  }

  lemma InvDistinct(s: State)
    requires Inv(s, {})
    ensures Distinct(s.inflight)
  {
  }

  // ---- an uncancelled stall ends in a submission ----

  ghost predicate SubmittedIn(s: State, s': State, id: Id) {
    s.trace <= s'.trace && exists m :: |s.trace| <= m < |s'.trace| && s'.trace[m].Submit? && s'.trace[m].id == id
  }

  predicate Grants(env: Env) {
    env.mallocOk && env.createPullOk && env.transferPullOk && env.createPushOk && env.transferPushOk
  }

  lemma TickOneSubmits(s: State, id: Id, env: Env)
    requires id in s.reqs && Left(s, id) > 0 && !s.reqs[id].doNotPush && Grants(env)
    ensures var s' := TickOne(s, id, env);
            if Left(s, id) == 1 then SubmittedIn(s, s', id)
            else id in s'.reqs && Left(s', id) == Left(s, id) - 1 && !s'.reqs[id].doNotPush
  {
    hide SubmitPull, SubmitPush;
    var r := s.reqs[id];
    if Left(s, id) == 1 {
      var s' := TickOne(s, id, env);
      if r.pullPending {
        var s1 := Put(s, id, r.(pullPending := false));
        SubmitPullElsewhere(s1, id, env);
        var bytes :| s'.trace == s.trace + [Submit(id, Pull, bytes)];
        assert s'.trace[|s.trace|].Submit?;
      } else {
        var s1 := Put(s, id, r.(pushPending := false));
        SubmitPushElsewhere(s1, id, env);
        var bytes :| s'.trace == s.trace + [Submit(id, Push, bytes)];
        assert s'.trace[|s.trace|].Submit?;
      }
    }
  }

  lemma {:induction false} TickAllSubmits(s: State, ids: seq<Id>, env: Id -> Env, id: Id)
    requires Inv(s, {}) && Distinct(ids) && id in ids && id in s.reqs
    requires Left(s, id) > 0 && !s.reqs[id].doNotPush && Grants(env(id))
    ensures var s' := TickAll(s, ids, env);
            if Left(s, id) == 1 then SubmittedIn(s, s', id)
            else id in s'.reqs && Left(s', id) == Left(s, id) - 1 && !s'.reqs[id].doNotPush
    decreases |ids|
  {
    hide Inv, TickOne, Left;
    var a := ids[0];
    assert ids == [a] + ids[1..] && a !in ids[1..] && Distinct(ids[1..]);
    var s1 := if a in s.reqs then TickOne(s, a, env(a)) else s;
    var s' := TickAll(s1, ids[1..], env);
    if a in s.reqs {
      NotBoth(s, a);
      TickOneLeft(s, a, env(a));
      TickOneInv(s, a, env(a));
    }
    TickAllLeft(s1, ids[1..], env, id);
    LeftDepends(s, s1, id);
    LeftDepends(s1, s', id);
    if a == id {
      TickOneSubmits(s, id, env(id));
      if Left(s, id) == 1 {
        var m :| |s.trace| <= m < |s1.trace| && s1.trace[m].Submit? && s1.trace[m].id == id;
        assert s'.trace[m] == s1.trace[m];
      }
    } else {
      TickAllSubmits(s1, ids[1..], env, id);
      if Left(s, id) == 1 {
        var m :| |s1.trace| <= m < |s'.trace| && s'.trace[m].Submit? && s'.trace[m].id == id;
      }
    }
  }

  lemma {:induction false} RunGrows(cfg: Config, inputs: seq<Input>, more: seq<Input>)
    ensures Run(cfg, inputs).trace <= Run(cfg, inputs + more).trace
    decreases |more|
  {
    hide Inv, Step;
    if more == [] {
      assert inputs + more == inputs;
    } else {
      var n := |more| - 1;
      RunGrows(cfg, inputs, more[..n]);
      assert (inputs + more)[..|inputs + more| - 1] == inputs + more[..n];
      var s := Run(cfg, inputs + more[..n]);
      RunInv(cfg, inputs + more[..n]);
      StepInv(s, more[n]);
      StepGrows(s, more[n]);
    }
  }

  lemma TickSubmits(s: State, env: Id -> Env, id: Id)
    requires Inv(s, {}) && RegistryOk(s) && id in s.reqs && Left(s, id) > 0 && !s.reqs[id].doNotPush && Grants(env(id))
    ensures var s' := Step(s, TickIn(env));
            if Left(s, id) == 1 then SubmittedIn(s, s', id)
            else id in s'.reqs && Left(s', id) == Left(s, id) - 1 && !s'.reqs[id].doNotPush
  {
    hide TickAll, RequestsOk, HandlesOk, Left, Consistent;
    SettledFacts(s, id);
    StallConfigured(s, id);
    StallIsExec(s, id);
    TickAllSubmits(s, s.inflight, env, id);
  }

  /** Ticks alone bring an uncancelled stall to its submission. */
  lemma {:induction false} TicksSubmit(cfg: Config, inputs: seq<Input>, id: Id, env: Id -> Env)
    returns (more: seq<Input>)
    requires var s := Run(cfg, inputs); id in s.reqs && Left(s, id) > 0 && !s.reqs[id].doNotPush
    requires Grants(env(id))
    ensures SubmittedIn(Run(cfg, inputs), Run(cfg, inputs + more), id)
    decreases Left(Run(cfg, inputs), id)
  {
    hide Run, Inv, Step, Left;
    var s := Run(cfg, inputs);
    var tick := TickIn(env);
    var next := inputs + [tick];
    RunSnoc(cfg, inputs, tick);
    TickSubmits(s, env, id);
    if Left(s, id) == 1 {
      more := [tick];
    } else {
      StepGrows(s, tick);
      var rest := TicksSubmit(cfg, next, id, env);
      more := [tick] + rest;
      assert inputs + more == next + rest;
      var s1, s2 := Run(cfg, next), Run(cfg, next + rest);
      var m :| |s1.trace| <= m < |s2.trace| && s2.trace[m].Submit? && s2.trace[m].id == id;
    }
  }

  lemma StallIsExec(s: State, id: Id)
    requires id in s.reqs && Consistent(s, id) && Left(s, id) > 0
    ensures id in s.inflight
  {
  }

  lemma StallConfigured(s: State, id: Id)
    requires id in s.reqs && Consistent(s, id) && Left(s, id) > 0
    ensures s.cfg.pushStall > 0 || s.cfg.pullStall > 0
  {
  }
}
