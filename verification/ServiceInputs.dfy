/**
 * What a step writes into the trace comes from its input: what was asked, what the outside granted or
 * refused, how a transfer ended, what was run, and which cancel it was. Together with the automaton of
 * `ServiceInvariant` this fixes what the service does.
 */
module ServiceInputs {
  import opened Common
  import opened ServiceState
  import opened ServiceInvariant
  import opened ServiceSteps
  import opened ServiceTheorems
  import opened ServiceStalls
  import opened ServiceLimits

  predicate Granted(env: Env, kind: Kind) {
    if kind.Pull? then env.mallocOk && env.createPullOk && env.transferPullOk
    else env.createPushOk && env.transferPushOk
  }

  /** The first thing of a transfer that is not granted. */
  predicate Refuses(env: Env, kind: Kind, what: Resource) {
    match what
    case Memory => kind.Pull? && !env.mallocOk
    case View => if kind.Pull? then env.mallocOk && !env.createPullOk else !env.createPushOk
    case Wire =>
      if kind.Pull? then env.mallocOk && env.createPullOk && !env.transferPullOk
      else env.createPushOk && !env.transferPushOk
  }

  function EnvFor(i: Input, id: Id): Env
    requires !i.CancelIn?
  {
    if i.TickIn? then i.envs(id) else i.env
  }

  /** Event `e` says what input `i` brings to state `s`. */
  ghost predicate Says(s: State, i: Input, e: Event) {
    match e
    case Received(id, exec, key, ask) =>
      && i.ArriveIn? && i.decoded && id == s.nextReq && exec == i.exec && key == i.key
      && ask == Ask(i.inputBulk, i.inputLen, i.sink, s.cfg)
    case Ran(id, res) =>
      || (i.ArriveIn? && id == s.nextReq && res == i.env.res)
      || (i.TransferIn? && i.op in s.live && s.live[i.op] == Xfer(id, Pull) && i.outcome.Landed? && res == i.env.res)
    case Held(_, _) => i.TickIn?
    case Submit(id, kind, _) => !i.CancelIn? && Granted(EnvFor(i, id), kind)
    case Refused(id, kind, what) => !i.CancelIn? && Refuses(EnvFor(i, id), kind, what)
    case Done(id, kind, outcome) =>
      i.TransferIn? && i.op in s.live && s.live[i.op] == Xfer(id, kind) && outcome == i.outcome
    case Stash(id, h, live, issued) =>
      && i.CancelIn? && i.decoded && h == s.nextHandle && id in s.reqs && s.reqs[id].key == i.key
      && issued == i.bulkCancelOk
    case Acked(h, key, _, via) => !via.Chokepoint? ==> i.CancelIn? && i.decoded && h == s.nextHandle && key == i.key
    case _ => true
  }

  // ---- the part of a step that works on one request ----

  ghost predicate Own(env: Env, id: Id, e: Event) {
    match e
    case Ran(j, res) => j == id && res == env.res
    case Submit(j, kind, _) => j == id && Granted(env, kind)
    case Refused(j, kind, what) => j == id && Refuses(env, kind, what)
    case Acked(_, _, _, via) => via.Chokepoint?
    case _ => e.Deregister? || e.Respond? || e.Quiesce? || e.Free?
  }

  ghost predicate Grew(s: State, s': State, env: Env, id: Id) {
    s.trace <= s'.trace && forall m | |s.trace| <= m < |s'.trace| :: Own(env, id, s'.trace[m])
  }

  lemma GrewChain(s: State, s1: State, s2: State, env: Env, id: Id)
    requires Grew(s, s1, env, id) && Grew(s1, s2, env, id)
    ensures Grew(s, s2, env, id)
  {
    forall m | |s.trace| <= m < |s2.trace| ensures Own(env, id, s2.trace[m]) {
      if m < |s1.trace| { assert s2.trace[m] == s1.trace[m]; }
    }
  }

  lemma FinishGrew(s: State, id: Id, env: Env)
    requires id in s.reqs
    ensures Grew(s, Finish(s, id), env, id)
  {
    hide Finish, FinishEvents;
    FinishTrace(s, id);
    var es := FinishEvents(s.reqs[id], id);
    forall m | |s.trace| <= m < |Finish(s, id).trace| ensures Own(env, id, Finish(s, id).trace[m]) {
      FinishOwn(s.reqs[id], id, env, es[m - |s.trace|]);
    }
  }

  lemma FinishOwn(r: Req, id: Id, env: Env, e: Event)
    requires e in FinishEvents(r, id)
    ensures Own(env, id, e)
  {
  }

  lemma FailGrew(s: State, id: Id, status: Status, env: Env)
    requires id in s.reqs
    ensures Grew(s, Fail(s, id, status), env, id)
  {
    hide Finish;
    FinishGrew(Put(s, id, s.reqs[id].(out := FailOut(status))), id, env);
  }

  lemma LogGrew(s: State, s': State, e: Event, env: Env, id: Id)
    requires s'.trace == s.trace + [e] && Own(env, id, e)
    ensures Grew(s, s', env, id)
  {
  }

  lemma RefuseGrew(s: State, id: Id, kind: Kind, what: Resource, status: Status, env: Env)
    requires id in s.reqs && Refuses(env, kind, what)
    ensures Grew(s, Fail(Log(s, Refused(id, kind, what)), id, status), env, id)
  {
    hide Fail, Grew;
    var s1 := Log(s, Refused(id, kind, what));
    LogGrew(s, s1, Refused(id, kind, what), env, id);
    FailGrew(s1, id, status, env);
    GrewChain(s, s1, Fail(s1, id, status), env, id);
  }

  lemma SubmitPushGrew(s: State, id: Id, env: Env)
    requires id in s.reqs
    ensures Grew(s, SubmitPush(s, id, env), env, id)
  {
    hide Fail, Grew;
    if s.reqs[id].doNotPush {
      FailGrew(s, id, ABORTED, env);
    } else if !env.createPushOk {
      RefuseGrew(s, id, Push, View, FAILED, env);
    } else if !env.transferPushOk {
      RefuseGrew(s, id, Push, Wire, FAILED, env);
    } else {
      LogGrew(s, SubmitPush(s, id, env), Submit(id, Push, s.reqs[id].res.buf), env, id);
    }
  }

  lemma SubmitPullGrew(s: State, id: Id, env: Env)
    requires id in s.reqs
    ensures Grew(s, SubmitPull(s, id, env), env, id)
  {
    hide Fail, Grew;
    if s.reqs[id].doNotPush {
      FailGrew(s, id, ABORTED, env);
    } else if !env.mallocOk {
      RefuseGrew(s, id, Pull, Memory, NOMEM, env);
    } else if !env.createPullOk {
      RefuseGrew(s, id, Pull, View, FAILED, env);
    } else if !env.transferPullOk {
      RefuseGrew(s, id, Pull, Wire, FAILED, env);
    } else {
      LogGrew(s, SubmitPull(s, id, env), Submit(id, Pull, []), env, id);
    }
  }

  lemma RunAndDeliverGrew(s: State, id: Id, env: Env)
    requires id in s.reqs
    ensures Grew(s, RunAndDeliver(s, id, env), env, id)
  {
    hide Fail, Finish, SubmitPush, Grew;
    var s1 := Log(Put(s, id, s.reqs[id].(res := env.res)), Ran(id, env.res));
    LogGrew(s, s1, Ran(id, env.res), env, id);
    var s2 := Deliver(s1, id, env);
    var r := s1.reqs[id];
    if r.sink && |r.res.buf| > INLINE_MAX {
      if r.doNotPush {
        FailGrew(s1, id, ABORTED, env);
      } else if r.stallTicks > 0 {
        SameGrew(s1, s2, env, id);
      } else {
        SubmitPushGrew(s1, id, env);
      }
    } else if |r.res.buf| > INLINE_MAX {
      FailGrew(s1, id, NOT_SUPPORTED, env);
    } else {
      var s3 := Put(s1, id, r.(out := Out(r.res.status, r.res.resultLen, r.res.buf)));
      SameGrew(s1, s3, env, id);
      FinishGrew(s3, id, env);
      GrewChain(s1, s3, s2, env, id);
    }
    GrewChain(s, s1, s2, env, id);
  }

  lemma SameGrew(s: State, s': State, env: Env, id: Id)
    requires s'.trace == s.trace
    ensures Grew(s, s', env, id)
  {
  }

  // ---- whole steps ----

  /** The trace grew by events that say what input `i` brought to `s0`. */
  ghost predicate Told(s0: State, i: Input, s: State, s': State) {
    s.trace <= s'.trace && forall m | |s.trace| <= m < |s'.trace| :: Says(s0, i, s'.trace[m])
  }

  lemma ToldChain(s0: State, i: Input, s: State, s1: State, s2: State)
    requires Told(s0, i, s, s1) && Told(s0, i, s1, s2)
    ensures Told(s0, i, s, s2)
  {
    hide Says;
    forall m | |s.trace| <= m < |s2.trace| ensures Says(s0, i, s2.trace[m]) {
      if m < |s1.trace| { assert s2.trace[m] == s1.trace[m]; }
    }
  }

  lemma ToldOne(s0: State, i: Input, s: State, s': State, e: Event)
    requires s'.trace == s.trace + [e] && Says(s0, i, e)
    ensures Told(s0, i, s, s')
  {
    hide Says;
  }

  /** `id` is the request the input is about, so that it may run. */
  ghost predicate MayRun(s0: State, i: Input, id: Id) {
    || (i.ArriveIn? && id == s0.nextReq)
    || (i.TransferIn? && i.op in s0.live && s0.live[i.op] == Xfer(id, Pull) && i.outcome.Landed?)
  }

  lemma GrewTells(s0: State, i: Input, s: State, s': State, id: Id)
    requires !i.CancelIn? && Grew(s, s', EnvFor(i, id), id)
    requires MayRun(s0, i, id) || forall m | |s.trace| <= m < |s'.trace| :: !s'.trace[m].Ran?
    ensures Told(s0, i, s, s')
  {
    forall m | |s.trace| <= m < |s'.trace| ensures Says(s0, i, s'.trace[m]) {
      assert Own(EnvFor(i, id), id, s'.trace[m]);
    }
  }

  lemma ArriveTells(s: State, i: Input)
    requires Inv(s, {}) && i.ArriveIn? && i.decoded && RegistryOk(s)
    ensures Told(s, i, s, Step(s, i)) && |Step(s, i).trace| > |s.trace| && Step(s, i).trace[|s.trace|].Received?
  {
    hide Fail, SubmitPull, RunAndDeliver, Says, Inv;
    var id := s.nextReq;
    var s1 := Admit(s, NewReq(s.cfg, i.exec, i.key, i.inputBulk, i.inputLen, i.sink));
    var e := Received(id, i.exec, i.key, Ask(i.inputBulk, i.inputLen, i.sink, s.cfg));
    assert Says(s, i, e) by { ReceivedTold(s, i, e); }
    ToldOne(s, i, s, s1, e);
    var s2 := Start(s1, id, i.env);
    if !s.cfg.hasExecutor {
      FailGrew(s1, id, NOT_SUPPORTED, i.env);
    } else if i.inputBulk && i.inputLen > INLINE_MAX {
      SubmitPullGrew(s1, id, i.env);
    } else {
      RunAndDeliverGrew(s1, id, i.env);
    }
    assert Grew(s1, s2, i.env, id);
    hide Grew, Told;
    GrewTells(s, i, s1, s2, id);
    ToldChain(s, i, s, s1, s2);
    assert s2.trace[|s.trace|] == e by { GrewPrefix(s1, s2, i.env, id); }
  }

  lemma ReceivedTold(s: State, i: Input, e: Event)
    requires i.ArriveIn? && i.decoded
    requires e == Received(s.nextReq, i.exec, i.key, Ask(i.inputBulk, i.inputLen, i.sink, s.cfg))
    ensures Says(s, i, e)
  {
  }

  lemma GrewPrefix(s: State, s': State, env: Env, id: Id)
    requires Grew(s, s', env, id)
    ensures s.trace <= s'.trace
  {
  }

  lemma TransferTells(s: State, i: Input)
    requires Inv(s, {}) && i.TransferIn? && i.op in s.live && RegistryOk(s)
    ensures Told(s, i, s, Step(s, i)) && |Step(s, i).trace| > |s.trace| && Step(s, i).trace[|s.trace|].Done?
  {
    hide Fail, Finish, RunAndDeliver, Says, RequestsOk, HandlesOk;
    var x := s.live[i.op];
    var id := x.id;
    var s1 := Retire(s, i.op, i.outcome);
    var e := Done(id, x.kind, i.outcome);
    assert Says(s, i, e) by { DoneTold(s, i, e); }
    ToldOne(s, i, s, s1, e);
    var s2 := Step(s, i);
    if !i.outcome.Landed? {
      var s3 := Put(s1, id, s1.reqs[id].(hadPushCanceled := true));
      FailGrew(s3, id, ABORTED, i.env);
      FailGrew(s1, id, FAILED, i.env);
      FailNeverRuns(s3, id, ABORTED);
      FailNeverRuns(s1, id, FAILED);
    } else if x.kind.Pull? {
      RunAndDeliverGrew(s1, id, i.env);
    } else {
      var r := s1.reqs[id];
      var s3 := Put(s1, id, r.(out := Out(r.res.status, r.res.resultLen, [])));
      FinishGrew(s3, id, i.env);
      FinishTrace(s3, id);
    }
    assert Grew(s1, s2, i.env, id);
    hide Grew, Told;
    GrewTells(s, i, s1, s2, id);
    ToldChain(s, i, s, s1, s2);
    assert s2.trace[|s.trace|] == e by { GrewPrefix(s1, s2, i.env, id); }
  }

  lemma DoneTold(s: State, i: Input, e: Event)
    requires i.TransferIn? && i.op in s.live && e == Done(s.live[i.op].id, s.live[i.op].kind, i.outcome)
    ensures Says(s, i, e)
  {
  }

  lemma FailNeverRuns(s: State, id: Id, status: Status)
    requires id in s.reqs
    ensures s.trace <= Fail(s, id, status).trace
    ensures forall m | |s.trace| <= m < |Fail(s, id, status).trace| :: !Fail(s, id, status).trace[m].Ran?
  {
    hide Finish;
    FinishTrace(Put(s, id, s.reqs[id].(out := FailOut(status))), id);
  }

  lemma CancelTells(s: State, i: Input)
    requires i.CancelIn? && i.decoded && RegistryOk(s)
    ensures Told(s, i, s, Step(s, i)) && |Step(s, i).trace| == |s.trace| + 1
  {
    hide Lookup;
  }

  lemma TickOneTells(s0: State, i: Input, s: State, id: Id)
    requires i.TickIn? && id in s.reqs
    ensures Told(s0, i, s, TickOne(s, id, i.envs(id)))
  {
    hide Fail, SubmitPull, SubmitPush, Says;
    var r := s.reqs[id];
    var env := i.envs(id);
    var s' := TickOne(s, id, env);
    if r.pullPending {
      var s1 := Put(s, id, r.(pullPending := false));
      if r.doNotPush {
        FailGrew(s1, id, ABORTED, env);
        FailNeverRuns(s1, id, ABORTED);
        GrewTells(s0, i, s1, s', id);
      } else if r.pullStallTicks > 0 {
        HeldTold(s0, i, Held(id, Pull));
        ToldOne(s0, i, s, s', Held(id, Pull));
      } else {
        SubmitPullGrew(s1, id, env);
        SubmitNeverRuns(s1, id, env);
        GrewTells(s0, i, s1, s', id);
      }
    } else if r.pushPending {
      var s1 := Put(s, id, r.(pushPending := false));
      if r.doNotPush && r.stallTicks == 0 {
        FailGrew(s1, id, ABORTED, env);
        FailNeverRuns(s1, id, ABORTED);
        GrewTells(s0, i, s1, s', id);
      } else if r.stallTicks > 0 {
        HeldTold(s0, i, Held(id, Push));
        ToldOne(s0, i, s, s', Held(id, Push));
      } else {
        SubmitPushGrew(s1, id, env);
        SubmitNeverRuns(s1, id, env);
        GrewTells(s0, i, s1, s', id);
      }
    }
  }

  lemma HeldTold(s: State, i: Input, e: Event)
    requires i.TickIn? && e.Held?
    ensures Says(s, i, e)
  {
  }

  ghost predicate NoRuns(s: State, s': State) {
    s.trace <= s'.trace && forall m | |s.trace| <= m < |s'.trace| :: !s'.trace[m].Ran?
  }

  lemma RefuseNeverRuns(s: State, id: Id, e: Event, status: Status)
    requires id in s.reqs && !e.Ran?
    ensures NoRuns(s, Fail(Log(s, e), id, status))
  {
    hide Fail;
    FailNeverRuns(Log(s, e), id, status);
  }

  lemma SubmitNeverRuns(s: State, id: Id, env: Env)
    requires id in s.reqs
    ensures NoRuns(s, SubmitPull(s, id, env)) && NoRuns(s, SubmitPush(s, id, env))
  {
    hide Fail;
    FailNeverRuns(s, id, ABORTED);
    RefuseNeverRuns(s, id, Refused(id, Pull, Memory), NOMEM);
    RefuseNeverRuns(s, id, Refused(id, Pull, View), FAILED);
    RefuseNeverRuns(s, id, Refused(id, Pull, Wire), FAILED);
    RefuseNeverRuns(s, id, Refused(id, Push, View), FAILED);
    RefuseNeverRuns(s, id, Refused(id, Push, Wire), FAILED);
  }

  lemma {:induction false} TickAllTells(s0: State, i: Input, s: State, ids: seq<Id>)
    requires i.TickIn?
    ensures Told(s0, i, s, TickAll(s, ids, i.envs))
    decreases |ids|
  {
    hide Says, TickOne;
    if ids != [] {
      var s1 := if ids[0] in s.reqs then TickOne(s, ids[0], i.envs(ids[0])) else s;
      if ids[0] in s.reqs { TickOneTells(s0, i, s, ids[0]); }
      TickAllTells(s0, i, s1, ids[1..]);
      ToldChain(s0, i, s, s1, TickAll(s, ids, i.envs));
    }
  }

  /**
   * Over any run, the events the next input adds say what it brought: an arrival is received as it was
   * sent, a completion ends its transfer the way it ended, a run gives the backend's result, a transfer
   * is submitted when everything for it was granted and refused for the first thing that was not, and a
   * cancel is recorded with its key, its handle and whether the transfer could be cancelled.
   */
  lemma StepTells(cfg: Config, inputs: seq<Input>, i: Input)
    ensures Told(Run(cfg, inputs), i, Run(cfg, inputs), Run(cfg, inputs + [i]))
    ensures var tr, tr' := Run(cfg, inputs).trace, Run(cfg, inputs + [i]).trace;
            && (i.ArriveIn? && i.decoded ==> |tr'| > |tr| && tr'[|tr|].Received?)
            && (i.TransferIn? && i.op in Run(cfg, inputs).live ==> |tr'| > |tr| && tr'[|tr|].Done?)
            && (i.CancelIn? && i.decoded ==> |tr'| == |tr| + 1)
            && ((i.ArriveIn? || i.CancelIn?) && !i.decoded ==> tr' == tr)
  {
    hide Run, Inv, Told, Arrive, Cancel, TransferDone, TickAll;
    var s := Run(cfg, inputs);
    RunSnoc(cfg, inputs, i);
    match i
    case ArriveIn(decoded, exec, key, inputBulk, inputLen, sink, env) =>
      ArriveIdle(s, exec, key, inputBulk, inputLen, sink, env);
      if decoded { ArriveTells(s, i); } else { Untold(s, i, Step(s, i)); }
    case CancelIn(decoded, key, bulkCancelOk) =>
      CancelIdle(s, key, bulkCancelOk);
      if decoded { CancelTells(s, i); } else { Untold(s, i, Step(s, i)); }
    case TransferIn(op, outcome, env) =>
      if op in s.live { TransferTells(s, i); } else { TransferIdle(s, op, outcome, env); Untold(s, i, Step(s, i)); }
    case TickIn(envs) =>
      TickAllTells(s, i, s, s.inflight);
      Untold(s, i, s);
  }

  lemma CancelIdle(s: State, key: Key, bulkCancelOk: bool)
    requires RegistryOk(s)
    ensures Cancel(s, false, key, bulkCancelOk) == s
  {
  }

  lemma Untold(s: State, i: Input, s': State)
    requires s' == s
    ensures Told(s, i, s, s')
  {
  }

  // ---- the cancel handler ----

  /** An Exec received under `key` and not yet freed. */
  ghost predicate Open(trace: seq<Event>, key: Key, id: Id) {
    ReceivedBefore(trace, |trace|, id, key) && Free(id) !in trace
  }

  lemma OpenIsRegistered(cfg: Config, inputs: seq<Input>, key: Key, id: Id)
    ensures var s := Run(cfg, inputs);
            RegistryOk(s) && (Open(s.trace, key, id) <==> id in s.inflight && s.reqs[id].key == key)
  {
    hide Run, TrackOf, HandlesOk, Consistent;
    var s := Run(cfg, inputs);
    var tr := s.trace;
    RunInv(cfg, inputs);
    RunClean(cfg, inputs);
    assert tr[..|tr|] == tr;
    PassedThrough(tr, |tr|, id);
    if id in s.inflight && s.reqs[id].key == key {
      Registered(s, id);
      RegisteredWasReceived(tr, |tr|, id);
      NotFreed(tr, id);
    }
    if Open(tr, key, id) {
      ReceivedTrack(tr, |tr|, id, key);
      if id in s.reqs { Registered(s, id); }
    }
  }

  lemma NotFreed(trace: seq<Event>, id: Id)
    requires Clean(trace) && !TrackOf(trace, id).phase.Freed?
    ensures Free(id) !in trace
  {
    hide TrackOf;
    assert trace[..|trace|] == trace;
    forall f | 0 <= f < |trace| ensures trace[f] != Free(id) {
      if trace[f] == Free(id) {
        At(trace, f, id);
        RankGrows(trace, f + 1, |trace|, id);
      }
    }
  }

  /**
   * A decoded cancel does one thing. If no Exec is open under its key it is acked at once. Otherwise it
   * concerns the oldest one open: it is acked as a duplicate if a cancel is pending there, and else it
   * is left there, with whether a transfer of that request was live.
   */
  lemma CancelExact(cfg: Config, inputs: seq<Input>, key: Key, bulkCancelOk: bool, id: Id)
    ensures var s, tr := Run(cfg, inputs), Run(cfg, inputs).trace;
            var tr' := Run(cfg, inputs + [CancelIn(true, key, bulkCancelOk)]).trace;
            && AckCount(tr, s.nextHandle) == 0
            && ((forall j: Id :: !Open(tr, key, j)) ==> tr' == tr + [Acked(s.nextHandle, key, ALREADY_DONE, NotFound)])
            && (Open(tr, key, id) && (forall j: Id | j < id :: !Open(tr, key, j)) ==>
                  tr' == tr + [if StashedBefore(tr, |tr|, id) then Acked(s.nextHandle, key, ALREADY_DONE, Duplicate(id))
                               else Stash(id, s.nextHandle, LiveAt(tr, |tr|, id), bulkCancelOk)])
  {
    hide Run, TrackOf, AckCount, RequestsOk, Open, LiveAt, StashedBefore;
    var s := Run(cfg, inputs);
    RunSnoc(cfg, inputs, CancelIn(true, key, bulkCancelOk));
    forall j: Id ensures RegistryOk(s) && (Open(s.trace, key, j) <==> j in s.inflight && s.reqs[j].key == key) {
      OpenIsRegistered(cfg, inputs, key, j);
    }
    if Open(s.trace, key, id) && (forall j: Id | j < id :: !Open(s.trace, key, j)) {
      var found := Lookup(s.reqs, s.inflight, key);
      FirstIsOldest(s, key, found.value);
      OldestIs(s, found.value, id);
      PendingSays(cfg, inputs, id);
    }
  }

  lemma OldestIs(s: State, a: Id, b: Id)
    requires Inv(s, {}) && a in s.inflight && b in s.inflight && a in s.reqs && b in s.reqs
    requires s.reqs[a].key == s.reqs[b].key && Oldest(s, a) && Oldest(s, b)
    ensures a == b
  {
    hide TrackOf, HandlesOk;
    assert Consistent(s, a) && Consistent(s, b);
  }

  lemma PendingSays(cfg: Config, inputs: seq<Input>, id: Id)
    requires id in Run(cfg, inputs).reqs
    ensures var s := Run(cfg, inputs);
            && (s.reqs[id].cancelHandle.Some? <==> StashedBefore(s.trace, |s.trace|, id))
            && (s.reqs[id].inFlight <==> LiveAt(s.trace, |s.trace|, id))
  {
    hide Run, TrackOf, HandlesOk;
    var s := Run(cfg, inputs);
    var tr := s.trace;
    RunInv(cfg, inputs);
    RunClean(cfg, inputs);
    SettledFacts(s, id);
    assert tr[..|tr|] == tr;
    StashSays(tr, |tr|, id);
    if s.reqs[id].inFlight { MovingIsLive(tr, |tr|, id); }
    if LiveAt(tr, |tr|, id) {
      var k :| && 0 <= k < |tr| && tr[k].Submit? && tr[k].id == id
               && forall m | k < m < |tr| :: !(tr[m].Done? && tr[m].id == id);
      LiveIsMoving(tr, k, |tr|, id);
    }
  }
}
