/**
 * The service as it is written: one object whose handlers update the registry, the requests
 * and the live transfers in place. Each method is proved against the step function it runs.
 */
module Service {
  import opened Common
  import S = ServiceState
  import opened ServiceState
  import opened ServiceInvariant
  import opened ServiceSteps
  import opened ServiceTheorems
  import opened ServiceStalls

  class Executor {
    const cfg: Config
    var reqs: map<Id, Req>
    var inflight: seq<Id>
    var live: map<OpId, Xfer>
    var nextReq: Id
    var nextOp: OpId
    var nextHandle: Handle
    ghost var trace: seq<Event>

    ghost function Abs(): State
      reads this
    {
      State(cfg, reqs, inflight, live, nextReq, nextOp, nextHandle, trace)
    }

    constructor (cfg: Config)
      ensures Abs() == Init(cfg) && Inv(Abs(), {})
    {
      this.cfg := cfg;
      reqs, inflight, live := map[], [], map[];
      nextReq, nextOp, nextHandle := 0, 0, 0;
      trace := [];
      new;
      InitInv(cfg);
    }

    method RegRemove(id: Id)
      requires id in reqs
      modifies this
      ensures Abs() == S.RegRemove(old(Abs()), id)
    {
      if !reqs[id].registered { return; }
      inflight := Remove(inflight, id);
      reqs := reqs[id := reqs[id].(registered := false)];
      trace := trace + [Deregister(id)];
    }

    /** Walk the registry for the first request under `key`. */
    method RegLookup(key: Key) returns (r: Option<Id>)
      requires RegistryOk(Abs())
      ensures r == Lookup(reqs, inflight, key)
    {
      var i := 0;
      while i < |inflight|
        invariant 0 <= i <= |inflight|
        invariant Lookup(reqs, inflight, key) == Lookup(reqs, inflight[i..], key)
      {
        if reqs[inflight[i]].key == key { return Some(inflight[i]); }
        i := i + 1;
      }
      return None;
    }

    method Finish(id: Id)
      requires id in reqs
      modifies this
      ensures Abs() == S.Finish(old(Abs()), id)
      ensures trace == old(trace) + FinishEvents(old(reqs)[id], id) && id !in reqs
    {
      FinishTrace(Abs(), id);
      RegRemove(id);
      var r := reqs[id];
      trace := trace + [Respond(id, r.out)];
      trace := trace + [Quiesce(id)];
      if r.cancelHandle.Some? {
        trace := trace + [Acked(r.cancelHandle.value, r.key, CancelAck(r), Chokepoint(id))];
      }
      reqs := reqs - {id};
      trace := trace + [Free(id)];
    }

    method Fail(id: Id, status: Status)
      requires id in reqs
      modifies this
      ensures Abs() == S.Fail(old(Abs()), id, status)
    {
      reqs := reqs[id := reqs[id].(out := FailOut(status))];
      Finish(id);
    }

    method Refuse(id: Id, kind: Kind, what: Resource)
      requires id in reqs
      modifies this
      ensures Abs() == S.Fail(Log(old(Abs()), Refused(id, kind, what)), id, if what.Memory? then NOMEM else FAILED)
    {
      trace := trace + [Refused(id, kind, what)];
      Fail(id, if what.Memory? then NOMEM else FAILED);
    }

    method Transfer(id: Id, kind: Kind, ghost bytes: Bytes)
      requires id in reqs
      modifies this
      ensures Abs() == StartTransfer(old(Abs()), id, kind, bytes)
    {
      reqs := reqs[id := reqs[id].(inFlight := true, op := nextOp)];
      live := live[nextOp := Xfer(id, kind)];
      nextOp := nextOp + 1;
      trace := trace + [Submit(id, kind, bytes)];
    }

    method SubmitResultPush(id: Id, env: Env)
      requires id in reqs
      modifies this
      ensures Abs() == SubmitPush(old(Abs()), id, env)
    {
      if reqs[id].doNotPush { Fail(id, ABORTED); return; }
      if !env.createPushOk { Refuse(id, Push, View); return; }
      if !env.transferPushOk { Refuse(id, Push, Wire); return; }
      Transfer(id, Push, reqs[id].res.buf);
    }

    method RunAndDeliver(id: Id, env: Env)
      requires id in reqs
      modifies this
      ensures Abs() == S.RunAndDeliver(old(Abs()), id, env)
    {
      reqs := reqs[id := reqs[id].(res := env.res)];
      trace := trace + [Ran(id, env.res)];
      var r := reqs[id];
      if r.sink && |r.res.buf| > INLINE_MAX {
        if r.doNotPush { Fail(id, ABORTED); return; }
        if r.stallTicks > 0 {
          reqs := reqs[id := r.(pushPending := true)];
          return;
        }
        SubmitResultPush(id, env);
        return;
      }
      if |r.res.buf| > INLINE_MAX {
        Fail(id, NOT_SUPPORTED);
      } else {
        reqs := reqs[id := r.(out := Out(r.res.status, r.res.resultLen, r.res.buf))];
        Finish(id);
      }
    }

    method SubmitInputPull(id: Id, env: Env)
      requires id in reqs
      modifies this
      ensures Abs() == SubmitPull(old(Abs()), id, env)
    {
      if reqs[id].doNotPush { Fail(id, ABORTED); return; }
      if !env.mallocOk { Refuse(id, Pull, Memory); return; }
      if !env.createPullOk { Refuse(id, Pull, View); return; }
      if !env.transferPullOk { Refuse(id, Pull, Wire); return; }
      Transfer(id, Pull, []);
    }

    /** The tail shared by both callbacks when the transfer did not land. */
    method TransferLost(id: Id, outcome: Outcome)
      requires id in reqs
      modifies this
      ensures Abs() == CanceledOrBroken(old(Abs()), id, outcome)
    {
      if outcome.Canceled? && reqs[id].exec {
        reqs := reqs[id := reqs[id].(hadPushCanceled := true)];
        Fail(id, ABORTED);
      } else {
        Fail(id, FAILED);
      }
    }

    /** Mercury triggers the callback of a live bulk operation. */
    method OnTransferDone(op: OpId, outcome: Outcome, env: Env)
      requires Inv(Abs(), {}) && op in live
      modifies this
      ensures Abs() == TransferDone(old(Abs()), op, outcome, env) && Inv(Abs(), {})
    {
      hide Inv, S.Finish, S.RunAndDeliver, CanceledOrBroken;
      TransferDoneInv(Abs(), op, outcome, env);
      LiveOwner(Abs(), op);
      var x := live[op];
      var id := x.id;
      live := live - {op};
      reqs := reqs[id := reqs[id].(inFlight := false)];
      trace := trace + [Done(id, x.kind, outcome)];
      if !outcome.Landed? {
        TransferLost(id, outcome);
      } else if x.kind.Pull? {
        RunAndDeliver(id, env);
      } else {
        var r := reqs[id];
        reqs := reqs[id := r.(out := Out(r.res.status, r.res.resultLen, []))];
        Finish(id);
      }
    }

    method OnRequest(decoded: bool, exec: bool, key: Key, inputBulk: bool, inputLen: nat, sink: bool, env: Env)
      requires Inv(Abs(), {})
      modifies this
      ensures Abs() == Arrive(old(Abs()), decoded, exec, key, inputBulk, inputLen, sink, env) && Inv(Abs(), {})
    {
      hide Inv, S.Fail, S.RunAndDeliver, SubmitPull;
      ArriveInv(Abs(), decoded, exec, key, inputBulk, inputLen, sink, env);
      if !decoded { return; }
      var id := nextReq;
      nextReq := id + 1;
      reqs := reqs[id := NewReq(cfg, exec, key, inputBulk, inputLen, sink)];
      if exec { inflight := inflight + [id]; }
      trace := trace + [Received(id, exec, key, Ask(inputBulk, inputLen, sink, cfg))];
      if !cfg.hasExecutor { Fail(id, NOT_SUPPORTED); return; }
      if inputBulk && inputLen > INLINE_MAX {
        if reqs[id].pullStallTicks > 0 {
          reqs := reqs[id := reqs[id].(pullPending := true)];
          return;
        }
        SubmitInputPull(id, env);
        return;
      }
      RunAndDeliver(id, env);
    }

    method OnCancel(decoded: bool, key: Key, bulkCancelOk: bool)
      requires Inv(Abs(), {})
      modifies this
      ensures RegistryOk(old(Abs())) && Abs() == Cancel(old(Abs()), decoded, key, bulkCancelOk) && Inv(Abs(), {})
    {
      hide Inv, Lookup;
      CancelInv(Abs(), decoded, key, bulkCancelOk);
      if !decoded { return; }
      var h := nextHandle;
      nextHandle := h + 1;
      var found := RegLookup(key);
      if found.None? {
        trace := trace + [Acked(h, key, ALREADY_DONE, NotFound)];
        return;
      }
      var id := found.value;
      if reqs[id].cancelHandle.Some? {
        trace := trace + [Acked(h, key, ALREADY_DONE, Duplicate(id))];
        return;
      }
      StashCancel(id, h, bulkCancelOk);
    }

    /** Stash the cancel; cancel the live transfer, or mark the request do-not-push. */
    method StashCancel(id: Id, h: Handle, bulkCancelOk: bool)
      requires id in reqs
      modifies this
      ensures Abs() ==
          Log(Put(old(Abs()), id, Cancelled(old(reqs)[id], h, bulkCancelOk)),
              Stash(id, h, old(reqs)[id].inFlight, bulkCancelOk))
    {
      var r := reqs[id].(cancelHandle := Some(h));
      if r.inFlight {
        if !bulkCancelOk { r := r.(doNotPush := true); }
      } else {
        r := r.(doNotPush := true);
      }
      reqs := reqs[id := r];
      trace := trace + [Stash(id, h, r.inFlight, bulkCancelOk)];
    }

    method TickRequest(id: Id, env: Env)
      requires id in reqs
      modifies this
      ensures Abs() == TickOne(old(Abs()), id, env)
    {
      var r := reqs[id];
      if r.pullPending {
        if r.doNotPush {
          reqs := reqs[id := r.(pullPending := false)];
          Fail(id, ABORTED);
        } else if r.pullStallTicks > 0 {
          reqs := reqs[id := r.(pullStallTicks := r.pullStallTicks - 1)];
          trace := trace + [Held(id, Pull)];
        } else {
          reqs := reqs[id := r.(pullPending := false)];
          SubmitInputPull(id, env);
        }
      } else if r.pushPending {
        if r.doNotPush && r.stallTicks == 0 {
          reqs := reqs[id := r.(pushPending := false)];
          Fail(id, ABORTED);
        } else if r.stallTicks > 0 {
          reqs := reqs[id := r.(stallTicks := r.stallTicks - 1)];
          trace := trace + [Held(id, Push)];
        } else {
          reqs := reqs[id := r.(pushPending := false)];
          SubmitResultPush(id, env);
        }
      }
    }

    /** The entry after `id` in the registry as it is now. */
    method NextAfter(id: Id) returns (next: Option<Id>, k: nat)
      requires id in inflight
      ensures k < |inflight| && inflight[k] == id
      ensures next == Nth(inflight, k + 1)
    {
      k := 0;
      while inflight[k] != id
        invariant 0 <= k < |inflight| && id !in inflight[..k]
        decreases |inflight| - k
      {
        k := k + 1;
      }
      next := Nth(inflight, k + 1);
    }

    /**
     * One progress tick. The successor is read before an entry is handled, because handling it
     * may remove it; still every entry registered at the start is handled, once and in order.
     */
    method TickStalls(env: Id -> Env)
      requires Inv(Abs(), {})
      modifies this
      ensures Abs() == Tick(old(Abs()), env) && Inv(Abs(), {})
    {
      hide TickOne, TickAll, Inv;
      if cfg.pushStall == 0 && cfg.pullStall == 0 { return; }
      ghost var start := inflight;
      ghost var done := 0;
      ghost var kept: seq<Id> := [];
      var req := Nth(inflight, 0);
      assert start[..0] == [];
      TickAllNil(Abs(), env);
      while req.Some?
        invariant 0 <= done <= |start|
        invariant Inv(Abs(), {})
        invariant inflight == kept + start[done..]
        invariant req == Nth(start, done)
        invariant Abs() == TickAll(old(Abs()), start[..done], env)
        decreases |start| - done
      {
        var id := req.value;
        var next, at := NextAfter(id);
        kept := WalkStep(old(Abs()), Abs(), start, done, kept, at, env);
        TickRequest(id, env(id));
        done := done + 1;
        req := next;
      }
      assert start[..done] == start;
    }

    /** One input; a transfer the service does not have live has nothing to call back. */
    method Handle(i: Input)
      requires Inv(Abs(), {})
      modifies this
      ensures Inv(Abs(), {}) && RegistryOk(old(Abs())) && Abs() == Step(old(Abs()), i)
    {
      hide Inv, Arrive, Cancel, TransferDone, Tick;
      InvRegistry(Abs());
      match i {
        case ArriveIn(decoded, exec, key, inputBulk, inputLen, sink, env) =>
          OnRequest(decoded, exec, key, inputBulk, inputLen, sink, env);
        case CancelIn(decoded, key, bulkCancelOk) => OnCancel(decoded, key, bulkCancelOk);
        case TransferIn(op, outcome, env) =>
          NotLive(Abs(), op, outcome, env);
          if op in live { OnTransferDone(op, outcome, env); }
        case TickIn(envs) => TickStalls(envs);
      }
    }

    /** The progress loop: the object that handled any inputs in any order is in the state of that run. */
    method Progress(inputs: seq<Input>)
      requires Abs() == Init(cfg)
      modifies this
      ensures Abs() == Run(cfg, inputs)
    {
      hide Inv, Step, Run, Init;
      RunNil(cfg);
      InitInv(cfg);
      assert inputs[..0] == [];
      for i := 0 to |inputs|
        invariant Inv(Abs(), {}) && Abs() == Run(cfg, inputs[..i])
      {
        RunSnoc(cfg, inputs[..i], inputs[i]);
        assert inputs[..i + 1] == inputs[..i] + [inputs[i]];
        Handle(inputs[i]);
      }
      assert inputs[..|inputs|] == inputs;
    }
  }

  lemma InvRegistry(s: State)
    requires Inv(s, {})
    ensures RegistryOk(s)
  {
  }

  lemma NotLive(s: State, op: OpId, outcome: Outcome, env: Env)
    ensures op !in s.live ==> TransferDone(s, op, outcome, env) == s
  {
  }

  lemma LiveOwner(s: State, op: OpId)
    requires Inv(s, {}) && op in s.live
    ensures s.live[op].id in s.reqs
  {
  }

  lemma TickAllNil(s: State, env: Id -> Env)
    ensures TickAll(s, [], env) == s
  {
  }

  lemma FinishInflight(s: State, id: Id)
    requires id in s.reqs
    ensures S.Finish(s, id).inflight == s.inflight || S.Finish(s, id).inflight == Remove(s.inflight, id)
  {
    FinishShape(s, id);
  }

  /** Handling an entry removes at most that entry. */
  lemma TickOneInflight(s: State, id: Id, env: Env)
    requires id in s.reqs
    ensures var s' := TickOne(s, id, env); s'.inflight == s.inflight || s'.inflight == Remove(s.inflight, id)
  {
    hide S.Finish;
    var r := s.reqs[id];
    forall s1: State | s1.reqs.Keys == s.reqs.Keys && s1.inflight == s.inflight
      ensures S.Finish(s1, id).inflight == s.inflight || S.Finish(s1, id).inflight == Remove(s.inflight, id)
    {
      FinishInflight(s1, id);
    }
  }

  lemma {:induction false} RemoveMiddle(kept: seq<Id>, rest: seq<Id>, id: Id)
    requires Distinct(kept + rest) && rest != [] && rest[0] == id
    ensures Remove(kept + rest, id) == kept + rest[1..]
  {
    if kept == [] {
      assert kept + rest == rest;
    } else {
      assert (kept + rest)[0] == kept[0] && (kept + rest)[|kept|] == id;
      assert (kept + rest)[1..] == kept[1..] + rest;
      assert Distinct(kept[1..] + rest) by {
        forall i, j | 0 <= i < j < |kept[1..] + rest| ensures (kept[1..] + rest)[i] != (kept[1..] + rest)[j] {
          assert (kept[1..] + rest)[i] == (kept + rest)[i + 1] && (kept[1..] + rest)[j] == (kept + rest)[j + 1];
        }
      }
      RemoveMiddle(kept[1..], rest, id);
    }
  }

  function Nth(list: seq<Id>, k: nat): Option<Id> {
    if k < |list| then Some(list[k]) else None
  }

  /** One entry of the walk, seen from the registry as it was at the start. */
  lemma WalkStep(s0: State, s: State, start: seq<Id>, done: nat, kept: seq<Id>, at: nat, env: Id -> Env)
    returns (kept': seq<Id>)
    requires Inv(s, {}) && done < |start| && s.inflight == kept + start[done..] && s == TickAll(s0, start[..done], env)
    requires at < |s.inflight| && s.inflight[at] == start[done]
    ensures start[done] in s.reqs && Nth(s.inflight, at + 1) == Nth(start, done + 1)
    ensures var s' := TickOne(s, start[done], env(start[done]));
            Inv(s', {}) && s' == TickAll(s0, start[..done + 1], env) && s'.inflight == kept' + start[done + 1..]
  {
    hide TickOne, TickAll, RequestsOk, HandlesOk;
    var id := start[done];
    assert start[done..][0] == id && start[done..][1..] == start[done + 1..];
    assert s.inflight[|kept|] == id;
    assert id in s.inflight;
    TickOneInv(s, id, env(id));
    TickOneInflight(s, id, env(id));
    RemoveMiddle(kept, start[done..], id);
    TickAllSnoc(s0, start[..done], id, env);
    assert start[..done] + [id] == start[..done + 1];
    assert kept + start[done..] == kept + [id] + start[done + 1..];
    kept' := if TickOne(s, id, env(id)).inflight == s.inflight then kept + [id] else kept;
  }

  lemma {:induction false} TickAllSnoc(s: State, ids: seq<Id>, id: Id, env: Id -> Env)
    ensures var t := TickAll(s, ids, env);
            TickAll(s, ids + [id], env) == if id in t.reqs then TickOne(t, id, env(id)) else t
    decreases |ids|
  {
    hide TickOne;
    if ids == [] {
      assert ids + [id] == [id] && [id][1..] == [];
    } else {
      assert (ids + [id])[1..] == ids[1..] + [id];
      TickAllSnoc(if ids[0] in s.reqs then TickOne(s, ids[0], env(ids[0])) else s, ids[1..], id, env);
    }
  }
}
