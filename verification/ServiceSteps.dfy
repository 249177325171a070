/** Every handler, callback and tick of the service keeps the invariant. */
module ServiceSteps {
  import opened Common
  import opened ServiceState
  import opened ServiceInvariant

  lemma StartTransferConsistent(s: State, id: Id, kind: Kind, bytes: Bytes)
    requires id in s.reqs && Consistent(s, id) && !Waiting(s.reqs[id]) && SubmitOk(TrackOf(s.trace, id), kind, bytes)
    requires kind.Push? ==> TrackOf(s.trace, id).ran == Some(s.reqs[id].res)
    requires !s.reqs[id].hadPushCanceled && !TrackOf(s.trace, id).canceled
    ensures Consistent(StartTransfer(s, id, kind, bytes), id)
  {
    hide TrackOf;
    TrackSnoc(s.trace, Submit(id, kind, bytes));
  }

  lemma StartTransferInv(s: State, id: Id, kind: Kind, bytes: Bytes)
    requires Inv(s, {id}) && id in s.reqs && SubmitOk(TrackOf(s.trace, id), kind, bytes)
    requires kind.Push? ==> TrackOf(s.trace, id).ran == Some(s.reqs[id].res)
    requires !s.reqs[id].hadPushCanceled && !TrackOf(s.trace, id).canceled
    ensures Inv(StartTransfer(s, id, kind, bytes), {})
  {
    hide RequestsOk, HandlesOk, TrackOf, AckCount, Consistent, SubmitOk;
    var s' := StartTransfer(s, id, kind, bytes);
    BusyFacts(s, id);
    StartTransferConsistent(s, id, kind, bytes);
    TouchRequests(s, s', id, Submit(id, kind, bytes), s'.reqs[id], {id}, {});
    HandlesKept(s, s');
  }

  /** What a transfer is refused for decides the answer. */
  lemma RefuseInv(s: State, id: Id, kind: Kind, what: Resource)
    requires Inv(s, {id}) && id in s.reqs && Due(TrackOf(s.trace, id), kind)
    requires !s.reqs[id].hadPushCanceled && !TrackOf(s.trace, id).canceled
    ensures Inv(Fail(Log(s, Refused(id, kind, what)), id, RefusalStatus(what)), {})
  {
    hide RequestsOk, HandlesOk, TrackOf, Fail;
    BusyFacts(s, id);
    var e := Refused(id, kind, what);
    assert Consistent(Log(s, e), id) by { TrackSnoc(s.trace, e); }
    LogBusy(s, id, e, {id});
    hide Inv;
    FailInv(Log(s, e), id, RefusalStatus(what));
  }

  /** A request whose PUSH is next is answered ABORTED if marked, else pushing or answered with the refusal. */
  lemma SubmitPushInv(s: State, id: Id, env: Env)
    requires Inv(s, {id}) && id in s.reqs && TrackOf(s.trace, id).ran == Some(s.reqs[id].res)
    requires NeedsPush(TrackOf(s.trace, id)) && s.reqs[id].stallTicks == 0
    requires !s.reqs[id].hadPushCanceled && !TrackOf(s.trace, id).canceled
    ensures Inv(SubmitPush(s, id, env), {})
  {
    hide Inv, TrackOf, Fail, StartTransfer;
    BusyFacts(s, id);
    if s.reqs[id].doNotPush {
      FailInv(s, id, ABORTED);
    } else if !env.createPushOk {
      RefuseInv(s, id, Push, View);
    } else if !env.transferPushOk {
      RefuseInv(s, id, Push, Wire);
    } else {
      StartTransferInv(s, id, Push, s.reqs[id].res.buf);
    }
  }

  lemma SubmitPullInv(s: State, id: Id, env: Env)
    requires Inv(s, {id}) && id in s.reqs
    requires NeedsPull(TrackOf(s.trace, id)) && s.reqs[id].pullStallTicks == 0
    requires !s.reqs[id].hadPushCanceled && !TrackOf(s.trace, id).canceled
    ensures Inv(SubmitPull(s, id, env), {})
  {
    hide Inv, TrackOf, Fail, StartTransfer;
    BusyFacts(s, id);
    if s.reqs[id].doNotPush {
      FailInv(s, id, ABORTED);
    } else if !env.mallocOk {
      RefuseInv(s, id, Pull, Memory);
    } else if !env.createPullOk {
      RefuseInv(s, id, Pull, View);
    } else if !env.transferPullOk {
      RefuseInv(s, id, Pull, Wire);
    } else {
      StartTransferInv(s, id, Pull, []);
    }
  }

  lemma StallPushInv(s: State, id: Id)
    requires Inv(s, {id}) && id in s.reqs && TrackOf(s.trace, id).ran == Some(s.reqs[id].res)
    requires NeedsPush(TrackOf(s.trace, id)) && !TrackOf(s.trace, id).canceled
    requires !s.reqs[id].hadPushCanceled && !s.reqs[id].doNotPush && s.reqs[id].stallTicks > 0
    ensures Inv(Put(s, id, s.reqs[id].(pushPending := true)), {})
  {
    hide Inv, TrackOf;
    BusyFacts(s, id);
    var r := s.reqs[id].(pushPending := true);
    assert Consistent(Put(s, id, r), id);
    PutInv(s, id, r, {id}, {});
  }

  lemma RunAndDeliverInv(s: State, id: Id, env: Env)
    requires Inv(s, {id}) && id in s.reqs && NeedsRun(TrackOf(s.trace, id)) && !TrackOf(s.trace, id).landed
    requires !s.reqs[id].hadPushCanceled && !TrackOf(s.trace, id).canceled
    ensures Inv(RunAndDeliver(s, id, env), {})
  {
    hide Inv, TrackOf, Fail, Finish, SubmitPush, Consistent;
    var s1 := Log(Put(s, id, s.reqs[id].(res := env.res)), Ran(id, env.res));
    RanInv(s, id, env.res);
    BusyFacts(s1, id);
    var r := s1.reqs[id];
    if r.sink && |r.res.buf| > INLINE_MAX {
      if r.doNotPush {
        FailInv(s1, id, ABORTED);
      } else if r.stallTicks > 0 {
        StallPushInv(s1, id);
      } else {
        SubmitPushInv(s1, id, env);
      }
    } else if |r.res.buf| > INLINE_MAX {
      FailInv(s1, id, NOT_SUPPORTED);
    } else {
      var r' := r.(out := Out(r.res.status, r.res.resultLen, r.res.buf));
      PutBusy(s1, id, r');
      FinishInv(Put(s1, id, r'), id);
    }
  }

  /** What a completion leaves the request with. */
  ghost predicate Retired(t: Track, r: Req, kind: Kind, outcome: Outcome) {
    && !r.hadPushCanceled
    && t.canceled == (outcome.Canceled? && t.exec) && t.exec == r.exec
    && (!outcome.Landed? ==> t.failure == Some(LossStatus(t.exec, outcome)) && t.ask.cfg.hasExecutor)
    && (outcome.Landed? && kind.Pull? ==> NeedsRun(t) && !t.landed)
    && (outcome.Landed? && kind.Push? ==> Well(t) && t.landed && t.ran == Some(r.res) && |r.res.buf| > INLINE_MAX)
  }

  lemma RetireConsistent(s: State, op: OpId, outcome: Outcome)
    requires op in s.live && s.live[op].id in s.reqs
    requires var r := s.reqs[s.live[op].id]; Consistent(s, s.live[op].id) && r.inFlight && r.op == op
    ensures var id := s.live[op].id; var s' := Retire(s, op, outcome);
            && Consistent(s', id) && !Waiting(s'.reqs[id])
            && Retired(TrackOf(s'.trace, id), s'.reqs[id], s.live[op].kind, outcome)
  {
    hide TrackOf;
    TrackSnoc(s.trace, Done(s.live[op].id, s.live[op].kind, outcome));
    assert s.live[op].kind.Pull? || s.live[op].kind.Push?;
  }

  lemma RetireInv(s: State, op: OpId, outcome: Outcome)
    requires Inv(s, {}) && op in s.live
    ensures s.live[op].id in s.reqs && Inv(Retire(s, op, outcome), {s.live[op].id})
    ensures var id := s.live[op].id; var s' := Retire(s, op, outcome);
            Retired(TrackOf(s'.trace, id), s'.reqs[id], s.live[op].kind, outcome)
  {
    hide RequestsOk, HandlesOk, TrackOf, AckCount, Consistent, Retired;
    var id := s.live[op].id;
    var s' := Retire(s, op, outcome);
    SettledFacts(s, id);
    RetireConsistent(s, op, outcome);
    TouchRequests(s, s', id, Done(id, s.live[op].kind, outcome), s'.reqs[id], {}, {id});
    HandlesKept(s, s');
  }

  lemma SettledFacts(s: State, id: Id)
    requires Inv(s, {}) && id in s.reqs
    ensures Consistent(s, id) && Waiting(s.reqs[id]) && id < s.nextReq
  {
  }

  lemma CanceledOrBrokenInv(s: State, id: Id, outcome: Outcome)
    requires Inv(s, {id}) && id in s.reqs && !outcome.Landed?
    requires exists kind :: Retired(TrackOf(s.trace, id), s.reqs[id], kind, outcome)
    ensures Inv(CanceledOrBroken(s, id, outcome), {})
  {
    hide Inv, TrackOf, Fail;
    if outcome.Canceled? && s.reqs[id].exec {
      var r := s.reqs[id].(hadPushCanceled := true);
      PutBusy(s, id, r);
      FailInv(Put(s, id, r), id, ABORTED);
    } else {
      FailInv(s, id, FAILED);
    }
  }

  lemma TransferDoneInv(s: State, op: OpId, outcome: Outcome, env: Env)
    requires Inv(s, {})
    ensures Inv(TransferDone(s, op, outcome, env), {})
  {
    hide Inv, TrackOf, Finish, CanceledOrBroken, RunAndDeliver, Retire;
    if op in s.live && s.live[op].id in s.reqs {
      var id := s.live[op].id;
      RetireInv(s, op, outcome);
      var s1 := Retire(s, op, outcome);
      assert id in s1.reqs by { RetireKeeps(s, op, outcome); }
      if !outcome.Landed? {
        assert Retired(TrackOf(s1.trace, id), s1.reqs[id], s.live[op].kind, outcome);
        CanceledOrBrokenInv(s1, id, outcome);
      } else if s.live[op].kind.Pull? {
        RunAndDeliverInv(s1, id, env);
      } else {
        var r := s1.reqs[id];
        var r' := r.(out := Out(r.res.status, r.res.resultLen, []));
        PutBusy(s1, id, r');
        FinishInv(Put(s1, id, r'), id);
      }
    }
  }

  lemma RetireKeeps(s: State, op: OpId, outcome: Outcome)
    requires op in s.live && s.live[op].id in s.reqs
    ensures s.live[op].id in Retire(s, op, outcome).reqs
  {
  }

  // ---- handlers ----

  function AskOf(s: State, r: Req): Ask {
    Ask(r.inputBulk, r.inputLen, r.sink, s.cfg)
  }

  lemma AdmitConsistent(s: State, r: Req)
    requires Inv(s, {})
    requires exists exec, key, bulk, len, sink :: r == NewReq(s.cfg, exec, key, bulk, len, sink)
    ensures var s' := Admit(s, r);
            && s.nextReq in s'.reqs && Consistent(s', s.nextReq) && !Waiting(r)
            && TrackOf(s'.trace, s.nextReq) == Arrived(r.exec, r.key, AskOf(s, r))
  {
    hide TrackOf, HandlesOk;
    TrackSnoc(s.trace, Received(s.nextReq, r.exec, r.key, AskOf(s, r)));
    assert TrackOf(s.trace, s.nextReq) == NEWBORN;
    hide RequestsOk;
    assert s.nextReq !in s.inflight;
  }

  lemma AdmitElsewhere(s: State, r: Req, j: Id)
    requires j in s.reqs && Consistent(s, j) && j < s.nextReq
    ensures Consistent(Admit(s, r), j)
  {
    hide TrackOf;
    TrackSnoc(s.trace, Received(s.nextReq, r.exec, r.key, AskOf(s, r)));
  }

  lemma AdmitInv(s: State, r: Req)
    requires Inv(s, {})
    requires exists exec, key, bulk, len, sink :: r == NewReq(s.cfg, exec, key, bulk, len, sink)
    ensures var s' := Admit(s, r);
            && Inv(s', {s.nextReq}) && s.nextReq in s'.reqs && s'.reqs[s.nextReq] == r && s'.cfg == s.cfg
            && TrackOf(s'.trace, s.nextReq) == Arrived(r.exec, r.key, AskOf(s, r))
  {
    hide TrackOf, AckCount, HandlesOk, Consistent;
    var s' := Admit(s, r);
    var id := s.nextReq;
    AdmitConsistent(s, r);
    TrackSnoc(s.trace, Received(id, r.exec, r.key, AskOf(s, r)));
    forall j | j in s'.reqs ensures Consistent(s', j) && (j !in {id} <==> Waiting(s'.reqs[j])) {
      if j != id { AdmitElsewhere(s, r, j); }
    }
    assert RequestsOk(s', {id});
    OrderedSnoc(s.inflight, id);
    assert TablesOk(s') by { hide RequestsOk; }
    AdmitHandles(s, s', r);
  }

  lemma AdmitHandles(s: State, s': State, r: Req)
    requires HandlesOk(s) && (forall j | j in s.reqs :: j < s.nextReq) && r.cancelHandle.None?
    requires s'.reqs == s.reqs[s.nextReq := r] && s'.nextHandle == s.nextHandle
    requires forall h: Handle :: AckCount(s'.trace, h) == AckCount(s.trace, h)
    ensures HandlesOk(s')
  {
    AdmitOldest(s, s', r);
    hide OldestHolds, AckCount;
    forall h: Handle | Stashed(s, h) ensures Stashed(s', h) {
      var k :| k in s.reqs && s.reqs[k].cancelHandle == Some(h);
      assert k in s'.reqs && s'.reqs[k].cancelHandle == Some(h);
    }
  }

  lemma AdmitOldest(s: State, s': State, r: Req)
    requires OldestHolds(s) && (forall j | j in s.reqs :: j < s.nextReq) && r.cancelHandle.None?
    requires s'.reqs == s.reqs[s.nextReq := r]
    ensures OldestHolds(s')
  {
  }

  lemma StallPullInv(s: State, id: Id)
    requires Inv(s, {id}) && id in s.reqs && NeedsPull(TrackOf(s.trace, id)) && !TrackOf(s.trace, id).canceled
    requires !s.reqs[id].hadPushCanceled && !s.reqs[id].doNotPush && s.reqs[id].pullStallTicks > 0
    ensures Inv(Put(s, id, s.reqs[id].(pullPending := true)), {})
  {
    hide Inv, TrackOf;
    BusyFacts(s, id);
    var r := s.reqs[id].(pullPending := true);
    assert Consistent(Put(s, id, r), id);
    PutInv(s, id, r, {id}, {});
  }

  lemma StartInv(s: State, id: Id, env: Env)
    requires Inv(s, {id}) && id in s.reqs && !s.reqs[id].hadPushCanceled && !s.reqs[id].doNotPush
    requires var r := s.reqs[id]; TrackOf(s.trace, id) == Arrived(r.exec, r.key, AskOf(s, r))
    ensures Inv(Start(s, id, env), {})
  {
    hide Inv, TrackOf, Fail, SubmitPull, RunAndDeliver;
    BusyFacts(s, id);
    var r := s.reqs[id];
    if !s.cfg.hasExecutor {
      FailInv(s, id, NOT_SUPPORTED);
    } else if r.inputBulk && r.inputLen > INLINE_MAX {
      if r.pullStallTicks > 0 {
        StallPullInv(s, id);
      } else {
        SubmitPullInv(s, id, env);
      }
    } else {
      RunAndDeliverInv(s, id, env);
    }
  }

  lemma ArriveInv(s: State, decoded: bool, exec: bool, key: Key, inputBulk: bool, inputLen: nat, sink: bool, env: Env)
    requires Inv(s, {})
    ensures Inv(Arrive(s, decoded, exec, key, inputBulk, inputLen, sink, env), {})
  {
    hide Inv, TrackOf, Admit, Start;
    if decoded {
      var r := NewReq(s.cfg, exec, key, inputBulk, inputLen, sink);
      AdmitInv(s, r);
      StartInv(Admit(s, r), s.nextReq, env);
    }
  }

  /** An ack from the handler itself consumes the fresh handle. */
  lemma DirectAckInv(s: State, key: Key, via: Via)
    requires Inv(s, {}) && !via.Chokepoint?
    requires via.NotFound? ==> forall id | id in s.inflight :: s.reqs[id].key != key
    requires via.Duplicate? ==> via.id in s.reqs && s.reqs[via.id].cancelHandle.Some? && s.reqs[via.id].key == key
    ensures Inv(Log(s.(nextHandle := s.nextHandle + 1), Acked(s.nextHandle, key, ALREADY_DONE, via)), {})
  {
    hide TrackOf, AckCount, Consistent, HandlesOk;
    var e := Acked(s.nextHandle, key, ALREADY_DONE, via);
    var s' := Log(s.(nextHandle := s.nextHandle + 1), e);
    TrackSnoc(s.trace, e);
    forall j: Id ensures TrackOf(s'.trace, j) == TrackOf(s.trace, j) {
      if j in s.reqs { SettledFacts(s, j); PendingFacts(s, j); AckElsewhere(s, j, e); }
    }
    forall j | j in s'.reqs ensures Consistent(s', j) && Waiting(s'.reqs[j]) {
      DirectAckElsewhere(s, s', j);
    }
    assert RequestsOk(s', {});
    DirectAckHandles(s, s');
  }

  lemma AckElsewhere(s: State, j: Id, e: Event)
    requires j in s.reqs && Consistent(s, j) && e.Acked? && !e.via.Chokepoint?
    requires e.ack.ALREADY_DONE?
    requires e.via.NotFound? ==> forall id | id in s.inflight :: id in s.reqs && s.reqs[id].key != e.key
    requires e.via == Duplicate(j) ==> s.reqs[j].cancelHandle.Some? && s.reqs[j].key == e.key
    requires s.reqs[j].cancelHandle != Some(e.handle)
    ensures Advance(TrackOf(s.trace, j), j, e) == TrackOf(s.trace, j)
  {
    hide TrackOf;
  }

  lemma PendingFacts(s: State, id: Id)
    requires HandlesOk(s) && id in s.reqs
    ensures s.reqs[id].cancelHandle != Some(s.nextHandle)
  {
  }

  lemma DirectAckElsewhere(s: State, s': State, j: Id)
    requires j in s.reqs && Consistent(s, j) && TrackOf(s'.trace, j) == TrackOf(s.trace, j)
    requires s' == s.(nextHandle := s'.nextHandle, trace := s'.trace)
    ensures Consistent(s', j)
  {
  }

  lemma DirectAckHandles(s: State, s': State)
    requires HandlesOk(s) && s'.reqs == s.reqs && s'.nextHandle == s.nextHandle + 1
    requires forall h: Handle :: AckCount(s'.trace, h) == AckCount(s.trace, h) + if h == s.nextHandle then 1 else 0
    ensures HandlesOk(s')
  {
    hide AckCount;
    forall h: Handle | Stashed(s, h) ensures Stashed(s', h) {
      var k :| k in s.reqs && s.reqs[k].cancelHandle == Some(h);
      assert k in s'.reqs && s'.reqs[k].cancelHandle == Some(h);
    }
  }

  /** No older registered request has the key of `id`. */
  ghost predicate Oldest(s: State, id: Id)
    requires id in s.reqs
  {
    forall x | x in s.reqs && x < id && s.reqs[x].exec :: s.reqs[x].key != s.reqs[id].key
  }

  /** The first of its key in the list is the oldest. */
  lemma FirstIsOldest(s: State, key: Key, id: Id)
    requires Inv(s, {}) && id in s.reqs && IsFirst(s.reqs, s.inflight, key, id)
    ensures Oldest(s, id) && s.reqs[id].key == key && id in s.inflight
  {
    hide HandlesOk, TrackOf;
    forall x | x in s.reqs && x < id && s.reqs[x].exec ensures s.reqs[x].key != key {
      SettledFacts(s, x);
      assert x in s.inflight;
      var j :| 0 <= j < |s.inflight| && s.inflight[j] == x;
    }
  }

  lemma StashHandles(s: State, s': State, id: Id, r: Req)
    requires HandlesOk(s) && id in s.reqs && s.reqs[id].cancelHandle.None?
    requires s'.reqs == s.reqs[id := r] && r.cancelHandle == Some(s.nextHandle) && s'.nextHandle == s.nextHandle + 1
    requires r.exec == s.reqs[id].exec && r.key == s.reqs[id].key && Oldest(s, id)
    requires forall h: Handle :: AckCount(s'.trace, h) == AckCount(s.trace, h)
    ensures HandlesOk(s')
  {
    StashOldest(s, s', id, r);
    hide OldestHolds, AckCount, Oldest;
    forall h: Handle | Stashed(s, h) || h == s.nextHandle ensures Stashed(s', h) {
      if h == s.nextHandle {
        assert id in s'.reqs && s'.reqs[id].cancelHandle == Some(h);
      } else {
        var k :| k in s.reqs && s.reqs[k].cancelHandle == Some(h);
        assert k in s'.reqs && s'.reqs[k].cancelHandle == Some(h);
      }
    }
  }

  lemma StashOldest(s: State, s': State, id: Id, r: Req)
    requires OldestHolds(s) && id in s.reqs && Oldest(s, id)
    requires s'.reqs == s.reqs[id := r] && r.exec == s.reqs[id].exec && r.key == s.reqs[id].key
    ensures OldestHolds(s')
  {
  }

  lemma StashConsistent(s: State, s': State, id: Id, bulkCancelOk: bool)
    requires id in s.inflight && id in s.reqs && Consistent(s, id) && Waiting(s.reqs[id])
    requires s.reqs[id].cancelHandle.None?
    requires var h := s.nextHandle;
             s' == Log(Put(s.(nextHandle := h + 1), id, Cancelled(s.reqs[id], h, bulkCancelOk)),
                       Stash(id, h, s.reqs[id].inFlight, bulkCancelOk))
    ensures Consistent(s', id) && Waiting(s'.reqs[id])
  {
    hide TrackOf;
    TrackSnoc(s.trace, Stash(id, s.nextHandle, s.reqs[id].inFlight, bulkCancelOk));
  }

  lemma StashInv(s: State, id: Id, bulkCancelOk: bool)
    requires Inv(s, {}) && id in s.inflight && id in s.reqs && s.reqs[id].cancelHandle.None? && Oldest(s, id)
    ensures var h := s.nextHandle;
            Inv(Log(Put(s.(nextHandle := h + 1), id, Cancelled(s.reqs[id], h, bulkCancelOk)),
                    Stash(id, h, s.reqs[id].inFlight, bulkCancelOk)), {})
  {
    hide TrackOf, AckCount, HandlesOk, RequestsOk, Consistent;
    var h := s.nextHandle;
    var r := Cancelled(s.reqs[id], h, bulkCancelOk);
    var e := Stash(id, h, s.reqs[id].inFlight, bulkCancelOk);
    var s' := Log(Put(s.(nextHandle := h + 1), id, r), e);
    SettledFacts(s, id);
    StashConsistent(s, s', id, bulkCancelOk);
    TouchRequests(s, s', id, e, r, {}, {});
    StashHandles(s, s', id, r);
  }

  lemma CancelInv(s: State, decoded: bool, key: Key, bulkCancelOk: bool)
    requires Inv(s, {})
    ensures RegistryOk(s) && Inv(Cancel(s, decoded, key, bulkCancelOk), {})
  {
    hide RequestsOk, HandlesOk, Lookup;
    if decoded {
      match Lookup(s.reqs, s.inflight, key)
      case None => DirectAckInv(s, key, NotFound);
      case Some(id) =>
        if s.reqs[id].cancelHandle.Some? {
          PendingFacts(s, id);
          DirectAckInv(s, key, Duplicate(id));
        } else {
          FirstIsOldest(s, key, id);
          StashInv(s, id, bulkCancelOk);
        }
    }
  }

  // ---- ticks ----

  lemma UnpendInv(s: State, id: Id)
    requires Inv(s, {}) && id in s.reqs && (s.reqs[id].pullPending || s.reqs[id].pushPending)
    ensures var r := s.reqs[id]; var s' := Put(s, id, r.(pullPending := false, pushPending := false));
            var t := TrackOf(s'.trace, id);
            && Inv(s', {id}) && !r.hadPushCanceled && !t.canceled && (r.pullPending <==> !r.pushPending)
            && (r.pullPending ==> NeedsPull(t))
            && (r.pushPending ==> NeedsPush(t) && t.ran == Some(r.res))
  {
    hide TrackOf, TablesOk, HandlesOk;
    assert Consistent(s, id);
    var r := s.reqs[id].(pullPending := false, pushPending := false);
    assert Consistent(Put(s, id, r), id);
    PutInv(s, id, r, {}, {id});
  }

  /** One tick of a stall passes. */
  lemma CountdownConsistent(s: State, id: Id, kind: Kind, r: Req)
    requires id in s.reqs && Consistent(s, id) && CountsDown(s.reqs[id], kind, r)
    ensures Consistent(Log(Put(s, id, r), Held(id, kind)), id) && Waiting(r)
  {
    hide TrackOf;
    TrackSnoc(s.trace, Held(id, kind));
  }

  /** The request is stalled for `kind` and `r` is one tick further. */
  predicate CountsDown(r0: Req, kind: Kind, r: Req) {
    if kind.Pull?
    then r0.pullPending && !r0.doNotPush && r0.pullStallTicks > 0 && r == r0.(pullStallTicks := r0.pullStallTicks - 1)
    else r0.pushPending && r0.stallTicks > 0 && r == r0.(stallTicks := r0.stallTicks - 1)
  }

  lemma CountdownInv(s: State, id: Id, kind: Kind, r: Req)
    requires Inv(s, {}) && id in s.reqs && CountsDown(s.reqs[id], kind, r)
    ensures Inv(Log(Put(s, id, r), Held(id, kind)), {})
  {
    hide RequestsOk, HandlesOk, TrackOf, AckCount, Consistent;
    var s' := Log(Put(s, id, r), Held(id, kind));
    SettledFacts(s, id);
    CountdownConsistent(s, id, kind, r);
    TouchRequests(s, s', id, Held(id, kind), r, {}, {});
    HandlesKept(s, s');
  }

  lemma TickOneInv(s: State, id: Id, env: Env)
    requires Inv(s, {}) && id in s.reqs
    ensures Inv(TickOne(s, id, env), {})
  {
    hide Inv, TrackOf, Fail, SubmitPull, SubmitPush;
    var r := s.reqs[id];
    if r.pullPending || r.pushPending {
      UnpendInv(s, id);
      var s' := Put(s, id, r.(pullPending := false, pushPending := false));
      BusyFacts(s', id);
      if r.pullPending {
        assert r.(pullPending := false) == s'.reqs[id];
        if r.doNotPush {
          FailInv(s', id, ABORTED);
        } else if r.pullStallTicks > 0 {
          CountdownInv(s, id, Pull, r.(pullStallTicks := r.pullStallTicks - 1));
        } else {
          SubmitPullInv(s', id, env);
        }
      } else {
        assert r.(pushPending := false) == s'.reqs[id];
        if r.doNotPush && r.stallTicks == 0 {
          FailInv(s', id, ABORTED);
        } else if r.stallTicks > 0 {
          CountdownInv(s, id, Push, r.(stallTicks := r.stallTicks - 1));
        } else {
          SubmitPushInv(s', id, env);
        }
      }
    }
  }

  lemma {:induction false} TickAllInv(s: State, ids: seq<Id>, env: Id -> Env)
    requires Inv(s, {})
    ensures Inv(TickAll(s, ids, env), {})
    decreases |ids|
  {
    hide Inv, TickOne;
    if ids != [] {
      if ids[0] in s.reqs {
        TickOneInv(s, ids[0], env(ids[0]));
        TickAllInv(TickOne(s, ids[0], env(ids[0])), ids[1..], env);
      } else {
        TickAllInv(s, ids[1..], env);
      }
    }
  }

  /** Whatever arrives next, and whatever the outside answers, the invariant is kept. */
  lemma StepInv(s: State, i: Input)
    requires Inv(s, {})
    ensures RegistryOk(s) && Inv(Step(s, i), {})
  {
    hide RequestsOk, HandlesOk, Arrive, Cancel, TransferDone, TickAll;
    match i
    case ArriveIn(decoded, exec, key, inputBulk, inputLen, sink, env) =>
      ArriveInv(s, decoded, exec, key, inputBulk, inputLen, sink, env);
    case CancelIn(decoded, key, bulkCancelOk) => CancelInv(s, decoded, key, bulkCancelOk);
    case TransferIn(op, outcome, env) => TransferDoneInv(s, op, outcome, env);
    case TickIn(envs) => TickAllInv(s, s.inflight, envs);
  }
}
