/**
 * Where the cancel handshake promises less than its comments say, and exactly when it keeps
 * its promise.
 */
module ServiceLimits {
  import opened Common
  import opened ServiceState
  import opened ServiceInvariant
  import opened ServiceSteps
  import opened ServiceTheorems
  import opened ServiceStalls

  const BIG: Bytes := seq(5000, _ => 0)
  const GRANTED := Env(true, true, true, ExecResult(SUCCESS, 5000, BIG), true, true)
  const KEY := Key(1, 7)

  const OPEN := Config(true, 0, 0)
  const ARRIVE := ArriveIn(true, true, KEY, true, 5000, true, GRANTED)
  const CANCEL := CancelIn(true, KEY, true)

  const RECEIVED := Ask(true, 5000, true, OPEN)

  lemma Arrived(s: State)
    requires s == Run(OPEN, [ARRIVE])
    ensures s.trace == [Received(0, true, KEY, RECEIVED), Submit(0, Pull, [])] && s.cfg == OPEN && s.inflight == [0]
    ensures 0 in s.reqs && s.reqs.Keys == {0} && s.live == map[0 := Xfer(0, Pull)]
    ensures s.nextHandle == 0 && s.nextReq == 1 && s.nextOp == 1
    ensures var r := s.reqs[0];
            && r.exec && r.registered && r.key == KEY && r.sink && !r.doNotPush && r.stallTicks == 0
            && r.inFlight && r.op == 0 && r.cancelHandle == None
  {
    hide Run, Inv, TrackOf;
    RunNil(OPEN);
    RunSnoc(OPEN, [], ARRIVE);
    assert [] + [ARRIVE] == [ARRIVE];
  }

  /** An Exec with a live PULL, cancelled twice: the second cancel is acked at once. */
  lemma CancelledTwice(s: State)
    requires s == Run(OPEN, [ARRIVE, CANCEL, CANCEL])
    ensures s.trace ==
        [Received(0, true, KEY, RECEIVED), Submit(0, Pull, []), Stash(0, 0, true, true),
         Acked(1, KEY, ALREADY_DONE, Duplicate(0))]
    ensures 0 in s.reqs && s.live == map[0 := Xfer(0, Pull)]
    ensures var r := s.reqs[0]; r.exec && r.sink && !r.doNotPush && r.stallTicks == 0
  {
    hide Run, Inv, TrackOf, Arrive;
    var s1 := Run(OPEN, [ARRIVE]);
    Arrived(s1);
    RunSnoc(OPEN, [ARRIVE], CANCEL);
    assert [ARRIVE] + [CANCEL] == [ARRIVE, CANCEL];
    var s2 := Run(OPEN, [ARRIVE, CANCEL]);
    assert s2.trace == s1.trace + [Stash(0, 0, true, true)];
    RunSnoc(OPEN, [ARRIVE, CANCEL], CANCEL);
    assert [ARRIVE, CANCEL] + [CANCEL] == [ARRIVE, CANCEL, CANCEL];
  }

  /**
   * The ALREADY_DONE sent to a duplicate of a pending cancel is not a quiescence proof: a PUSH
   * can be submitted after it. The first cancel meets a live PULL, the cancellation is issued,
   * but the PULL still lands; nothing marked the request, so it runs and PUSHes.
   */
  lemma DuplicateAckIsNoProof()
    ensures exists cfg, inputs, i: nat, id: Id ::
              var tr := Run(cfg, inputs).trace;
              && i < |tr| && tr[i].Acked? && tr[i].ack.ALREADY_DONE? && tr[i].via.Duplicate?
              && ReceivedBefore(tr, i, id, tr[i].key) && SubmitsFrom(tr, i, id)
  {
    hide Run, Inv, TrackOf;
    var s := Run(OPEN, [ARRIVE, CANCEL, CANCEL]);
    CancelledTwice(s);
    var landed := TransferIn(0, Landed, GRANTED);
    RunSnoc(OPEN, [ARRIVE, CANCEL, CANCEL], landed);
    var inputs := [ARRIVE, CANCEL, CANCEL] + [landed];
    var tr := Run(OPEN, inputs).trace;
    assert tr == s.trace + [Done(0, Pull, Landed), Ran(0, GRANTED.res), Submit(0, Push, BIG)];
    assert tr[0] == Received(0, true, KEY, RECEIVED) && tr[6].Submit?;
    assert ReceivedBefore(tr, 3, 0, KEY) && SubmitsFrom(tr, 3, 0);
  }

  lemma {:induction false} MovingIsLive(trace: seq<Event>, i: nat, id: Id)
    requires Clean(trace) && i <= |trace| && TrackOf(trace[..i], id).phase.Moving?
    ensures LiveAt(trace, i, id)
    decreases i
  {
    hide TrackOf;
    assert trace[..0] == [];
    TrackNil(id);
    At(trace, i - 1, id);
    var e := trace[i - 1];
    if !(e.Submit? && e.id == id) {
      MovingIsLive(trace, i - 1, id);
      var k :| && 0 <= k < i - 1 && trace[k].Submit? && trace[k].id == id
               && forall m | k < m < i - 1 :: !(trace[m].Done? && trace[m].id == id);
    }
  }

  /** Whatever happens next, `id` has no live transfer now and submits none. */
  ghost predicate SilentForever(cfg: Config, inputs: seq<Input>, id: Id) {
    forall more :: Run(cfg, inputs).trace <= Run(cfg, inputs + more).trace
                   && Silent(Run(cfg, inputs + more).trace, |Run(cfg, inputs).trace|, id)
  }

  /**
   * Exactly when an ALREADY_DONE answered to a duplicate cancel does prove quiescence: the
   * request it names has no live transfer and is already marked do-not-push.
   */
  lemma DuplicateAckExact(cfg: Config, inputs: seq<Input>, id: Id)
    requires id in Run(cfg, inputs).reqs
    ensures var r := Run(cfg, inputs).reqs[id];
            SilentForever(cfg, inputs, id) <==> !r.inFlight && r.doNotPush
  {
    hide Run, TrackOf, HandlesOk, Silent, Left;
    var s := Run(cfg, inputs);
    var r := s.reqs[id];
    RunInv(cfg, inputs);
    SettledFacts(s, id);
    if !r.inFlight && r.doNotPush {
      forall more
        ensures s.trace <= Run(cfg, inputs + more).trace && Silent(Run(cfg, inputs + more).trace, |s.trace|, id) {
        RunGrows(cfg, inputs, more);
        var tr := Run(cfg, inputs + more).trace;
        RunClean(cfg, inputs + more);
        assert tr[..|s.trace|] == s.trace;
        QuietIsSilent(tr, |s.trace|, id);
      }
    } else if r.inFlight {
      LiveSpeaks(cfg, inputs, id);
    } else {
      UnmarkedSpeaks(cfg, inputs, id);
    }
  }

  lemma LiveSpeaks(cfg: Config, inputs: seq<Input>, id: Id)
    requires id in Run(cfg, inputs).reqs && Run(cfg, inputs).reqs[id].inFlight
    ensures !SilentForever(cfg, inputs, id)
  {
    hide Run, TrackOf, HandlesOk;
    var s := Run(cfg, inputs);
    RunInv(cfg, inputs);
    SettledFacts(s, id);
    RunClean(cfg, inputs);
    assert s.trace[..|s.trace|] == s.trace;
    MovingIsLive(s.trace, |s.trace|, id);
    assert inputs + [] == inputs;
    assert !Silent(Run(cfg, inputs + []).trace, |s.trace|, id);
  }

  lemma UnmarkedSpeaks(cfg: Config, inputs: seq<Input>, id: Id)
    requires var s := Run(cfg, inputs); id in s.reqs && !s.reqs[id].inFlight && !s.reqs[id].doNotPush
    ensures !SilentForever(cfg, inputs, id)
  {
    hide Run, TrackOf, HandlesOk;
    var s := Run(cfg, inputs);
    RunInv(cfg, inputs);
    SettledFacts(s, id);
    var more := TicksSubmit(cfg, inputs, id, _ => GRANTED);
    assert SubmitsFrom(Run(cfg, inputs + more).trace, |s.trace|, id);
  }

  // ---- the chokepoint ----

  lemma ArrivedTwice(s: State)
    requires s == Run(OPEN, [ARRIVE, ARRIVE])
    ensures s.trace ==
        [Received(0, true, KEY, RECEIVED), Submit(0, Pull, []), Received(1, true, KEY, RECEIVED), Submit(1, Pull, [])]
    ensures s.inflight == [0, 1] && s.reqs.Keys == {0, 1} && s.nextHandle == 0
    ensures 0 in s.live && s.live[0] == Xfer(0, Pull)
    ensures var r := s.reqs[0];
            r.exec && r.registered && r.key == KEY && r.inFlight && r.op == 0 && r.cancelHandle == None
  {
    hide Run, Inv, TrackOf, Arrive;
    var s1 := Run(OPEN, [ARRIVE]);
    Arrived(s1);
    RunSnoc(OPEN, [ARRIVE], ARRIVE);
    assert [ARRIVE] + [ARRIVE] == [ARRIVE, ARRIVE];
    ArrivesAgain(s1);
  }

  lemma ArrivesAgain(s: State)
    requires s.cfg == OPEN && 0 in s.reqs && s.reqs.Keys == {0} && s.inflight == [0] && s.nextReq == 1 && s.nextOp == 1
    requires s.live == map[0 := Xfer(0, Pull)]
    ensures var s' := Step(s, ARRIVE);
            && s'.trace == s.trace + [Received(1, true, KEY, RECEIVED), Submit(1, Pull, [])]
            && s'.inflight == [0, 1] && s'.reqs.Keys == {0, 1} && s'.reqs[0] == s.reqs[0]
            && s'.nextHandle == s.nextHandle && 0 in s'.live && s'.live[0] == Xfer(0, Pull)
  {
  }

  /** Two Execs with one key, both with a live PULL; the cancel is stashed on the older. */
  lemma CancelledOlder(s: State)
    requires s == Run(OPEN, [ARRIVE, ARRIVE, CANCEL])
    ensures s.trace ==
        [Received(0, true, KEY, RECEIVED), Submit(0, Pull, []), Received(1, true, KEY, RECEIVED), Submit(1, Pull, []),
         Stash(0, 0, true, true)]
    ensures 0 in s.reqs && 0 in s.live && s.live[0] == Xfer(0, Pull)
    ensures var r := s.reqs[0]; r.exec && r.registered && r.key == KEY && r.cancelHandle == Some(0)
  {
    hide Run, Inv, TrackOf, Arrive;
    var s2 := Run(OPEN, [ARRIVE, ARRIVE]);
    ArrivedTwice(s2);
    RunSnoc(OPEN, [ARRIVE, ARRIVE], CANCEL);
    assert [ARRIVE, ARRIVE] + [CANCEL] == [ARRIVE, ARRIVE, CANCEL];
  }

  /**
   * An ack from the chokepoint is no proof for another request with its key: here it is sent while the
   * younger request's PULL is live.
   */
  lemma ChokepointAckIsNoProof()
    ensures exists cfg, inputs, i: nat, id: Id ::
              var tr := Run(cfg, inputs).trace;
              && i < |tr| && tr[i].Acked? && tr[i].via.Chokepoint?
              && ReceivedBefore(tr, i, id, tr[i].key) && LiveAt(tr, i, id)
  {
    hide Run, Inv, TrackOf, Step;
    var s := Run(OPEN, [ARRIVE, ARRIVE, CANCEL]);
    CancelledOlder(s);
    var lost := TransferIn(0, Canceled, GRANTED);
    RunSnoc(OPEN, [ARRIVE, ARRIVE, CANCEL], lost);
    var inputs := [ARRIVE, ARRIVE, CANCEL] + [lost];
    var tr := Run(OPEN, inputs).trace;
    CanceledTrace(s);
    assert tr[2] == Received(1, true, KEY, RECEIVED) && tr[3] == Submit(1, Pull, []) && tr[9].Acked?;
    assert ReceivedBefore(tr, 9, 1, KEY) && LiveAt(tr, 9, 1);
  }

  lemma CanceledTrace(s: State)
    requires 0 in s.reqs && 0 in s.live && s.live[0] == Xfer(0, Pull) && RegistryOk(s)
    requires var r := s.reqs[0]; r.exec && r.registered && r.key == KEY && r.cancelHandle == Some(0)
    ensures Step(s, TransferIn(0, Canceled, GRANTED)).trace ==
            s.trace + [Done(0, Pull, Canceled), Deregister(0), Respond(0, FailOut(ABORTED)), Quiesce(0),
                       Acked(0, KEY, PUSH_CANCELED, Chokepoint(0)), Free(0)]
  {
    hide Finish;
    var s1 := Retire(s, 0, Canceled);
    var s2 := Put(s1, 0, s1.reqs[0].(hadPushCanceled := true));
    var s3 := Put(s2, 0, s2.reqs[0].(out := FailOut(ABORTED)));
    FinishTrace(s3, 0);
    assert FinishEvents(s3.reqs[0], 0) == [Deregister(0), Respond(0, FailOut(ABORTED)), Quiesce(0),
                                           Acked(0, KEY, PUSH_CANCELED, Chokepoint(0)), Free(0)];
  }

  /** Every Exec received under `key` so far has no live transfer now and will never submit one. */
  ghost predicate KeySilent(cfg: Config, inputs: seq<Input>, key: Key) {
    var tr := Run(cfg, inputs).trace;
    forall id: Id | ReceivedBefore(tr, |tr|, id, key) :: SilentForever(cfg, inputs, id)
  }

  lemma {:induction false} RegisteredWasReceived(trace: seq<Event>, i: nat, id: Id)
    requires Clean(trace) && i <= |trace| && TrackOf(trace[..i], id).exec
    ensures ReceivedBefore(trace, i, id, TrackOf(trace[..i], id).key)
    decreases i
  {
    hide TrackOf;
    assert trace[..0] == [];
    TrackNil(id);
    At(trace, i - 1, id);
    var e := trace[i - 1];
    if !(e.Received? && e.id == id) {
      RegisteredWasReceived(trace, i - 1, id);
      var k :| 0 <= k < i - 1 && trace[k].Received? && trace[k].id == id && trace[k].exec
               && trace[k].key == TrackOf(trace[..i - 1], id).key;
    }
  }

  lemma FreedIsSilent(cfg: Config, inputs: seq<Input>, id: Id)
    requires TrackOf(Run(cfg, inputs).trace, id).phase.Freed?
    ensures SilentForever(cfg, inputs, id)
  {
    hide Run, TrackOf, Silent;
    var s := Run(cfg, inputs);
    forall more
      ensures s.trace <= Run(cfg, inputs + more).trace && Silent(Run(cfg, inputs + more).trace, |s.trace|, id) {
      RunGrows(cfg, inputs, more);
      RunClean(cfg, inputs + more);
      var tr := Run(cfg, inputs + more).trace;
      assert tr[..|s.trace|] == s.trace;
      QuietIsSilent(tr, |s.trace|, id);
    }
  }

  /**
   * Exactly when a whole key is silent: each request registered under it has no live transfer and is
   * marked do-not-push.
   */
  lemma KeySilentExact(cfg: Config, inputs: seq<Input>, key: Key)
    ensures var s := Run(cfg, inputs);
            && RegistryOk(s)
            && (KeySilent(cfg, inputs, key) <==>
                  forall id | id in s.inflight && s.reqs[id].key == key :: !s.reqs[id].inFlight && s.reqs[id].doNotPush)
  {
    hide Run, TrackOf, HandlesOk, SilentForever, Consistent;
    var s := Run(cfg, inputs);
    var tr := s.trace;
    RunInv(cfg, inputs);
    RunClean(cfg, inputs);
    assert tr[..|tr|] == tr;
    forall id: Id | id in s.reqs
      ensures SilentForever(cfg, inputs, id) <==> !s.reqs[id].inFlight && s.reqs[id].doNotPush {
      DuplicateAckExact(cfg, inputs, id);
    }
    forall id | id in s.inflight && s.reqs[id].key == key ensures ReceivedBefore(tr, |tr|, id, key) {
      Registered(s, id);
      RegisteredWasReceived(tr, |tr|, id);
    }
    forall id: Id | ReceivedBefore(tr, |tr|, id, key)
      ensures (id in s.inflight && s.reqs[id].key == key) || SilentForever(cfg, inputs, id)
    {
      ReceivedTrack(tr, |tr|, id, key);
      if id in s.reqs { Registered(s, id); } else { FreedIsSilent(cfg, inputs, id); }
    }
  }

  lemma Registered(s: State, id: Id)
    requires Inv(s, {}) && id in s.reqs
    ensures var t := TrackOf(s.trace, id); t.exec == s.reqs[id].exec && t.key == s.reqs[id].key && !t.phase.Freed?
    ensures id in s.inflight <==> s.reqs[id].exec
    ensures s.reqs[id].cancelHandle.None? ==> !s.reqs[id].doNotPush
    ensures s.reqs[id].cancelHandle.Some? ==> s.reqs[id].exec
  {
    SettledFacts(s, id);
  }

  lemma CancelKeepsRequests(s: State, i: Input)
    requires RegistryOk(s) && i.CancelIn?
    ensures Step(s, i).reqs.Keys == s.reqs.Keys
  {
  }

  /**
   * The step that finishes a request with a cancel stashed on it sends that cancel's one ack. That ack
   * speaks for the whole key exactly when no other request registered under the key is left: only the
   * oldest of a key can hold a cancel, so any other is unmarked.
   */
  lemma ChokepointAckExact(cfg: Config, inputs: seq<Input>, input: Input, id: Id, h: Handle)
    requires var s := Run(cfg, inputs); id in s.reqs && s.reqs[id].cancelHandle == Some(h)
    requires id !in Run(cfg, inputs + [input]).reqs
    ensures AckCount(Run(cfg, inputs).trace, h) == 0 && AckCount(Run(cfg, inputs + [input]).trace, h) == 1
    ensures var s' := Run(cfg, inputs + [input]);
            && RegistryOk(s')
            && (KeySilent(cfg, inputs + [input], Run(cfg, inputs).reqs[id].key) <==>
                  forall j | j in s'.inflight :: s'.reqs[j].key != Run(cfg, inputs).reqs[id].key)
  {
    hide Run, TrackOf, AckCount, RequestsOk, KeySilent, Step;
    var s, s' := Run(cfg, inputs), Run(cfg, inputs + [input]);
    RunInv(cfg, inputs);
    RunInv(cfg, inputs + [input]);
    RunSnoc(cfg, inputs, input);
    if input.CancelIn? {
      CancelKeepsRequests(s, input);
      assert false;
    }
    StepKeeps(s, input);
    AckedOnce(s, s', id, h);
    Registered(s, id);
    var key := s.reqs[id].key;
    KeySilentExact(cfg, inputs + [input], key);
    forall j | j in s'.inflight && s'.reqs[j].key == key ensures !s'.reqs[j].doNotPush {
      Registered(s', j);
      OthersUnstashed(s, s', id, j);
    }
  }

  lemma AckedOnce(s: State, s': State, id: Id, h: Handle)
    requires HandlesOk(s) && HandlesOk(s') && s'.nextHandle == s.nextHandle
    requires KeepsHandles(s, s') && forall j | j in s'.reqs && j !in s.reqs :: s'.reqs[j].cancelHandle.None?
    requires id in s.reqs && s.reqs[id].cancelHandle == Some(h) && id !in s'.reqs
    ensures AckCount(s.trace, h) == 0 && AckCount(s'.trace, h) == 1
  {
    hide AckCount, OldestHolds;
  }

  lemma OthersUnstashed(s: State, s': State, id: Id, j: Id)
    requires OldestHolds(s) && KeepsHandles(s, s')
    requires forall j | j in s'.reqs && j !in s.reqs :: s'.reqs[j].cancelHandle.None?
    requires id in s.reqs && s.reqs[id].cancelHandle.Some? && s.reqs[id].exec && id !in s'.reqs
    requires j in s'.reqs && s'.reqs[j].exec && s'.reqs[j].key == s.reqs[id].key
    ensures s'.reqs[j].cancelHandle.None?
  {
  }

  // ---- delivery ----

  const UNDONE := Env(true, true, true, ExecResult(FAILED, 5000, BIG), true, true)
  const SMALL := ArriveIn(true, true, KEY, false, 0, true, UNDONE)

  lemma PushesFailure(s: State)
    requires s == Run(OPEN, [SMALL])
    ensures s.trace == [Received(0, true, KEY, Ask(false, 0, true, OPEN)), Ran(0, UNDONE.res), Submit(0, Push, BIG)]
    ensures 0 in s.reqs && 0 in s.live && s.live[0] == Xfer(0, Push)
    ensures var r := s.reqs[0]; r.exec && r.registered && r.cancelHandle == None
  {
    hide Run, Inv, TrackOf;
    RunNil(OPEN);
    RunSnoc(OPEN, [], SMALL);
    assert [] + [SMALL] == [SMALL];
  }

  lemma BrokenTrace(s: State)
    requires 0 in s.reqs && 0 in s.live && s.live[0] == Xfer(0, Push) && RegistryOk(s)
    requires var r := s.reqs[0]; r.exec && r.registered && r.cancelHandle == None
    ensures Step(s, TransferIn(0, Broken, UNDONE)).trace ==
            s.trace + [Done(0, Push, Broken), Deregister(0), Respond(0, FailOut(FAILED)), Quiesce(0), Free(0)]
  {
    hide Finish;
    var s1 := Retire(s, 0, Broken);
    var s2 := Put(s1, 0, s1.reqs[0].(out := FailOut(FAILED)));
    FinishTrace(s2, 0);
    assert FinishEvents(s2.reqs[0], 0) == [Deregister(0), Respond(0, FailOut(FAILED)), Quiesce(0), Free(0)];
  }

  /** The same status as the backend's does not say that its bytes came: the service fails in the same words. */
  lemma StatusIsNoProof()
    ensures exists cfg, inputs, i: nat, res ::
              var tr := Run(cfg, inputs).trace;
              && i < |tr| && tr[i].Respond? && Ran(tr[i].id, res) in tr[..i]
              && tr[i].out.status == res.status && tr[i].out.resultLen != res.resultLen
              && !PushedBefore(tr, i, tr[i].id, res.buf)
  {
    hide Run, Inv, TrackOf, Step;
    var s := Run(OPEN, [SMALL]);
    PushesFailure(s);
    var broken := TransferIn(0, Broken, UNDONE);
    RunSnoc(OPEN, [SMALL], broken);
    BrokenTrace(s);
    var tr := Run(OPEN, [SMALL] + [broken]).trace;
    assert tr[5] == Respond(0, FailOut(FAILED)) && tr[1] == Ran(0, UNDONE.res);
    assert Ran(0, UNDONE.res) in tr[..5];
    assert tr[0].Received? && tr[2].Submit? && tr[3] == Done(0, Push, Broken) && tr[4].Deregister?;
    assert forall m | 0 <= m < 5 :: tr[m] != Done(0, Push, Landed);
  }
}
