/**
 * What every run of the service guarantees, stated on the trace alone: order of the
 * chokepoint, one response and one free per request, one ack per cancel, delivery of the
 * backend's bytes, and quiescence behind a cancel ack.
 */
module ServiceTheorems {
  import opened Common
  import opened ServiceState
  import opened ServiceInvariant
  import opened ServiceSteps

  /** The state after any finite sequence of arrivals, cancels, completions and ticks. */
  function Run(cfg: Config, inputs: seq<Input>): State
    decreases |inputs|, 0
  {
    if inputs == [] then Init(cfg)
    else
      var n := |inputs| - 1;
      RunInv(cfg, inputs[..n]);
      Step(Run(cfg, inputs[..n]), inputs[n])
  }

  /** Every reachable state satisfies the invariant. */
  lemma {:induction false} RunInv(cfg: Config, inputs: seq<Input>)
    ensures Inv(Run(cfg, inputs), {}) && RegistryOk(Run(cfg, inputs))
    decreases |inputs|, 1
  {
    hide TrackOf, HandlesOk, Step;
    if inputs == [] {
      InitInv(cfg);
    } else {
      var n := |inputs| - 1;
      RunInv(cfg, inputs[..n]);
      StepInv(Run(cfg, inputs[..n]), inputs[n]);
    }
  }

  lemma RunNil(cfg: Config)
    ensures Run(cfg, []) == Init(cfg)
  {
  }

  lemma RunSnoc(cfg: Config, inputs: seq<Input>, i: Input)
    ensures Inv(Run(cfg, inputs), {}) && RegistryOk(Run(cfg, inputs))
    ensures Run(cfg, inputs + [i]) == Step(Run(cfg, inputs), i)
  {
    RunInv(cfg, inputs);
    assert (inputs + [i])[..|inputs|] == inputs;
  }

  // ---- facts about traces none of whose requests went bad ----

  ghost predicate Clean(trace: seq<Event>) {
    forall id: Id :: !TrackOf(trace, id).phase.Bad?
  }

  lemma RunClean(cfg: Config, inputs: seq<Input>)
    ensures Clean(Run(cfg, inputs).trace)
  {
    hide TrackOf, HandlesOk, Run;
    var s := Run(cfg, inputs);
    RunInv(cfg, inputs);
    forall id: Id ensures !TrackOf(s.trace, id).phase.Bad? {
      if id in s.reqs { SettledFacts(s, id); }
    }
  }

  function Rank(p: Phase): nat {
    match p
    case Unborn => 0 case Idle => 1 case Moving(_) => 1 case Deregistered => 2
    case Responded => 3 case Quiesced => 4 case Freed => 5 case Bad => 6
  }

  lemma PhaseRank(p: Phase, exec: bool, e: Event)
    requires InPhase(p, exec, e)
    ensures Rank(p) <= Rank(PhaseAfter(p, e))
    ensures !p.Bad? ==> !PhaseAfter(p, e).Bad?
    ensures !p.Unborn? ==> !PhaseAfter(p, e).Unborn?
  {
  }

  lemma RankStep(t: Track, id: Id, e: Event)
    ensures Rank(t.phase) <= Rank(Advance(t, id, e).phase)
  {
    hide Guard, Facts, InPhase, PhaseAfter;
    if Allowed(t, e) { PhaseRank(t.phase, t.exec, e); }
  }

  /** A request only moves forward through its phases. */
  lemma {:induction false} RankGrows(trace: seq<Event>, i: nat, j: nat, id: Id)
    requires i <= j <= |trace|
    ensures Rank(TrackOf(trace[..i], id).phase) <= Rank(TrackOf(trace[..j], id).phase)
    decreases j
  {
    hide TrackOf, Advance;
    if i < j {
      RankGrows(trace, i, j - 1, id);
      assert trace[..j] == trace[..j - 1] + [trace[j - 1]];
      TrackSnoc(trace[..j - 1], trace[j - 1]);
      RankStep(TrackOf(trace[..j - 1], id), id, trace[j - 1]);
    }
  }

  lemma CleanPrefix(trace: seq<Event>, i: nat)
    requires Clean(trace) && i <= |trace|
    ensures Clean(trace[..i])
  {
    hide TrackOf;
    forall id: Id ensures !TrackOf(trace[..i], id).phase.Bad? {
      RankGrows(trace, i, |trace|, id);
      assert trace[..|trace|] == trace;
    }
  }

  /** The track just before and just after event `i` of a clean trace. */
  lemma At(trace: seq<Event>, i: nat, id: Id)
    requires Clean(trace) && i < |trace|
    ensures var t := TrackOf(trace[..i], id); var t' := TrackOf(trace[..i + 1], id);
            && !t.phase.Bad? && !t'.phase.Bad?
            && (About(trace[i], id) ==> Allowed(t, trace[i]) && t' == Effect(t, trace[i]))
            && (!About(trace[i], id) ==> t' == t)
  {
    hide TrackOf, Allowed, Effect;
    CleanPrefix(trace, i);
    CleanPrefix(trace, i + 1);
    assert trace[..i + 1] == trace[..i] + [trace[i]];
    TrackSnoc(trace[..i], trace[i]);
  }

  /** What holds of a request at any time. */
  ghost predicate Sane(t: Track) {
    && (t.phase.Unborn? ==> t == NEWBORN)
    && (t.answer.Some? <==> Rank(t.phase) >= 3)
    && (t.phase.Moving? ==> Needs(t, t.phase.kind) && !t.canceled)
    && (t.phase == Moving(Pull) ==> t.pushing == [])
    && (t.phase == Moving(Push) ==> t.pushing == t.ran.value.buf)
    && (t.canceled ==> t.failure.Some?)
    && (t.landed ==> t.ran.Some?)
    && (!t.ask.cfg.hasExecutor ==> t.ran.None? && t.failure.None?)
    && (t.failure.Some? ==> t.failure.value in {ABORTED, FAILED, NOMEM})
    && (t.ran.Some? && (|t.ran.value.buf| <= INLINE_MAX || t.landed) ==> Well(t))
  }

  lemma SaneArrived(exec: bool, key: Key, ask: Ask)
    ensures Sane(Arrived(exec, key, ask))
  {
  }

  lemma SaneDone(t: Track, kind: Kind, outcome: Outcome)
    requires Sane(t) && t.phase == Moving(kind)
    ensures Sane(Complete(t, kind, outcome).(phase := Idle))
  {
    assert kind.Pull? || kind.Push?;
  }

  lemma SaneSubmit(t: Track, kind: Kind, bytes: Bytes)
    requires Sane(t) && SubmitOk(t, kind, bytes)
    ensures Sane(t.(phase := Moving(kind), pushing := bytes))
  {
    assert kind.Pull? || kind.Push?;
  }

  lemma SaneRefused(t: Track, kind: Kind, what: Resource)
    requires Sane(t) && Due(t, kind)
    ensures Sane(t.(failure := Some(RefusalStatus(what))))
  {
    assert kind.Pull? || kind.Push?;
  }

  lemma SaneRan(t: Track, res: ExecResult)
    requires Sane(t) && t.phase.Idle? && NeedsRun(t)
    ensures Sane(t.(ran := Some(res)))
  {
  }

  lemma SanePhase(t: Track, p: Phase, answer: Option<Out>)
    requires Sane(t) && !t.phase.Moving? && !t.phase.Unborn? && !p.Moving? && !p.Unborn?
    requires answer.Some? <==> Rank(p) >= 3
    ensures Sane(t.(phase := p, answer := answer))
  {
  }

  lemma SaneMarks(t: Track, t': Track)
    requires Sane(t) && !t.phase.Unborn?
    requires t' == t.(stash := t'.stash, marked := t'.marked, pullHeld := t'.pullHeld, pushHeld := t'.pushHeld)
    ensures Sane(t')
  {
  }

  lemma SanePassing(t: Track, e: Event)
    requires Sane(t) && Allowed(t, e) && !t.phase.Bad? && (e.Deregister? || e.Respond? || e.Quiesce? || e.Free?)
    ensures Sane(Effect(t, e))
  {
    hide Sane, Guard;
    SaneAnswer(t);
    if e.Respond? { SanePhase(t, Responded, Some(e.out)); } else { SanePhase(t, PhaseAfter(t.phase, e), t.answer); }
  }

  lemma SaneMarking(t: Track, e: Event)
    requires Sane(t) && Allowed(t, e) && (e.Held? || e.Stash? || e.Acked?)
    ensures Sane(Effect(t, e))
  {
    hide Sane, Guard;
    if e.Acked? && !e.via.Chokepoint? { assert Effect(t, e) == t; } else { SaneMarks(t, Effect(t, e)); }
  }

  lemma SaneStep(t: Track, e: Event)
    requires Sane(t) && Allowed(t, e) && !t.phase.Bad?
    ensures Sane(Effect(t, e))
  {
    hide Sane, Verdict, NeedsRun, SubmitOk, Due, Stalled, Needs, Complete;
    if e.Deregister? || e.Respond? || e.Quiesce? || e.Free? {
      SanePassing(t, e);
    } else if e.Held? || e.Stash? || e.Acked? {
      SaneMarking(t, e);
    } else {
      match e
      case Received(_, exec, key, ask) => SaneArrived(exec, key, ask);
      case Ran(_, res) => SaneRan(t, res);
      case Submit(_, kind, bytes) => SaneSubmit(t, kind, bytes);
      case Refused(_, kind, what) => SaneRefused(t, kind, what);
      case Done(_, kind, outcome) => SaneDone(t, kind, outcome);
    }
  }

  lemma SaneAnswer(t: Track)
    requires Sane(t) && !t.phase.Bad?
    ensures Rank(t.phase) < 6 && (t.answer.Some? <==> Rank(t.phase) >= 3)
  {
  }

  lemma {:induction false} SaneAt(trace: seq<Event>, i: nat, id: Id)
    requires Clean(trace) && i <= |trace|
    ensures Sane(TrackOf(trace[..i], id))
    decreases i
  {
    hide TrackOf, Allowed, Effect;
    assert trace[..0] == [];
    TrackNil(id);
    if i > 0 {
      hide Sane;
      SaneAt(trace, i - 1, id);
      At(trace, i - 1, id);
      if About(trace[i - 1], id) { SaneStep(TrackOf(trace[..i - 1], id), trace[i - 1]); }
    }
  }

  lemma CompleteKeeps(t: Track, kind: Kind, outcome: Outcome)
    ensures var t' := Complete(t, kind, outcome);
            && t'.exec == t.exec && t'.key == t.key && t'.ask == t.ask && t'.marked == t.marked
            && t'.answer == t.answer && t'.ran == t.ran
  {
  }

  /** Who the request is never changes, and a mark stays. */
  lemma WhoKept(t: Track, e: Event)
    ensures var t' := Facts(t, e);
            !e.Received? ==> t'.exec == t.exec && t'.key == t.key && t'.ask == t.ask && (t.marked ==> t'.marked)
  {
    hide Complete, Arrived, RefusalStatus;
    match e
    case Done(_, kind, outcome) => CompleteKeeps(t, kind, outcome);
    case _ =>
  }

  /** Only a response answers. */
  lemma AnswerKept(t: Track, e: Event)
    ensures var t' := Facts(t, e);
            if e.Received? then t'.answer.None? else if e.Respond? then t'.answer.Some? else t'.answer == t.answer
  {
    hide Complete, RefusalStatus;
    match e
    case Done(_, kind, outcome) => CompleteKeeps(t, kind, outcome);
    case _ =>
  }

  /** Only a run is a run, and only a transfer that landed has landed. */
  lemma WorkKept(t: Track, e: Event)
    ensures var t' := Facts(t, e);
            if e.Received? then t'.ran.None? && !t'.pulled && !t'.landed
            else
              && t'.ran == (if e.Ran? then Some(e.res) else t.ran)
              && t'.pulled == (t.pulled || (e.Done? && e.kind.Pull? && e.outcome.Landed?))
              && t'.landed == (t.landed || (e.Done? && e.kind.Push? && e.outcome.Landed?))
  {
    match e
    case Done(_, kind, outcome) =>
    case _ =>
  }

  lemma BornStep(t: Track, e: Event)
    requires Sane(t) && Allowed(t, e) && !t.phase.Unborn?
    ensures var t' := Effect(t, e);
            !t'.phase.Unborn? && t'.exec == t.exec && t'.key == t.key && t'.ask == t.ask
            && (t.marked ==> t'.marked) && (t.answer.Some? ==> t'.answer == t.answer)
  {
    hide Guard, Facts, PhaseAfter;
    WhoKept(t, e);
    AnswerKept(t, e);
    PhaseRank(t.phase, t.exec, e);
  }

  lemma {:induction false} BornFixed(trace: seq<Event>, i: nat, j: nat, id: Id)
    requires Clean(trace) && i <= j <= |trace| && !TrackOf(trace[..i], id).phase.Unborn?
    ensures var t := TrackOf(trace[..i], id); var t' := TrackOf(trace[..j], id);
            !t'.phase.Unborn? && t'.exec == t.exec && t'.key == t.key && t'.ask == t.ask
            && (t.marked ==> t'.marked) && (t.answer.Some? ==> t'.answer == t.answer)
    decreases j
  {
    hide TrackOf, Allowed, Effect, Sane;
    if i < j {
      BornFixed(trace, i, j - 1, id);
      SaneAt(trace, j - 1, id);
      At(trace, j - 1, id);
      if About(trace[j - 1], id) { BornStep(TrackOf(trace[..j - 1], id), trace[j - 1]); }
    }
  }

  // ---- exactly once ----

  function Responses(trace: seq<Event>, id: Id): nat {
    if trace == [] then 0
    else
      var e := trace[|trace| - 1];
      Responses(trace[..|trace| - 1], id) + if e.Respond? && e.id == id then 1 else 0
  }

  function Frees(trace: seq<Event>, id: Id): nat {
    if trace == [] then 0
    else
      var e := trace[|trace| - 1];
      Frees(trace[..|trace| - 1], id) + if e.Free? && e.id == id then 1 else 0
  }

  lemma CountsStep(t: Track, e: Event)
    requires Allowed(t, e) && !t.phase.Bad?
    ensures var p, p' := t.phase, Effect(t, e).phase;
            && (Rank(p') >= 3 <==> Rank(p) >= 3 || e.Respond?) && (e.Respond? ==> Rank(p) < 3)
            && (p'.Freed? <==> p.Freed? || e.Free?) && (e.Free? ==> !p.Freed?)
  {
    hide Guard, Facts;
    match e
    case Acked(_, _, _, via) => match via { case NotFound => case Duplicate(_) => case Chokepoint(_) => }
    case _ =>
  }

  lemma {:induction false} CountsFollowPhase(trace: seq<Event>, id: Id)
    requires Clean(trace)
    ensures var p := TrackOf(trace, id).phase;
            Responses(trace, id) == (if Rank(p) >= 3 then 1 else 0) && Frees(trace, id) == (if p.Freed? then 1 else 0)
    decreases |trace|
  {
    hide TrackOf, Allowed, Effect;
    TrackNil(id);
    if trace != [] {
      var n := |trace| - 1;
      CleanPrefix(trace, n);
      CountsFollowPhase(trace[..n], id);
      At(trace, n, id);
      assert trace[..n + 1] == trace;
      if About(trace[n], id) { CountsStep(TrackOf(trace[..n], id), trace[n]); }
    }
  }

  predicate PullLive(s: State, id: Id) {
    id in s.reqs && s.reqs[id].inFlight && s.reqs[id].op in s.live && s.live[s.reqs[id].op] == Xfer(id, Pull)
  }

  predicate PushLive(s: State, id: Id) {
    id in s.reqs && s.reqs[id].inFlight && s.reqs[id].op in s.live && s.live[s.reqs[id].op] == Xfer(id, Push)
  }

  predicate ExactlyOne(a: bool, b: bool, c: bool, d: bool) {
    (if a then 1 else 0) + (if b then 1 else 0) + (if c then 1 else 0) + (if d then 1 else 0) == 1
  }

  /**
   * Between steps every decoded request either has been answered once and freed once, or has
   * been neither and waits for exactly one of its four things, with at most one live transfer.
   */
  lemma ExactlyOnce(cfg: Config, inputs: seq<Input>, id: Id)
    requires id < Run(cfg, inputs).nextReq
    ensures var s := Run(cfg, inputs);
            if id in s.reqs then
              && Responses(s.trace, id) == 0 && Frees(s.trace, id) == 0
              && ExactlyOne(s.reqs[id].pullPending, PullLive(s, id), s.reqs[id].pushPending, PushLive(s, id))
              && (forall op | op in s.live && s.live[op].id == id :: s.reqs[id].inFlight && op == s.reqs[id].op)
              && (s.reqs[id].exec <==> id in s.inflight)
            else
              && Responses(s.trace, id) == 1 && Frees(s.trace, id) == 1
              && id !in s.inflight && (forall op | op in s.live :: s.live[op].id != id)
  {
    hide TrackOf, HandlesOk, Run, Responses, Frees;
    var s := Run(cfg, inputs);
    RunClean(cfg, inputs);
    CountsFollowPhase(s.trace, id);
    RunInv(cfg, inputs);
    if id in s.reqs {
      SettledFacts(s, id);
      var r := s.reqs[id];
      if r.inFlight {
        assert s.live[r.op] == Xfer(id, s.live[r.op].kind);
        match s.live[r.op].kind
        case Pull => assert PullLive(s, id) && !PushLive(s, id);
        case Push => assert PushLive(s, id) && !PullLive(s, id);
      }
    }
  }

  /** Each decoded cancel is acked once, or waits on exactly one request and is not yet acked. */
  lemma OneAckPerCancel(cfg: Config, inputs: seq<Input>, h: Handle)
    requires h < Run(cfg, inputs).nextHandle
    ensures var s := Run(cfg, inputs);
            if exists id :: id in s.reqs && s.reqs[id].cancelHandle == Some(h) then
              && AckCount(s.trace, h) == 0
              && (forall i, j | i in s.reqs && j in s.reqs
                && s.reqs[i].cancelHandle == s.reqs[j].cancelHandle == Some(h) :: i == j)
            else AckCount(s.trace, h) == 1
  {
    hide TrackOf, AckCount, Run;
    var s := Run(cfg, inputs);
    RunInv(cfg, inputs);
    if exists id :: id in s.reqs && s.reqs[id].cancelHandle == Some(h) {
      forall i, j | i in s.reqs && j in s.reqs && s.reqs[i].cancelHandle == s.reqs[j].cancelHandle == Some(h)
        ensures i == j {}
    } else {
      assert !Stashed(s, h);
    }
  }

  // ---- cancel safety ----

  ghost predicate ReceivedBefore(trace: seq<Event>, i: nat, id: Id, key: Key)
    requires i <= |trace|
  {
    exists k :: 0 <= k < i && trace[k].Received? && trace[k].id == id && trace[k].exec && trace[k].key == key
  }

  /** A transfer of `id` was submitted before `i` and had not completed by then. */
  ghost predicate LiveAt(trace: seq<Event>, i: nat, id: Id)
    requires i <= |trace|
  {
    exists k :: && 0 <= k < i && trace[k].Submit? && trace[k].id == id
                && forall m | k < m < i :: !(trace[m].Done? && trace[m].id == id)
  }

  ghost predicate SubmitsFrom(trace: seq<Event>, i: nat, id: Id) {
    exists m :: i <= m < |trace| && trace[m].Submit? && trace[m].id == id
  }

  /** No transfer is live and none is ever submitted again. */
  ghost predicate Silent(trace: seq<Event>, i: nat, id: Id)
    requires i <= |trace|
  {
    !LiveAt(trace, i, id) && !SubmitsFrom(trace, i, id)
  }

  /** At `i` the request is past its transfers, or waits unsubmitted with a cancel that forbids it any. */
  ghost predicate Quiet(trace: seq<Event>, i: nat, id: Id)
    requires i <= |trace|
  {
    var t := TrackOf(trace[..i], id);
    Rank(t.phase) >= 2 || (t.phase.Idle? && t.marked)
  }

  /** Up to `i` the front reused `key` only after the earlier request was freed. */
  ghost predicate ReusedLate(trace: seq<Event>, i: nat, key: Key)
    requires i <= |trace|
  {
    forall k, id | && 0 <= k < i && trace[k].Received? && trace[k].exec && trace[k].key == key && id != trace[k].id
                   && TrackOf(trace[..k], id).exec && TrackOf(trace[..k], id).key == key ::
      TrackOf(trace[..k], id).phase.Freed?
  }

  lemma {:induction false} LiveIsMoving(trace: seq<Event>, k: nat, i: nat, id: Id)
    requires Clean(trace) && k < i <= |trace| && trace[k].Submit? && trace[k].id == id
    requires forall m | k < m < i :: !(trace[m].Done? && trace[m].id == id)
    ensures TrackOf(trace[..i], id).phase.Moving?
    decreases i
  {
    hide TrackOf;
    At(trace, i - 1, id);
    if k < i - 1 { LiveIsMoving(trace, k, i - 1, id); }
  }

  lemma QuietIsSilent(trace: seq<Event>, i: nat, id: Id)
    requires Clean(trace) && i <= |trace| && Quiet(trace, i, id)
    ensures Silent(trace, i, id)
  {
    hide TrackOf;
    if LiveAt(trace, i, id) {
      var k :| && 0 <= k < i && trace[k].Submit? && trace[k].id == id
               && forall m | k < m < i :: !(trace[m].Done? && trace[m].id == id);
      LiveIsMoving(trace, k, i, id);
      assert false;
    }
    forall m | i <= m < |trace| ensures !(trace[m].Submit? && trace[m].id == id) {
      RankGrows(trace, i, m, id);
      BornFixed(trace, i, m, id);
      At(trace, m, id);
    }
  }

  lemma ReceivedTrack(trace: seq<Event>, i: nat, id: Id, key: Key)
    requires Clean(trace) && i <= |trace| && ReceivedBefore(trace, i, id, key)
    ensures var t := TrackOf(trace[..i], id); t.exec && t.key == key && !t.phase.Unborn?
  {
    hide TrackOf;
    var k :| 0 <= k < i && trace[k].Received? && trace[k].id == id && trace[k].exec && trace[k].key == key;
    At(trace, k, id);
    BornFixed(trace, k + 1, i, id);
  }

  lemma UnbornStep(t: Track, e: Event)
    requires Sane(t) && Allowed(t, e) && !e.Received?
    ensures var t' := Effect(t, e); t'.exec == t.exec && t'.key == t.key && (t.phase.Freed? ==> t'.phase.Freed?)
  {
    hide Verdict, HeldSoFar, StallOf;
    match e
    case Acked(_, _, _, via) => match via { case NotFound => case Duplicate(_) => case Chokepoint(_) => }
    case _ =>
  }

  /** Of two requests that shared a key, all but the newest are gone. */
  lemma {:induction false} UniqueInFlight(trace: seq<Event>, i: nat, key: Key, a: Id, b: Id)
    requires Clean(trace) && i <= |trace| && ReusedLate(trace, i, key) && a != b
    requires var ta := TrackOf(trace[..i], a); var tb := TrackOf(trace[..i], b);
             ta.exec && tb.exec && ta.key == tb.key == key
    ensures TrackOf(trace[..i], a).phase.Freed? || TrackOf(trace[..i], b).phase.Freed?
    decreases i
  {
    hide TrackOf, Allowed, Effect, Sane;
    assert trace[..0] == [];
    TrackNil(a);
    if i > 0 {
      var e := trace[i - 1];
      At(trace, i - 1, a);
      At(trace, i - 1, b);
      SaneAt(trace, i - 1, a);
      SaneAt(trace, i - 1, b);
      if e.Received? && (e.id == a || e.id == b) {
        NewUnderKey(trace, i - 1, key, a, b);
      } else {
        if About(e, a) { UnbornStep(TrackOf(trace[..i - 1], a), e); }
        if About(e, b) { UnbornStep(TrackOf(trace[..i - 1], b), e); }
        UniqueInFlight(trace, i - 1, key, a, b);
      }
    }
  }

  lemma NewUnderKey(trace: seq<Event>, k: nat, key: Key, a: Id, b: Id)
    requires Clean(trace) && k < |trace| && ReusedLate(trace, k + 1, key) && a != b
    requires trace[k].Received? && (trace[k].id == a || trace[k].id == b)
    requires var ta := TrackOf(trace[..k + 1], a); var tb := TrackOf(trace[..k + 1], b);
             ta.exec && tb.exec && ta.key == tb.key == key
    ensures TrackOf(trace[..k + 1], a).phase.Freed? || TrackOf(trace[..k + 1], b).phase.Freed?
  {
    hide TrackOf;
    At(trace, k, a);
    At(trace, k, b);
  }

  /**
   * A delivered cancel ack proves quiescence: when it is sent, the Execs received under its key have
   * no live PULL or PUSH and never submit one again. An ack for an unknown key proves it of all of
   * them, and an ack from the chokepoint of the request it finishes; of another request with the same
   * key it does so if that one is quiet when the ack is sent.
   */
  lemma CancelSafety(cfg: Config, inputs: seq<Input>, i: nat, id: Id)
    requires var tr := Run(cfg, inputs).trace;
             && i < |tr| && tr[i].Acked? && !tr[i].via.Duplicate?
             && ReceivedBefore(tr, i, id, tr[i].key)
             && (tr[i].via.Chokepoint? && tr[i].via.id != id ==> Quiet(tr, i, id))
    ensures Silent(Run(cfg, inputs).trace, i, id)
  {
    hide TrackOf, Run;
    var tr := Run(cfg, inputs).trace;
    RunClean(cfg, inputs);
    ReceivedTrack(tr, i, id, tr[i].key);
    SaneAt(tr, i, id);
    At(tr, i, id);
    QuietIsSilent(tr, i, id);
  }

  /** So it does for all of them when the front had reused the key only after each earlier request was freed. */
  lemma CancelSafetyOfKey(cfg: Config, inputs: seq<Input>, i: nat, id: Id)
    requires var tr := Run(cfg, inputs).trace;
             && i < |tr| && tr[i].Acked? && !tr[i].via.Duplicate?
             && ReceivedBefore(tr, i, id, tr[i].key) && ReusedLate(tr, i, tr[i].key)
    ensures Silent(Run(cfg, inputs).trace, i, id)
  {
    hide TrackOf, Run;
    var tr := Run(cfg, inputs).trace;
    RunClean(cfg, inputs);
    if tr[i].via.Chokepoint? && tr[i].via.id != id {
      ReceivedTrack(tr, i, id, tr[i].key);
      At(tr, i, tr[i].via.id);
      StashMeansExec(tr, i, tr[i].via.id);
      UniqueInFlight(tr, i, tr[i].key, id, tr[i].via.id);
    }
    CancelSafety(cfg, inputs, i, id);
  }

  // ---- the order of the chokepoint ----

  lemma PassStep(t: Track, e: Event, id: Id)
    requires Sane(t) && Allowed(t, e) && About(e, id) && !t.phase.Bad?
    ensures var t' := Effect(t, e);
            && (Rank(t'.phase) >= 2 && t'.exec ==> (Rank(t.phase) >= 2 && t.exec) || e == Deregister(id))
            && (t'.answer.Some? ==> t.answer.Some? || e.Respond?)
            && (Rank(t'.phase) >= 4 ==> Rank(t.phase) >= 4 || e == Quiesce(id))
            && (t'.phase.Freed? ==> t.phase.Freed? || e == Free(id))
  {
    hide Guard, Facts;
    WhoKept(t, e);
    AnswerKept(t, e);
    match e
    case Acked(_, _, _, via) =>
    case _ =>
  }

  lemma {:induction false} PassedThrough(trace: seq<Event>, i: nat, id: Id)
    requires Clean(trace) && i <= |trace|
    ensures var t := TrackOf(trace[..i], id);
            && (Rank(t.phase) >= 2 && t.exec ==> Deregister(id) in trace[..i])
            && (t.answer.Some? ==> exists out :: Respond(id, out) in trace[..i])
            && (Rank(t.phase) >= 4 ==> Quiesce(id) in trace[..i])
            && (t.phase.Freed? ==> Free(id) in trace[..i])
    decreases i
  {
    hide TrackOf, Allowed, Effect, Sane;
    assert trace[..0] == [];
    TrackNil(id);
    if i > 0 {
      PassedThrough(trace, i - 1, id);
      SaneAt(trace, i - 1, id);
      At(trace, i - 1, id);
      LastEvent(trace, i - 1);
      var e := trace[i - 1];
      if About(e, id) {
        PassStep(TrackOf(trace[..i - 1], id), e, id);
        assert e.Respond? ==> Respond(id, e.out) in trace[..i];
      }
    }
  }

  /**
   * A chokepoint ack answers the cancel stashed on its request. It comes after the request left the
   * registry, was answered and dropped its bulk views, and precedes the free. It says PUSH_CANCELED
   * exactly when a transfer of the request was cancelled.
   */
  lemma AckComesLast(cfg: Config, inputs: seq<Input>, i: nat)
    requires var tr := Run(cfg, inputs).trace; i < |tr| && tr[i].Acked? && tr[i].via.Chokepoint?
    ensures var tr := Run(cfg, inputs).trace; var id := tr[i].via.id;
            && (exists live, issued :: Stash(id, tr[i].handle, live, issued) in tr[..i])
            && Deregister(id) in tr[..i] && (exists out :: Respond(id, out) in tr[..i]) && Quiesce(id) in tr[..i]
            && Free(id) !in tr[..i]
            && tr[i].ack == (if Lost(tr, i, id, Canceled) then PUSH_CANCELED else ACK_ABORTED)
  {
    hide TrackOf, Run;
    var tr := Run(cfg, inputs).trace;
    var id := tr[i].via.id;
    RunClean(cfg, inputs);
    At(tr, i, id);
    PassedThrough(tr, i, id);
    SaneAt(tr, i, id);
    StashSays(tr, i, id);
    LossSays(tr, i, id);
    forall f | 0 <= f < i ensures tr[f] != Free(id) {
      At(tr, f, id);
      RankGrows(tr, f + 1, i, id);
    }
  }

  /** A response is sent with no transfer live, and none is submitted afterwards. */
  lemma ResponseIsFinal(cfg: Config, inputs: seq<Input>, i: nat)
    requires var tr := Run(cfg, inputs).trace; i < |tr| && tr[i].Respond?
    ensures var tr := Run(cfg, inputs).trace;
            && !LiveAt(tr, i, tr[i].id) && !SubmitsFrom(tr, i, tr[i].id)
            && (forall j | i < j < |tr| :: !(tr[j].Respond? && tr[j].id == tr[i].id))
  {
    hide TrackOf, Run;
    var tr := Run(cfg, inputs).trace;
    var id := tr[i].id;
    RunClean(cfg, inputs);
    At(tr, i, id);
    QuietIsSilent(tr, i + 1, id);
    if LiveAt(tr, i, id) {
      var k :| && 0 <= k < i && tr[k].Submit? && tr[k].id == id
               && forall m | k < m < i :: !(tr[m].Done? && tr[m].id == id);
      LiveIsMoving(tr, k, i, id);
      assert false;
    }
    forall j | i < j < |tr| ensures !(tr[j].Respond? && tr[j].id == id) {
      RankGrows(tr, i + 1, j, id);
      At(tr, j, id);
    }
    assert !SubmitsFrom(tr, i, id);
  }

  // ---- what the trace says of a request ----

  lemma LastEvent(trace: seq<Event>, i: nat)
    requires i < |trace|
    ensures forall e :: e in trace[..i + 1] <==> e in trace[..i] || e == trace[i]
  {
    assert trace[..i + 1] == trace[..i] + [trace[i]];
  }

  /** A transfer of `id` ended this way without landing. */
  ghost predicate Lost(trace: seq<Event>, i: nat, id: Id, outcome: Outcome)
    requires i <= |trace|
  {
    Done(id, Pull, outcome) in trace[..i] || Done(id, Push, outcome) in trace[..i]
  }

  ghost predicate RefusedFor(trace: seq<Event>, i: nat, id: Id, what: Resource)
    requires i <= |trace|
  {
    Refused(id, Pull, what) in trace[..i] || Refused(id, Push, what) in trace[..i]
  }

  /** A cancel found `id` with no transfer live, or its transfer could not be cancelled. */
  ghost predicate Marked(trace: seq<Event>, i: nat, id: Id)
    requires i <= |trace|
  {
    exists h, live, issued :: Stash(id, h, live, issued) in trace[..i] && !(live && issued)
  }

  lemma SaysStep(t: Track, e: Event, id: Id, res: ExecResult)
    requires Sane(t) && Allowed(t, e) && About(e, id)
    ensures var t' := Effect(t, e);
            && (t'.ran == Some(res) <==> t.ran == Some(res) || e == Ran(id, res))
            && (t'.pulled <==> t.pulled || e == Done(id, Pull, Landed))
            && (t'.landed <==> t.landed || e == Done(id, Push, Landed))
  {
    hide Facts, PhaseAfter;
    WorkKept(t, e);
    if e.Ran? || e.Received? { hide Verdict; } else { hide Guard; }
  }

  /** The backend's run and the transfers that landed. */
  lemma {:induction false} TrackSays(trace: seq<Event>, i: nat, id: Id, res: ExecResult)
    requires Clean(trace) && i <= |trace|
    ensures var t := TrackOf(trace[..i], id);
            && (t.ran == Some(res) <==> Ran(id, res) in trace[..i])
            && (t.pulled <==> Done(id, Pull, Landed) in trace[..i])
            && (t.landed <==> Done(id, Push, Landed) in trace[..i])
    decreases i
  {
    hide TrackOf, Allowed, Effect, Sane;
    assert trace[..0] == [];
    TrackNil(id);
    if i > 0 {
      TrackSays(trace, i - 1, id, res);
      SaneAt(trace, i - 1, id);
      At(trace, i - 1, id);
      LastEvent(trace, i - 1);
      if About(trace[i - 1], id) { SaysStep(TrackOf(trace[..i - 1], id), trace[i - 1], id, res); }
    }
  }

  /** A failure is set once. */
  lemma LossStep(t: Track, e: Event)
    requires Sane(t) && Allowed(t, e)
    ensures var t' := Effect(t, e);
            && t'.canceled == (t.canceled || (e.Done? && e.outcome.Canceled? && t.exec))
            && (t.failure.Some? ==> t'.failure == t.failure && t'.exec == t.exec && !e.Refused? && !e.Done?)
            && (t.failure.None? ==>
                  t'.failure == if e.Refused? then Some(RefusalStatus(e.what))
                                else if e.Done? && !e.outcome.Landed? then Some(LossStatus(t.exec, e.outcome))
                                else None)
            && (if e.Received? then t.phase.Unborn? else t'.exec == t.exec)
  {
    hide Verdict, HeldSoFar, StallOf;
    if e.Done? { assert e.kind.Pull? || e.kind.Push?; }
  }

  /** The first thing that went wrong is the only one, and decides the status. */
  ghost predicate LossAgrees(t: Track, trace: seq<Event>, i: nat, id: Id)
    requires i <= |trace|
  {
    && (t.canceled <==> Lost(trace, i, id, Canceled) && t.exec)
    && (forall what | RefusedFor(trace, i, id, what) :: t.failure == Some(RefusalStatus(what)))
    && (forall o: Outcome | !o.Landed? && Lost(trace, i, id, o) :: t.failure == Some(LossStatus(t.exec, o)))
    && (t.failure.Some? ==> !Undisturbed(trace, i, id))
  }

  lemma LossNext(t: Track, t': Track, trace: seq<Event>, i: nat, id: Id)
    requires i < |trace| && LossAgrees(t, trace, i, id) && Sane(t)
    requires if About(trace[i], id) then Allowed(t, trace[i]) && t' == Effect(t, trace[i]) else t' == t
    ensures LossAgrees(t', trace, i + 1, id)
  {
    hide Allowed, Effect, Sane;
    var e := trace[i];
    if About(e, id) { LossStep(t, e); }
    LastEvent(trace, i);
    assert e.Refused? || e.Done? ==> e.kind.Pull? || e.kind.Push?;
    assert forall what :: RefusedFor(trace, i + 1, id, what) <==>
             RefusedFor(trace, i, id, what) || (e.Refused? && e.id == id && e.what == what);
    forall o ensures Lost(trace, i + 1, id, o) <==> Lost(trace, i, id, o) || (e.Done? && e.id == id && e.outcome == o) {
    }
    hide RefusedFor, Lost;
    if e.Refused? && e.id == id { assert RefusedFor(trace, i + 1, id, e.what); }
    if e.Done? && e.id == id { assert Lost(trace, i + 1, id, e.outcome); }
    LostMeansExec(t, trace, i, id);
  }

  /** Nothing is lost by a request that has not begun. */
  lemma LostMeansExec(t: Track, trace: seq<Event>, i: nat, id: Id)
    requires i < |trace| && LossAgrees(t, trace, i, id) && Sane(t)
    ensures t.phase.Unborn? ==> !Lost(trace, i, id, Canceled) && !Lost(trace, i, id, Broken)
  {
  }

  lemma {:induction false} LossSays(trace: seq<Event>, i: nat, id: Id)
    requires Clean(trace) && i <= |trace|
    ensures LossAgrees(TrackOf(trace[..i], id), trace, i, id)
    decreases i
  {
    hide TrackOf, Allowed, Effect, Sane;
    assert trace[..0] == [];
    TrackNil(id);
    if i > 0 {
      hide LossAgrees;
      LossSays(trace, i - 1, id);
      SaneAt(trace, i - 1, id);
      At(trace, i - 1, id);
      LossNext(TrackOf(trace[..i - 1], id), TrackOf(trace[..i], id), trace, i - 1, id);
    }
  }

  lemma StashStep(t: Track, e: Event)
    requires Sane(t) && Allowed(t, e) && !t.phase.Bad?
    ensures var t' := Effect(t, e);
            && t'.marked == (t.marked || (e.Stash? && !(e.live && e.issued)))
            && t'.stash == (if e.Stash? then Some(e.handle)
                            else if e.Acked? && e.via.Chokepoint? then None else t.stash)
            && (e.Acked? && e.via.Chokepoint? ==> Rank(t.phase) >= 2)
            && (e.Stash? ==> t.exec) && (!e.Received? ==> t'.exec == t.exec)
            && Rank(t.phase) <= Rank(t'.phase) && (e.Received? ==> t == NEWBORN && t'.stash.None?)
  {
    hide Verdict, HeldSoFar, StallOf;
    match e
    case Acked(_, _, _, via) => match via { case NotFound => case Duplicate(_) => case Chokepoint(_) => }
    case _ =>
  }

  /** A cancel was stashed on `id`. */
  ghost predicate StashedBefore(trace: seq<Event>, i: nat, id: Id)
    requires i <= |trace|
  {
    exists h, live, issued :: Stash(id, h, live, issued) in trace[..i]
  }

  ghost predicate StashAgrees(t: Track, trace: seq<Event>, i: nat, id: Id)
    requires i <= |trace|
  {
    && (t.marked <==> Marked(trace, i, id))
    && (t.stash.Some? ==> t.exec && exists live, issued :: Stash(id, t.stash.value, live, issued) in trace[..i])
    && (Rank(t.phase) < 2 && t.stash.None? ==> !StashedBefore(trace, i, id))
  }

  lemma StashNext(t: Track, t': Track, trace: seq<Event>, i: nat, id: Id)
    requires i < |trace| && StashAgrees(t, trace, i, id) && Sane(t) && !t.phase.Bad?
    requires if About(trace[i], id) then Allowed(t, trace[i]) && t' == Effect(t, trace[i]) else t' == t
    ensures StashAgrees(t', trace, i + 1, id)
  {
    hide Allowed, Effect, Sane;
    var e := trace[i];
    if About(e, id) { StashStep(t, e); }
    LastEvent(trace, i);
    if t.stash.Some? {
      var live, issued :| Stash(id, t.stash.value, live, issued) in trace[..i];
      assert Stash(id, t.stash.value, live, issued) in trace[..i + 1];
    }
    if e.Stash? && e.id == id { assert Stash(id, e.handle, e.live, e.issued) in trace[..i + 1]; }
    assert Marked(trace, i + 1, id) <==>
           Marked(trace, i, id) || (e.Stash? && e.id == id && !(e.live && e.issued));
    assert StashedBefore(trace, i + 1, id) ==> StashedBefore(trace, i, id) || (e.Stash? && e.id == id);
  }

  lemma {:induction false} StashSays(trace: seq<Event>, i: nat, id: Id)
    requires Clean(trace) && i <= |trace|
    ensures StashAgrees(TrackOf(trace[..i], id), trace, i, id)
    decreases i
  {
    hide TrackOf, Allowed, Effect, Sane;
    assert trace[..0] == [];
    TrackNil(id);
    if i > 0 {
      hide StashAgrees;
      StashSays(trace, i - 1, id);
      SaneAt(trace, i - 1, id);
      At(trace, i - 1, id);
      StashNext(TrackOf(trace[..i - 1], id), TrackOf(trace[..i], id), trace, i - 1, id);
    }
  }

  lemma StashMeansExec(trace: seq<Event>, i: nat, id: Id)
    requires Clean(trace) && i <= |trace| && TrackOf(trace[..i], id).stash.Some?
    ensures TrackOf(trace[..i], id).exec
  {
    hide TrackOf;
    StashSays(trace, i, id);
  }

  lemma ReceivedSays(trace: seq<Event>, k: nat, i: nat, id: Id)
    requires Clean(trace) && k < |trace| && trace[k].Received? && trace[k].id == id
    requires i <= |trace| && !TrackOf(trace[..i], id).phase.Unborn?
    ensures k < i
    ensures var t := TrackOf(trace[..i], id);
            t.exec == trace[k].exec && t.key == trace[k].key && t.ask == trace[k].ask
  {
    hide TrackOf;
    At(trace, k, id);
    if i <= k { RankGrows(trace, i, k, id); }
    BornFixed(trace, k + 1, i, id);
  }

  // ---- input before run, run before delivery ----

  /** The PULL of `id` was submitted and then landed, both before `i`. */
  ghost predicate PulledBefore(trace: seq<Event>, i: nat, id: Id)
    requires i <= |trace|
  {
    exists k, m :: 0 <= k < m < i && trace[k] == Submit(id, Pull, []) && trace[m] == Done(id, Pull, Landed)
  }

  /** A PUSH of exactly `bytes` was submitted and landed before `i`. */
  ghost predicate PushedBefore(trace: seq<Event>, i: nat, id: Id, bytes: Bytes)
    requires i <= |trace|
  {
    exists k, m :: 0 <= k < m < i && trace[k] == Submit(id, Push, bytes) && trace[m] == Done(id, Push, Landed)
  }

  ghost predicate TransfersAgree(t: Track, trace: seq<Event>, i: nat, id: Id)
    requires i <= |trace|
  {
    && (t.phase.Moving? ==> Submit(id, t.phase.kind, t.pushing) in trace[..i])
    && (t.pulled ==> PulledBefore(trace, i, id))
    && (t.landed ==> t.ran.Some? && PushedBefore(trace, i, id, t.ran.value.buf))
  }

  lemma TransferStep(t: Track, e: Event, id: Id)
    requires Sane(t) && Allowed(t, e) && About(e, id)
    ensures var t' := Effect(t, e);
            && (t'.phase.Moving? ==> (t.phase == t'.phase && t.pushing == t'.pushing)
                                     || e == Submit(id, t'.phase.kind, t'.pushing))
            && (t'.pulled ==> t.pulled || (e == Done(id, Pull, Landed) && t.phase == Moving(Pull) && t.pushing == []))
            && (t'.landed ==> t'.ran == t.ran && (t.landed || (e == Done(id, Push, Landed) && t.phase == Moving(Push)
                                                               && t.ran.Some? && t.pushing == t.ran.value.buf)))
  {
    hide Verdict, HeldSoFar, StallOf;
  }

  lemma TransferNext(t: Track, t': Track, trace: seq<Event>, i: nat, id: Id)
    requires i < |trace| && TransfersAgree(t, trace, i, id) && Sane(t)
    requires if About(trace[i], id) then Allowed(t, trace[i]) && t' == Effect(t, trace[i]) else t' == t
    ensures TransfersAgree(t', trace, i + 1, id)
  {
    hide Allowed, Effect, Sane;
    var e := trace[i];
    LastEvent(trace, i);
    if About(e, id) {
      TransferStep(t, e, id);
      if e.Done? && t.phase.Moving? {
        var k :| 0 <= k < i && trace[k] == Submit(id, t.phase.kind, t.pushing);
        assert trace[k] == Submit(id, t.phase.kind, t.pushing) && trace[i] == e;
      }
    }
  }

  lemma {:induction false} TransferWitness(trace: seq<Event>, i: nat, id: Id)
    requires Clean(trace) && i <= |trace|
    ensures TransfersAgree(TrackOf(trace[..i], id), trace, i, id)
    decreases i
  {
    hide TrackOf, Allowed, Effect, Sane;
    assert trace[..0] == [];
    TrackNil(id);
    if i > 0 {
      hide TransfersAgree;
      TransferWitness(trace, i - 1, id);
      SaneAt(trace, i - 1, id);
      At(trace, i - 1, id);
      TransferNext(TrackOf(trace[..i - 1], id), TrackOf(trace[..i], id), trace, i - 1, id);
    }
  }

  /**
   * The backend runs at most once, and only with its input in place: an input too large to ride in the
   * request was PULLed, and landed, before. No other input is ever PULLed.
   */
  lemma InputBeforeRun(cfg: Config, inputs: seq<Input>, k: nat, i: nat)
    requires var tr := Run(cfg, inputs).trace; k < |tr| && i < |tr| && tr[k].Received?
    ensures var tr := Run(cfg, inputs).trace; var id, ask := tr[k].id, tr[k].ask;
            && (tr[i].Ran? && tr[i].id == id ==>
                  && ask.cfg.hasExecutor && (LargeInput(ask) ==> PulledBefore(tr, i, id))
                  && (forall j | i < j < |tr| :: !(tr[j].Ran? && tr[j].id == id)))
            && (tr[i].Submit? && tr[i].id == id && tr[i].kind.Pull? ==>
                  LargeInput(ask) && forall res :: Ran(id, res) !in tr[..i])
  {
    hide TrackOf, Run;
    var tr := Run(cfg, inputs).trace;
    var id := tr[k].id;
    RunClean(cfg, inputs);
    if (tr[i].Ran? || tr[i].Submit?) && tr[i].id == id {
      At(tr, i, id);
      ReceivedSays(tr, k, i, id);
      TransferWitness(tr, i, id);
      forall res ensures TrackOf(tr[..i], id).ran == Some(res) <==> Ran(id, res) in tr[..i] {
        TrackSays(tr, i, id, res);
      }
      if tr[i].Ran? {
        forall j | i < j < |tr| ensures !(tr[j].Ran? && tr[j].id == id) {
          assert tr[i] in tr[..j];
          TrackSays(tr, j, id, tr[i].res);
          At(tr, j, id);
        }
      }
    }
  }

  /**
   * What is PUSHed is the whole result of the run before it, one too large to ride in the response, into
   * a sink the request offered, and no cancel has forbidden it.
   */
  lemma PushIsResult(cfg: Config, inputs: seq<Input>, k: nat, i: nat)
    requires var tr := Run(cfg, inputs).trace;
             k < |tr| && i < |tr| && tr[k].Received? && tr[i].Submit? && tr[i].kind.Push? && tr[i].id == tr[k].id
    ensures var tr := Run(cfg, inputs).trace; var id := tr[k].id;
            && tr[k].ask.sink && !Marked(tr, i, id)
            && exists res :: Ran(id, res) in tr[..i] && tr[i].bytes == res.buf && |res.buf| > INLINE_MAX
  {
    hide TrackOf, Run;
    var tr := Run(cfg, inputs).trace;
    var id := tr[k].id;
    RunClean(cfg, inputs);
    At(tr, i, id);
    ReceivedSays(tr, k, i, id);
    StashSays(tr, i, id);
    TrackSays(tr, i, id, TrackOf(tr[..i], id).ran.value);
  }

  // ---- delivery ----

  /** Nothing was refused the request and no transfer of it was lost. */
  ghost predicate Undisturbed(trace: seq<Event>, i: nat, id: Id)
    requires i <= |trace|
  {
    (forall what :: !RefusedFor(trace, i, id, what)) && (forall o: Outcome :: Lost(trace, i, id, o) ==> o.Landed?)
  }

  /**
   * What decides the answer to a request: the missing executor, the resource refused to it or the
   * transfer it lost; else the result of its run, whole, if it fits or was PUSHed; else that there is no
   * sink for it, or the cancel that came before its transfer.
   */
  ghost predicate Answers(trace: seq<Event>, i: nat, id: Id, exec: bool, ask: Ask, out: Out)
    requires i <= |trace|
  {
    && (!ask.cfg.hasExecutor ==> out == FailOut(NOT_SUPPORTED))
    && (forall what | RefusedFor(trace, i, id, what) :: out == FailOut(if what.Memory? then NOMEM else FAILED))
    && (forall o: Outcome | !o.Landed? && Lost(trace, i, id, o) ::
          out == FailOut(if o.Canceled? && exec then ABORTED else FAILED))
    && (ask.cfg.hasExecutor && Undisturbed(trace, i, id) ==>
          && (forall res | Ran(id, res) in trace[..i] ::
                if |res.buf| <= INLINE_MAX then out == Out(res.status, res.resultLen, res.buf)
                else if PushedBefore(trace, i, id, res.buf) then out == Out(res.status, res.resultLen, [])
                else if !ask.sink then out == FailOut(NOT_SUPPORTED)
                else out == FailOut(ABORTED) && Marked(trace, i, id))
          && ((forall res :: Ran(id, res) !in trace[..i]) ==>
                out == FailOut(ABORTED) && Marked(trace, i, id) && LargeInput(ask)))
  }

  lemma VerdictAnswers(trace: seq<Event>, i: nat, id: Id, out: Out)
    requires Clean(trace) && i <= |trace| && Verdict(TrackOf(trace[..i], id)) == Some(out)
    ensures var t := TrackOf(trace[..i], id); Answers(trace, i, id, t.exec, t.ask, out)
  {
    hide TrackOf;
    var t := TrackOf(trace[..i], id);
    LossSays(trace, i, id);
    StashSays(trace, i, id);
    SaneAt(trace, i, id);
    TransferWitness(trace, i, id);
    forall res ensures t.ran == Some(res) <==> Ran(id, res) in trace[..i] { TrackSays(trace, i, id, res); }
    forall res | Ran(id, res) in trace[..i] ensures t.landed <==> PushedBefore(trace, i, id, res.buf) {
      TrackSays(trace, i, id, res);
    }
    hide RefusedFor, Lost, PushedBefore, Marked;
    if t.ask.cfg.hasExecutor && Undisturbed(trace, i, id) { assert t.failure.None?; }
  }

  /** Every response is exactly the one the events before it call for. */
  lemma AnswerExact(cfg: Config, inputs: seq<Input>, k: nat, i: nat)
    requires var tr := Run(cfg, inputs).trace;
             k < |tr| && i < |tr| && tr[k].Received? && tr[i].Respond? && tr[i].id == tr[k].id
    ensures var tr := Run(cfg, inputs).trace; k < i && Answers(tr, i, tr[k].id, tr[k].exec, tr[k].ask, tr[i].out)
  {
    hide TrackOf, Run, Answers;
    var tr := Run(cfg, inputs).trace;
    var id := tr[k].id;
    RunClean(cfg, inputs);
    At(tr, i, id);
    ReceivedSays(tr, k, i, id);
    VerdictAnswers(tr, i, id, tr[i].out);
  }

  /**
   * A result that fits the response is always answered with its own status, length and bytes. A larger
   * one is answered with its own status and length exactly when a PUSH of all its bytes landed before
   * the response. Everything else is answered with a bare failure of the service.
   */
  lemma DeliveryPreservesResult(cfg: Config, inputs: seq<Input>, i: nat, res: ExecResult)
    requires var tr := Run(cfg, inputs).trace; i < |tr| && tr[i].Respond?
    ensures var tr := Run(cfg, inputs).trace; var id, out := tr[i].id, tr[i].out;
            && (Ran(id, res) in tr[..i] && |res.buf| <= INLINE_MAX ==> out == Out(res.status, res.resultLen, res.buf))
            && (Ran(id, res) in tr[..i] && |res.buf| > INLINE_MAX ==>
                  if PushedBefore(tr, i, id, res.buf) then out == Out(res.status, res.resultLen, [])
                  else ServiceFailure(out))
            && ((forall r :: Ran(id, r) !in tr[..i]) ==> ServiceFailure(out))
  {
    hide TrackOf, Run;
    var tr := Run(cfg, inputs).trace;
    var id := tr[i].id;
    RunClean(cfg, inputs);
    At(tr, i, id);
    TransferWitness(tr, i, id);
    SaneAt(tr, i, id);
    var t := TrackOf(tr[..i], id);
    forall r ensures t.ran == Some(r) <==> Ran(id, r) in tr[..i] { TrackSays(tr, i, id, r); }
    if Ran(id, res) in tr[..i] { TrackSays(tr, i, id, res); }
  }

  lemma StalledStep(t: Track, e: Event)
    requires Allowed(t, e) && t.marked && (NeedsPull(t) || NeedsPush(t)) && !t.phase.Moving? && !t.phase.Unborn?
    ensures var t' := Effect(t, e);
            t'.marked && (NeedsPull(t') || NeedsPush(t')) && !t'.phase.Moving? && !t'.phase.Unborn?
  {
    hide Verdict, HeldSoFar, StallOf;
  }

  /** A marked request with a transfer to make stays so until it is answered. */
  lemma {:induction false} StalledStays(trace: seq<Event>, k: nat, i: nat, id: Id)
    requires Clean(trace) && k <= i <= |trace|
    requires var t := TrackOf(trace[..k], id); t.marked && Stalled(t)
    ensures var t := TrackOf(trace[..i], id);
            t.marked && (NeedsPull(t) || NeedsPush(t)) && !t.phase.Moving? && !t.phase.Unborn?
    decreases i
  {
    hide TrackOf, Allowed, Effect;
    if k < i {
      StalledStays(trace, k, i - 1, id);
      At(trace, i - 1, id);
      if About(trace[i - 1], id) { StalledStep(TrackOf(trace[..i - 1], id), trace[i - 1]); }
    }
  }

  /** A first cancel that finds no transfer live always ends its Exec ABORTED, with no body. */
  lemma QuietCancelAborts(cfg: Config, inputs: seq<Input>, k: nat, i: nat)
    requires var tr := Run(cfg, inputs).trace;
             k < i < |tr| && tr[k].Stash? && !tr[k].live && tr[i].Respond? && tr[i].id == tr[k].id
    ensures Run(cfg, inputs).trace[i].out == FailOut(ABORTED)
  {
    hide TrackOf, Run;
    var tr := Run(cfg, inputs).trace;
    var id := tr[k].id;
    RunClean(cfg, inputs);
    At(tr, k, id);
    StalledStays(tr, k + 1, i, id);
    At(tr, i, id);
  }
}
