/**
 * What a trace may say about one request, as an automaton over its events, and the state
 * invariant that keeps every request inside that automaton.
 *
 * `TrackOf` is computed from the trace alone. A request whose events come in a forbidden
 * order (a transfer while another is live, a response before its PUSH landed, anything after
 * quiescence except the ack and the free, ...) falls into `Bad` and stays there.
 */
module ServiceInvariant {
  import opened Common
  import opened ServiceState

  datatype Phase = Unborn | Idle | Moving(kind: Kind) | Deregistered | Responded | Quiesced | Freed | Bad

  datatype Track = Track(
    phase: Phase,
    exec: bool,
    key: Key,
    ask: Ask,
    stash: Option<Handle>,
    marked: bool,
    pullHeld: nat,
    pulled: bool,
    ran: Option<ExecResult>,
    pushHeld: nat,
    pushing: Bytes,
    landed: bool,
    canceled: bool,
    failure: Option<Status>,
    answer: Option<Out>)

  const NEWBORN := Track(Unborn, false, Key(0, 0), Ask(false, 0, false, Config(false, 0, 0)), None, false,
                         0, false, None, 0, [], false, false, None, None)

  /** The track of a request that has just arrived. */
  function Arrived(exec: bool, key: Key, ask: Ask): Track {
    NEWBORN.(phase := Idle, exec := exec, key := key, ask := ask)
  }

  /** Statuses the service itself synthesises, always with an empty body. */
  predicate ServiceFailure(out: Out) {
    out.status in {ABORTED, FAILED, NOMEM, NOT_SUPPORTED} && out == FailOut(out.status)
  }

  /** The input did not ride in the request. */
  predicate LargeInput(ask: Ask) {
    ask.bulk && ask.len > INLINE_MAX
  }

  /** Nothing has gone wrong and the executor is there. */
  predicate Well(t: Track) {
    t.ask.cfg.hasExecutor && t.failure.None?
  }

  predicate NeedsPull(t: Track) {
    Well(t) && LargeInput(t.ask) && !t.pulled && t.ran.None?
  }

  predicate NeedsRun(t: Track) {
    Well(t) && (LargeInput(t.ask) ==> t.pulled) && t.ran.None?
  }

  predicate NeedsPush(t: Track) {
    Well(t) && t.ran.Some? && |t.ran.value.buf| > INLINE_MAX && t.ask.sink && !t.landed
  }

  predicate Needs(t: Track, kind: Kind) {
    if kind.Pull? then NeedsPull(t) else NeedsPush(t)
  }

  /** How many ticks a transfer is held back: only an Exec is. */
  function StallOf(t: Track, kind: Kind): nat {
    if !t.exec then 0 else if kind.Pull? then t.ask.cfg.pullStall else t.ask.cfg.pushStall
  }

  function HeldSoFar(t: Track, kind: Kind): nat {
    if kind.Pull? then t.pullHeld else t.pushHeld
  }

  /** The transfer is the next thing to do. */
  predicate Due(t: Track, kind: Kind) {
    t.phase.Idle? && !t.marked && Needs(t, kind) && HeldSoFar(t, kind) == StallOf(t, kind)
  }

  /** Idle with a transfer to make. */
  predicate Stalled(t: Track) {
    t.phase.Idle? && (NeedsPull(t) || NeedsPush(t))
  }

  predicate SubmitOk(t: Track, kind: Kind, bytes: Bytes) {
    Due(t, kind) && bytes == if kind.Pull? then [] else t.ran.value.buf
  }

  /**
   * The answer owed to the request, or none while there is something left to do: the first failure, the
   * backend's own answer once it can be delivered, or the refusal to deliver it.
   */
  function Verdict(t: Track): Option<Out> {
    if !t.ask.cfg.hasExecutor then Some(FailOut(NOT_SUPPORTED))
    else if t.failure.Some? then Some(FailOut(t.failure.value))
    else if t.ran.None? then if t.marked && NeedsPull(t) then Some(FailOut(ABORTED)) else None
    else
      var res := t.ran.value;
      if |res.buf| <= INLINE_MAX then Some(Out(res.status, res.resultLen, res.buf))
      else if t.landed then Some(Out(res.status, res.resultLen, []))
      else if !t.ask.sink then Some(FailOut(NOT_SUPPORTED))
      else if t.marked then Some(FailOut(ABORTED))
      else None
  }

  function RefusalStatus(what: Resource): Status {
    if what.Memory? then NOMEM else FAILED
  }

  function LossStatus(exec: bool, outcome: Outcome): Status {
    if outcome.Canceled? && exec then ABORTED else FAILED
  }

  /** A transfer that was live completes. */
  function Complete(t: Track, kind: Kind, outcome: Outcome): Track {
    if !outcome.Landed? then
      t.(failure := Some(LossStatus(t.exec, outcome)), canceled := outcome.Canceled? && t.exec)
    else if kind.Pull? then t.(pulled := true)
    else t.(landed := true)
  }

  /** The events a request sees: its own, and any ack for a key nobody holds. */
  predicate About(e: Event, id: Id) {
    if !e.Acked? then e.id == id else e.via.NotFound? || e.via.id == id
  }

  /** The phase of a request in which an event can come. */
  predicate InPhase(p: Phase, exec: bool, e: Event) {
    match e
    case Received(_, _, _, _) => p.Unborn?
    case Done(_, kind, _) => p == Moving(kind)
    case Stash(_, _, live, _) => if live then p.Moving? else p.Idle?
    case Respond(_, _) => p == if exec then Deregistered else Idle
    case Quiesce(_) => p.Responded?
    case Acked(_, _, _, via) => via.NotFound? || if via.Duplicate? then p.Idle? || p.Moving? else p.Quiesced?
    case Free(_) => p.Quiesced?
    case _ => p.Idle?
  }

  /** What else it takes. */
  predicate Guard(t: Track, e: Event) {
    match e
    case Ran(_, _) => NeedsRun(t)
    case Held(_, kind) => Needs(t, kind) && HeldSoFar(t, kind) < StallOf(t, kind) && (kind.Pull? ==> !t.marked)
    case Submit(_, kind, bytes) => SubmitOk(t, kind, bytes)
    case Refused(_, kind, _) => Due(t, kind)
    case Stash(_, _, live, _) => t.exec && t.stash.None? && (live || Stalled(t))
    case Deregister(_) => t.exec
    case Respond(_, out) => Verdict(t) == Some(out)
    case Acked(h, key, ack, NotFound) => ack.ALREADY_DONE? && !(t.exec && t.key == key && !t.phase.Freed?)
    case Acked(h, key, ack, Duplicate(_)) => ack.ALREADY_DONE? && t.key == key && t.stash.Some? && t.stash != Some(h)
    case Acked(h, key, ack, Chokepoint(_)) =>
      t.key == key && t.stash == Some(h) && ack == if t.canceled then PUSH_CANCELED else ACK_ABORTED
    case Free(_) => t.stash.None?
    case _ => true
  }

  /** What may happen to a request that is so far. */
  predicate Allowed(t: Track, e: Event) {
    InPhase(t.phase, t.exec, e) && Guard(t, e)
  }

  function PhaseAfter(p: Phase, e: Event): Phase {
    match e
    case Received(_, _, _, _) => Idle
    case Submit(_, kind, _) => Moving(kind)
    case Done(_, _, _) => Idle
    case Deregister(_) => Deregistered
    case Respond(_, _) => Responded
    case Quiesce(_) => Quiesced
    case Free(_) => Freed
    case _ => p
  }

  /** What is known of the request afterwards, its phase aside. */
  function Facts(t: Track, e: Event): Track {
    match e
    case Received(_, exec, key, ask) => Arrived(exec, key, ask)
    case Ran(_, res) => t.(ran := Some(res))
    case Held(_, kind) => if kind.Pull? then t.(pullHeld := t.pullHeld + 1) else t.(pushHeld := t.pushHeld + 1)
    case Submit(_, _, bytes) => t.(pushing := bytes)
    case Refused(_, _, what) => t.(failure := Some(RefusalStatus(what)))
    case Done(_, kind, outcome) => Complete(t, kind, outcome)
    case Stash(_, h, live, issued) => t.(stash := Some(h), marked := t.marked || !live || !issued)
    case Respond(_, out) => t.(answer := Some(out))
    case Acked(_, _, _, via) => if via.Chokepoint? then t.(stash := None) else t
    case _ => t
  }

  function Effect(t: Track, e: Event): Track {
    Facts(t, e).(phase := PhaseAfter(t.phase, e))
  }

  function Advance(t: Track, id: Id, e: Event): Track {
    if !About(e, id) then t else if Allowed(t, e) then Effect(t, e) else t.(phase := Bad)
  }

  function TrackOf(trace: seq<Event>, id: Id): Track {
    if trace == [] then NEWBORN
    else Advance(TrackOf(trace[..|trace| - 1], id), id, trace[|trace| - 1])
  }

  lemma TrackNil(id: Id)
    ensures TrackOf([], id) == NEWBORN
  {
  }

  function AckCount(trace: seq<Event>, h: Handle): nat {
    if trace == [] then 0
    else
      var e := trace[|trace| - 1];
      AckCount(trace[..|trace| - 1], h) + if e.Acked? && e.handle == h then 1 else 0
  }

  lemma TrackSnoc(trace: seq<Event>, e: Event)
    ensures forall id :: TrackOf(trace + [e], id) == Advance(TrackOf(trace, id), id, e)
    ensures forall h :: AckCount(trace + [e], h) == AckCount(trace, h) + if e.Acked? && e.handle == h then 1 else 0
  {
    assert (trace + [e])[..|trace + [e]| - 1] == trace;
  }

  // ---- the state invariant ----

  /** The fields of a request agree with each other and with what the trace says of it. */
  ghost predicate Consistent(s: State, id: Id)
    requires id in s.reqs
  {
    var r := s.reqs[id];
    var t := TrackOf(s.trace, id);
    && t.exec == r.exec && t.key == r.key && t.ask == Ask(r.inputBulk, r.inputLen, r.sink, s.cfg)
    && t.stash == r.cancelHandle && t.marked == r.doNotPush
    && t.pushHeld + r.stallTicks == StallOf(t, Push) && t.pullHeld + r.pullStallTicks == StallOf(t, Pull)
    && r.registered == r.exec && (id in s.inflight <==> r.exec)
    && (r.inFlight ==> r.op in s.live && s.live[r.op].id == id)
    && t.phase == (if r.inFlight then Moving(s.live[r.op].kind) else Idle)
    && (r.inFlight ==> !r.pullPending && !r.pushPending)
    && !(r.pullPending && r.pushPending)
    && ((r.pullPending || t.phase == Moving(Pull)) ==> NeedsPull(t))
    && ((r.pushPending || t.phase == Moving(Push)) ==> NeedsPush(t) && t.ran == Some(r.res))
    && (Waiting(r) ==> !r.hadPushCanceled && !t.canceled)
    && (t.landed ==> t.ran.Some?)
    && (r.cancelHandle.None? ==> !r.doNotPush)
    && (!r.exec ==> r.cancelHandle.None? && !r.pullPending && !r.pushPending)
    && (r.pullPending ==> s.cfg.pullStall > 0)
    && (r.pushPending ==> s.cfg.pushStall > 0)
  }

  predicate Waiting(r: Req) {
    r.inFlight || r.pullPending || r.pushPending
  }

  /** Every request but those in `busy` waits for exactly one thing. */
  ghost predicate RequestsOk(s: State, busy: set<Id>) {
    && (forall id | id in s.reqs :: Consistent(s, id) && (id !in busy <==> Waiting(s.reqs[id])))
    && (forall id: Id | id < s.nextReq && id !in s.reqs :: TrackOf(s.trace, id).phase == Freed)
    && (forall id: Id | id >= s.nextReq :: TrackOf(s.trace, id) == NEWBORN)
  }

  /** Requests are numbered and registered in order of arrival. */
  ghost predicate Ordered(list: seq<Id>) {
    forall i, j | 0 <= i < j < |list| :: list[i] < list[j]
  }

  ghost predicate TablesOk(s: State) {
    && RegistryOk(s)
    && (forall id | id in s.reqs :: id < s.nextReq)
    && Ordered(s.inflight)
    && (forall op | op in s.live ::
          && op < s.nextOp && s.live[op].id in s.reqs
          && s.reqs[s.live[op].id].inFlight && s.reqs[s.live[op].id].op == op)
  }

  ghost predicate Stashed(s: State, h: Handle) {
    exists id :: id in s.reqs && s.reqs[id].cancelHandle == Some(h)
  }

  /** Of the requests under one key, only the oldest can have a cancel stashed on it. */
  ghost predicate OldestHolds(s: State) {
    forall x, y | x in s.reqs && y in s.reqs && x < y && s.reqs[x].exec && s.reqs[x].key == s.reqs[y].key ::
      s.reqs[y].cancelHandle.None?
  }

  /** Each cancel handle is acked once, or is stashed on exactly one request and not yet acked. */
  ghost predicate HandlesOk(s: State) {
    && (forall id | id in s.reqs && s.reqs[id].cancelHandle.Some? ::
          s.reqs[id].cancelHandle.value < s.nextHandle && AckCount(s.trace, s.reqs[id].cancelHandle.value) == 0)
    && (forall i, j | i in s.reqs && j in s.reqs && i != j && s.reqs[i].cancelHandle.Some? ::
          s.reqs[i].cancelHandle != s.reqs[j].cancelHandle)
    && (forall h: Handle | h < s.nextHandle ::
          AckCount(s.trace, h) == 1 || (AckCount(s.trace, h) == 0 && Stashed(s, h)))
    && (forall h: Handle | h >= s.nextHandle :: AckCount(s.trace, h) == 0)
    && OldestHolds(s)
  }

  /** `busy` holds the request a handler is working on; it is empty between steps. */
  ghost predicate Inv(s: State, busy: set<Id>) {
    TablesOk(s) && RequestsOk(s, busy) && HandlesOk(s)
  }

  lemma InitInv(cfg: Config)
    ensures Inv(Init(cfg), {})
  {
  }

  // ---- list facts ----

  lemma {:induction false} RemoveIn(list: seq<Id>, id: Id)
    requires Ordered(list)
    ensures forall x :: x in Remove(list, id) <==> x in list && x != id
  {
    if list != [] {
      assert list == [list[0]] + list[1..];
      assert forall x | x in list[1..] :: list[0] < x;
      RemoveIn(list[1..], id);
    }
  }

  /** Removal takes out exactly that entry and keeps the order. */
  lemma {:induction false} RemoveFacts(list: seq<Id>, id: Id)
    requires Ordered(list)
    ensures forall x :: x in Remove(list, id) <==> x in list && x != id
    ensures Ordered(Remove(list, id))
  {
    RemoveIn(list, id);
    if list != [] && list[0] != id {
      RemoveFacts(list[1..], id);
      var rest := Remove(list[1..], id);
      forall x | x in rest ensures list[0] < x { assert x in list[1..]; }
      forall i, j | 0 <= i < j < |[list[0]] + rest| ensures ([list[0]] + rest)[i] < ([list[0]] + rest)[j] {
        assert rest[j - 1] in rest;
      }
    }
  }

  lemma OrderedSnoc(list: seq<Id>, n: Id)
    requires Ordered(list) && forall x | x in list :: x < n
    ensures Ordered(list + [n])
  {
    forall i, j | 0 <= i < j < |list + [n]| ensures (list + [n])[i] < (list + [n])[j] {
      assert list[i] in list;
    }
  }

  // ---- framing: a step works on one request ----

  ghost predicate Same(s: State, s': State, j: Id) {
    && (j in s.reqs <==> j in s'.reqs)
    && (j in s.reqs ==> s.reqs[j] == s'.reqs[j])
    && (j in s.inflight <==> j in s'.inflight)
    && TrackOf(s.trace, j) == TrackOf(s'.trace, j)
  }

  ghost predicate Touches(s: State, s': State, id: Id) {
    && s'.cfg == s.cfg && s'.nextReq == s.nextReq
    && (forall j: Id | j != id :: Same(s, s', j))
    && (forall op | op in s.live && s.live[op].id != id :: op in s'.live && s'.live[op] == s.live[op])
  }

  lemma ConsistentElsewhere(s: State, s': State, id: Id, j: Id)
    requires Touches(s, s', id) && j != id && j in s.reqs && Consistent(s, j)
    ensures j in s'.reqs && Consistent(s', j)
  {
    assert Same(s, s', j);
  }

  lemma Reestablish(s: State, s': State, id: Id, busy: set<Id>, busy': set<Id>)
    requires RequestsOk(s, busy) && Touches(s, s', id) && id < s.nextReq
    requires busy <= {id} && busy' <= {id}
    requires id in s'.reqs ==> Consistent(s', id) && (id !in busy' <==> Waiting(s'.reqs[id]))
    requires id !in s'.reqs ==> TrackOf(s'.trace, id).phase == Freed
    ensures RequestsOk(s', busy')
  {
    forall j | j in s'.reqs ensures Consistent(s', j) && (j !in busy' <==> Waiting(s'.reqs[j])) {
      if j != id {
        assert Same(s, s', j);
        ConsistentElsewhere(s, s', id, j);
      }
    }
    forall j: Id | j < s'.nextReq && j !in s'.reqs ensures TrackOf(s'.trace, j).phase == Freed {
      if j != id { assert Same(s, s', j); }
    }
    forall j: Id | j >= s'.nextReq ensures TrackOf(s'.trace, j) == NEWBORN {
      assert Same(s, s', j);
    }
  }

  /** Requests that stay keep who they are and what is stashed on them. */
  ghost predicate KeepsHandles(s: State, s': State) {
    forall j | j in s.reqs && j in s'.reqs :: SameOwner(s.reqs[j], s'.reqs[j])
  }

  predicate SameOwner(r: Req, r': Req) {
    r'.cancelHandle == r.cancelHandle && r'.exec == r.exec && r'.key == r.key
  }

  lemma OldestStays(s: State, s': State)
    requires OldestHolds(s) && KeepsHandles(s, s') && s'.reqs.Keys <= s.reqs.Keys
    ensures OldestHolds(s')
  {
    forall x, y | x in s'.reqs && y in s'.reqs && x < y && s'.reqs[x].exec && s'.reqs[x].key == s'.reqs[y].key
      ensures s'.reqs[y].cancelHandle.None?
    {
      assert x in s.reqs && y in s.reqs;
    }
  }

  /** Handles stay accounted for when no ack is sent and no stash changes. */
  lemma HandlesKept(s: State, s': State)
    requires HandlesOk(s) && s'.nextHandle == s.nextHandle && s'.reqs.Keys == s.reqs.Keys
    requires KeepsHandles(s, s')
    requires forall h :: AckCount(s'.trace, h) == AckCount(s.trace, h)
    ensures HandlesOk(s')
  {
    OldestStays(s, s');
    hide OldestHolds;
    forall h: Handle | Stashed(s, h) ensures Stashed(s', h) {
      var k :| k in s.reqs && s.reqs[k].cancelHandle == Some(h);
      assert k in s'.reqs && s'.reqs[k].cancelHandle == Some(h);
    }
  }

  // ---- the primitive steps keep the invariant ----

  lemma SameKey(s: State, id: Id, r: Req, busy: set<Id>)
    requires RequestsOk(s, busy) && id in s.reqs && Consistent(Put(s, id, r), id)
    ensures r.exec == s.reqs[id].exec && r.key == s.reqs[id].key
  {
    assert Consistent(s, id);
  }

  /** Replacing fields of the busy request, trace and tables untouched. */
  lemma PutInv(s: State, id: Id, r: Req, busy: set<Id>, busy': set<Id>)
    requires Inv(s, busy) && id in s.reqs && busy <= {id} && busy' <= {id}
    requires r.inFlight == s.reqs[id].inFlight && r.op == s.reqs[id].op && r.cancelHandle == s.reqs[id].cancelHandle
    requires Consistent(Put(s, id, r), id) && (id !in busy' <==> Waiting(r))
    ensures Inv(Put(s, id, r), busy')
  {
    hide Consistent, RequestsOk, HandlesOk;
    var s' := Put(s, id, r);
    SameKey(s, id, r, busy);
    Reestablish(s, s', id, busy, busy');
    HandlesKept(s, s');
  }

  /** What the chokepoint writes, in order. */
  function FinishEvents(r: Req, id: Id): seq<Event> {
    (if r.registered then [Deregister(id)] else [])
    + [Respond(id, r.out), Quiesce(id)]
    + (if r.cancelHandle.Some? then [Acked(r.cancelHandle.value, r.key, CancelAck(r), Chokepoint(id))] else [])
    + [Free(id)]
  }

  function Replay(t: Track, id: Id, events: seq<Event>): Track
    decreases |events|
  {
    if events == [] then t else Replay(Advance(t, id, events[0]), id, events[1..])
  }

  lemma {:induction false} TrackReplay(trace: seq<Event>, events: seq<Event>, id: Id)
    ensures TrackOf(trace + events, id) == Replay(TrackOf(trace, id), id, events)
    decreases |events|
  {
    if events == [] {
      assert trace + events == trace;
    } else {
      TrackSnoc(trace, events[0]);
      TrackReplay(trace + [events[0]], events[1..], id);
      assert trace + [events[0]] + events[1..] == trace + events;
    }
  }

  lemma Quiesces(t: Track, id: Id)
    requires t.phase.Responded?
    ensures Advance(t, id, Quiesce(id)) == t.(phase := Quiesced)
  {
  }

  lemma Acks(t: Track, id: Id, r: Req, h: Handle)
    requires t.phase.Quiesced? && t.key == r.key && t.stash == Some(h) && t.canceled == r.hadPushCanceled
    ensures Advance(t, id, Acked(h, r.key, CancelAck(r), Chokepoint(id))) == t.(stash := None)
  {
  }

  lemma Frees(t: Track, id: Id)
    requires t.phase.Quiesced? && t.stash.None?
    ensures Advance(t, id, Free(id)) == t.(phase := Freed)
  {
  }

  lemma ReplayTail(t: Track, r: Req, id: Id)
    requires t.phase.Responded? && t.key == r.key && t.stash == r.cancelHandle && t.canceled == r.hadPushCanceled
    ensures var ack := if r.cancelHandle.Some?
                       then [Acked(r.cancelHandle.value, r.key, CancelAck(r), Chokepoint(id))] else [];
            Replay(t, id, [Quiesce(id)] + ack + [Free(id)]).phase == Freed
  {
    hide Advance, CancelAck;
    Quiesces(t, id);
    var t1 := t.(phase := Quiesced);
    if r.cancelHandle.Some? {
      var ack := Acked(r.cancelHandle.value, r.key, CancelAck(r), Chokepoint(id));
      var t2 := t1.(stash := None);
      Acks(t1, id, r, r.cancelHandle.value);
      Frees(t2, id);
      ReplayOne(t2, id, Free(id));
      assert [ack, Free(id)][1..] == [Free(id)];
      assert Replay(t1, id, [ack, Free(id)]) == Replay(t2, id, [Free(id)]);
      assert ([Quiesce(id)] + [ack] + [Free(id)])[1..] == [ack, Free(id)];
    } else {
      Frees(t1, id);
      ReplayOne(t1, id, Free(id));
      assert ([Quiesce(id)] + [] + [Free(id)])[1..] == [Free(id)];
    }
  }

  lemma ReplayOne(t: Track, id: Id, e: Event)
    ensures Replay(t, id, [e]) == Advance(t, id, e)
  {
    hide Advance;
    assert [e][1..] == [];
  }

  lemma ReplayOwn(t: Track, r: Req, id: Id)
    requires t.phase.Idle? && t.exec == r.exec == r.registered && t.key == r.key && Verdict(t) == Some(r.out)
    requires t.stash == r.cancelHandle && t.canceled == r.hadPushCanceled
    ensures Replay(t, id, FinishEvents(r, id)).phase == Freed
  {
    hide Verdict;
    var es := FinishEvents(r, id);
    var t1 := if r.registered then Advance(t, id, es[0]) else t;
    var es1 := if r.registered then es[1..] else es;
    VerdictIgnoresPhase(t, t1);
    var t2 := Advance(t1, id, es1[0]);
    ReplayTail(t2, r, id);
    var ack := if r.cancelHandle.Some?
               then [Acked(r.cancelHandle.value, r.key, CancelAck(r), Chokepoint(id))] else [];
    assert es1[1..] == [Quiesce(id)] + ack + [Free(id)];
  }

  lemma VerdictIgnoresPhase(t: Track, t': Track)
    requires t' == t.(phase := t'.phase)
    ensures Verdict(t') == Verdict(t)
  {
  }

  lemma {:induction false} ReplayOther(t: Track, events: seq<Event>, id: Id, j: Id)
    requires j != id
    requires forall e | e in events :: (e.Acked? ==> e.via == Chokepoint(id)) && (!e.Acked? ==> e.id == id)
    ensures Replay(t, j, events) == t
    decreases |events|
  {
    if events != [] {
      assert Advance(t, j, events[0]) == t;
      ReplayOther(t, events[1..], id, j);
    }
  }

  lemma FinishTrace(s: State, id: Id)
    requires id in s.reqs
    ensures Finish(s, id).trace == s.trace + FinishEvents(s.reqs[id], id)
  {
    var s1 := RegRemove(s, id);
    var s3 := Log(Log(s1, Respond(id, s1.reqs[id].out)), Quiesce(id));
    assert s3.trace == s1.trace + [Respond(id, s.reqs[id].out), Quiesce(id)];
  }

  lemma {:induction false} AckCountPlus(trace: seq<Event>, events: seq<Event>, h: Handle)
    ensures AckCount(trace + events, h) == AckCount(trace, h) + AckCount(events, h)
  {
    if events == [] {
      assert trace + events == trace;
    } else {
      var n := |events| - 1;
      assert (trace + events)[..|trace + events| - 1] == trace + events[..n];
      AckCountPlus(trace, events[..n], h);
    }
  }

  lemma FinishAcks(r: Req, id: Id, h: Handle)
    ensures AckCount(FinishEvents(r, id), h) == if r.cancelHandle == Some(h) then 1 else 0
  {
    var es := FinishEvents(r, id);
    var head := if r.registered then [Deregister(id)] else [];
    var mid := head + [Respond(id, r.out), Quiesce(id)];
    assert AckCount(head, h) == 0;
    AckCountPlus(head, [Respond(id, r.out), Quiesce(id)], h);
    AckCountPlus([Respond(id, r.out)], [Quiesce(id)], h);
    assert AckCount([Free(id)], h) == 0;
    if r.cancelHandle.Some? {
      var ack := Acked(r.cancelHandle.value, r.key, CancelAck(r), Chokepoint(id));
      AckCountPlus(mid, [ack], h);
      AckCountPlus(mid + [ack], [Free(id)], h);
      assert es == mid + [ack] + [Free(id)];
    } else {
      AckCountPlus(mid, [Free(id)], h);
      assert es == mid + [Free(id)];
    }
  }

  lemma FinishTrack(s: State, id: Id)
    requires id in s.reqs
    requires var t := TrackOf(s.trace, id); var r := s.reqs[id];
             t.phase.Idle? && t.exec == r.exec == r.registered && t.key == r.key && Verdict(t) == Some(r.out)
             && t.stash == r.cancelHandle && t.canceled == r.hadPushCanceled
    ensures var s' := Finish(s, id);
            && (forall j: Id | j != id :: TrackOf(s'.trace, j) == TrackOf(s.trace, j))
            && TrackOf(s'.trace, id).phase == Freed
            && (forall h: Handle :: AckCount(s'.trace, h) ==
                            AckCount(s.trace, h) + if s.reqs[id].cancelHandle == Some(h) then 1 else 0)
  {
    hide Verdict, Finish, TrackOf, Replay, AckCount;
    var r := s.reqs[id];
    var es := FinishEvents(r, id);
    FinishTrace(s, id);
    TrackReplay(s.trace, es, id);
    ReplayOwn(TrackOf(s.trace, id), r, id);
    forall j: Id | j != id ensures TrackOf(s.trace + es, j) == TrackOf(s.trace, j) {
      TrackReplay(s.trace, es, j);
      ReplayOther(TrackOf(s.trace, j), es, id, j);
    }
    forall h: Handle ensures AckCount(s.trace + es, h) ==
                     AckCount(s.trace, h) + if r.cancelHandle == Some(h) then 1 else 0 {
      AckCountPlus(s.trace, es, h);
      FinishAcks(r, id, h);
    }
  }

  lemma FinishShape(s: State, id: Id)
    requires id in s.reqs
    ensures var s' := Finish(s, id);
            && s'.reqs == s.reqs - {id} && s'.live == s.live && s'.cfg == s.cfg
            && s'.inflight == (if s.reqs[id].registered then Remove(s.inflight, id) else s.inflight)
            && s'.nextReq == s.nextReq && s'.nextOp == s.nextOp && s'.nextHandle == s.nextHandle
  {
  }

  lemma FinishHandles(s: State, id: Id, s': State)
    requires HandlesOk(s) && id in s.reqs
    requires s'.reqs == s.reqs - {id} && s'.nextHandle == s.nextHandle
    requires forall h: Handle :: AckCount(s'.trace, h) ==
                         AckCount(s.trace, h) + if s.reqs[id].cancelHandle == Some(h) then 1 else 0
    ensures HandlesOk(s')
  {
    OldestStays(s, s');
    hide OldestHolds;
    forall h: Handle | h < s'.nextHandle
      ensures AckCount(s'.trace, h) == 1 || (AckCount(s'.trace, h) == 0 && Stashed(s', h))
    {
      if AckCount(s.trace, h) == 0 && s.reqs[id].cancelHandle != Some(h) {
        var k :| k in s.reqs && s.reqs[k].cancelHandle == Some(h);
        assert k in s'.reqs && s'.reqs[k].cancelHandle == Some(h);
      }
    }
  }

  /** What is known of the request a handler is working on. */
  lemma BusyFacts(s: State, id: Id)
    requires Inv(s, {id}) && id in s.reqs
    ensures var r := s.reqs[id]; var t := TrackOf(s.trace, id);
            && Consistent(s, id) && !r.inFlight && !r.pullPending && !r.pushPending
            && (id in s.inflight <==> r.registered) && t.phase.Idle?
            && t.exec == r.exec == r.registered && t.key == r.key
            && t.ask == Ask(r.inputBulk, r.inputLen, r.sink, s.cfg)
            && t.stash == r.cancelHandle && t.marked == r.doNotPush && (r.cancelHandle.None? ==> !r.doNotPush)
            && t.pushHeld + r.stallTicks == StallOf(t, Push) && t.pullHeld + r.pullStallTicks == StallOf(t, Pull)
            && (r.cancelHandle.Some? ==> r.exec)
  {
  }

  lemma FinishInv(s: State, id: Id)
    requires Inv(s, {id}) && id in s.reqs
    requires Verdict(TrackOf(s.trace, id)) == Some(s.reqs[id].out)
    requires s.reqs[id].hadPushCanceled == TrackOf(s.trace, id).canceled
    ensures Inv(Finish(s, id), {})
  {
    hide Consistent, RequestsOk, HandlesOk, Finish, Verdict, TrackOf;
    BusyFacts(s, id);
    var s' := Finish(s, id);
    FinishTrack(s, id);
    FinishShape(s, id);
    RemoveFacts(s.inflight, id);
    assert Touches(s, s', id);
    Reestablish(s, s', id, {id}, {});
    FinishHandles(s, id, s');
  }

  /** Fields of the busy request that no invariant speaks about while it is being handled. */
  lemma PutBusy(s: State, id: Id, r: Req)
    requires Inv(s, {id}) && id in s.reqs
    requires r == s.reqs[id].(out := r.out, res := r.res, hadPushCanceled := r.hadPushCanceled)
    ensures Inv(Put(s, id, r), {id})
    ensures TrackOf(Put(s, id, r).trace, id) == TrackOf(s.trace, id)
  {
    hide Inv;
    assert Consistent(Put(s, id, r), id) && !Waiting(r) by { BusyFacts(s, id); }
    PutInv(s, id, r, {id}, {id});
  }

  lemma FailInv(s: State, id: Id, status: Status)
    requires Inv(s, {id}) && id in s.reqs
    requires Verdict(TrackOf(s.trace, id)) == Some(FailOut(status))
    requires s.reqs[id].hadPushCanceled == TrackOf(s.trace, id).canceled
    ensures Inv(Fail(s, id, status), {})
  {
    hide Inv, Finish, TrackOf, Verdict;
    var r := s.reqs[id].(out := FailOut(status));
    PutBusy(s, id, r);
    FinishInv(Put(s, id, r), id);
  }

  /** One more event of the busy request. */
  lemma LogBusy(s: State, id: Id, e: Event, busy: set<Id>)
    requires TablesOk(s) && HandlesOk(s) && RequestsOk(s, {id}) && id in s.reqs && busy <= {id}
    requires !e.Acked? && e.id == id
    requires Consistent(Log(s, e), id) && (id !in busy <==> Waiting(s.reqs[id]))
    ensures Inv(Log(s, e), busy)
    ensures TrackOf(Log(s, e).trace, id) == Advance(TrackOf(s.trace, id), id, e)
  {
    TrackSnoc(s.trace, e);
    hide Consistent, RequestsOk, HandlesOk, TrackOf, AckCount;
    Reestablish(s, Log(s, e), id, {id}, busy);
    HandlesKept(s, Log(s, e));
  }

  lemma RanInv(s: State, id: Id, res: ExecResult)
    requires Inv(s, {id}) && id in s.reqs && NeedsRun(TrackOf(s.trace, id))
    ensures var s1 := Log(Put(s, id, s.reqs[id].(res := res)), Ran(id, res));
            && Inv(s1, {id})
            && TrackOf(s1.trace, id) == TrackOf(s.trace, id).(ran := Some(res))
  {
    hide RequestsOk, HandlesOk, TrackOf;
    var s0 := Put(s, id, s.reqs[id].(res := res));
    PutBusy(s, id, s.reqs[id].(res := res));
    BusyFacts(s0, id);
    assert Consistent(Log(s0, Ran(id, res)), id) by { TrackSnoc(s0.trace, Ran(id, res)); }
    LogBusy(s0, id, Ran(id, res), {id});
  }

  /** One event of request `id`, with its fields and its transfer updated along. */
  lemma TouchRequests(s: State, s': State, id: Id, e: Event, r: Req, busy: set<Id>, busy': set<Id>)
    requires RequestsOk(s, busy) && id in s.reqs && id < s.nextReq && busy <= {id} && busy' <= {id}
    requires !e.Acked? && e.id == id && s'.trace == s.trace + [e]
    requires s'.cfg == s.cfg && s'.nextReq == s.nextReq && s'.inflight == s.inflight && s'.reqs == s.reqs[id := r]
    requires forall op | op in s.live && s.live[op].id != id :: op in s'.live && s'.live[op] == s.live[op]
    requires Consistent(s', id) && (id !in busy' <==> Waiting(r))
    ensures RequestsOk(s', busy')
    ensures forall h: Handle :: AckCount(s'.trace, h) == AckCount(s.trace, h)
  {
    hide RequestsOk, Consistent, TrackOf, AckCount;
    TrackSnoc(s.trace, e);
    Reestablish(s, s', id, busy, busy');
  }
}
