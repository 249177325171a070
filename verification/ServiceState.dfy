/**
 * The executor service as a single-threaded event machine.
 *
 * Requests, the in-flight registry and the live bulk transfers are explicit state; every
 * externally visible action is appended to a trace. Each RPC handler, bulk callback and
 * progress tick is one function from state to state. Mercury, the allocator and the backend
 * run are foreign, so their answers arrive as arguments (`Env`, `Outcome`) and are arbitrary.
 */
module ServiceState {
  import opened Common

  type Id = nat      // identity of a request allocation
  type OpId = nat    // identity of a bulk operation
  type Handle = nat  // identity of a cancel RPC handle

  datatype Key = Key(origin: nat, callId: nat)

  datatype Kind = Pull | Push

  datatype Outcome = Landed | Canceled | Broken

  datatype Ack = ALREADY_DONE | ACK_ABORTED | PUSH_CANCELED

  /** Where a cancel ack came from; a duplicate names the request the earlier cancel is pending on. */
  datatype Via = Chokepoint(id: Id) | NotFound | Duplicate(id: Id)

  /** What the allocator or Mercury can refuse a transfer: a buffer, a bulk handle, the submission. */
  datatype Resource = Memory | View | Wire

  /** What a request asks for, and the configuration it finds. */
  datatype Ask = Ask(bulk: bool, len: nat, sink: bool, cfg: Config)

  /** The response envelope. */
  datatype Out = Out(status: Status, resultLen: nat, inline: Bytes)

  /** `exec` tells an Exec request from a base KV verb; only the former is registered. */
  datatype Req = Req(
    exec: bool,
    key: Key,
    inputBulk: bool,
    inputLen: nat,
    sink: bool,
    registered: bool,
    inFlight: bool,
    op: OpId,
    doNotPush: bool,
    hadPushCanceled: bool,
    cancelHandle: Option<Handle>,
    stallTicks: nat,
    pushPending: bool,
    pullStallTicks: nat,
    pullPending: bool,
    res: ExecResult,
    out: Out)

  datatype Xfer = Xfer(id: Id, kind: Kind)

  datatype Event =
    | Received(id: Id, exec: bool, key: Key, ask: Ask)
    | Ran(id: Id, res: ExecResult)
    | Held(id: Id, kind: Kind)
    | Submit(id: Id, kind: Kind, bytes: Bytes)
    | Refused(id: Id, kind: Kind, what: Resource)
    | Done(id: Id, kind: Kind, outcome: Outcome)
    | Stash(id: Id, handle: Handle, live: bool, issued: bool)
    | Deregister(id: Id)
    | Respond(id: Id, out: Out)
    | Quiesce(id: Id)
    | Acked(handle: Handle, key: Key, ack: Ack, via: Via)
    | Free(id: Id)

  datatype Config = Config(hasExecutor: bool, pushStall: nat, pullStall: nat)

  /** Answers of the allocator, of Mercury and of the backend for one step of one request. */
  datatype Env = Env(
    mallocOk: bool,
    createPullOk: bool,
    transferPullOk: bool,
    res: ExecResult,
    createPushOk: bool,
    transferPushOk: bool)

  datatype State = State(
    cfg: Config,
    reqs: map<Id, Req>,
    inflight: seq<Id>,
    live: map<OpId, Xfer>,
    nextReq: Id,
    nextOp: OpId,
    nextHandle: Handle,
    trace: seq<Event>)

  function Init(cfg: Config): State {
    State(cfg, map[], [], map[], 0, 0, 0, [])
  }

  // ---- small state updates ----

  function Log(s: State, e: Event): State {
    s.(trace := s.trace + [e])
  }

  function Put(s: State, id: Id, r: Req): State {
    s.(reqs := s.reqs[id := r])
  }

  function Remove(list: seq<Id>, id: Id): seq<Id> {
    if list == [] then [] else if list[0] == id then list[1..] else [list[0]] + Remove(list[1..], id)
  }

  // ---- the registry ----

  function RegRemove(s: State, id: Id): State
    requires id in s.reqs
  {
    if !s.reqs[id].registered then s
    else
      Log(Put(s, id, s.reqs[id].(registered := false)).(inflight := Remove(s.inflight, id)), Deregister(id))
  }

  /** `id` is in the list under `key`, and no entry before it is. */
  ghost predicate IsFirst(reqs: map<Id, Req>, list: seq<Id>, key: Key, id: Id)
    requires forall i | i in list :: i in reqs
  {
    exists k :: && 0 <= k < |list| && list[k] == id && reqs[list[k]].key == key
                && forall j | 0 <= j < k :: reqs[list[j]].key != key
  }

  lemma FirstOfRest(reqs: map<Id, Req>, list: seq<Id>, key: Key, id: Id)
    requires list != [] && (forall i | i in list :: i in reqs) && reqs[list[0]].key != key
    requires IsFirst(reqs, list[1..], key, id)
    ensures IsFirst(reqs, list, key, id)
  {
    var rest := list[1..];
    var k :| && 0 <= k < |rest| && rest[k] == id && reqs[rest[k]].key == key
             && forall j | 0 <= j < k :: reqs[rest[j]].key != key;
    assert list[k + 1] == id;
    forall j | 0 <= j < k + 1 ensures reqs[list[j]].key != key {
      if j > 0 { assert list[j] == rest[j - 1]; }
    }
  }

  /** First entry of `list` registered under `key`. */
  function Lookup(reqs: map<Id, Req>, list: seq<Id>, key: Key): (r: Option<Id>)
    requires forall id | id in list :: id in reqs
    ensures r.Some? ==> r.value in list && reqs[r.value].key == key && IsFirst(reqs, list, key, r.value)
    ensures r.None? <==> forall id | id in list :: reqs[id].key != key
  {
    if list == [] then None
    else if reqs[list[0]].key == key then Some(list[0])
    else
      var r := Lookup(reqs, list[1..], key);
      if r.Some? then FirstOfRest(reqs, list, key, r.value); r else r
  }

  // ---- the ack chokepoint ----

  function CancelAck(r: Req): Ack {
    if r.hadPushCanceled then PUSH_CANCELED else ACK_ABORTED
  }

  function AckPending(s: State, id: Id): State
    requires id in s.reqs
  {
    var r := s.reqs[id];
    if r.cancelHandle.None? then s
    else Log(s, Acked(r.cancelHandle.value, r.key, CancelAck(r), Chokepoint(id)))
  }

  /** Deregister, respond, release the bulk views, ack a pending cancel, free. */
  function Finish(s: State, id: Id): State
    requires id in s.reqs
  {
    var s1 := RegRemove(s, id);
    var s2 := Log(s1, Respond(id, s1.reqs[id].out));
    var s3 := Log(s2, Quiesce(id));
    var s4 := AckPending(s3, id);
    Log(s4.(reqs := s4.reqs - {id}), Free(id))
  }

  function FailOut(status: Status): Out {
    Out(status, 0, [])
  }

  function Fail(s: State, id: Id, status: Status): State
    requires id in s.reqs
  {
    Finish(Put(s, id, s.reqs[id].(out := FailOut(status))), id)
  }

  // ---- transfers ----

  function StartTransfer(s: State, id: Id, kind: Kind, bytes: Bytes): State
    requires id in s.reqs
  {
    var s1 := Put(s, id, s.reqs[id].(inFlight := true, op := s.nextOp));
    Log(s1.(live := s1.live[s.nextOp := Xfer(id, kind)], nextOp := s.nextOp + 1), Submit(id, kind, bytes))
  }

  function SubmitPush(s: State, id: Id, env: Env): State
    requires id in s.reqs
  {
    if s.reqs[id].doNotPush then Fail(s, id, ABORTED)
    else if !env.createPushOk then Fail(Log(s, Refused(id, Push, View)), id, FAILED)
    else if !env.transferPushOk then Fail(Log(s, Refused(id, Push, Wire)), id, FAILED)
    else StartTransfer(s, id, Push, s.reqs[id].res.buf)
  }

  /** Deliver a result inline, by PUSH, or decline. */
  function Deliver(s: State, id: Id, env: Env): State
    requires id in s.reqs
  {
    var r := s.reqs[id];
    if r.sink && |r.res.buf| > INLINE_MAX then
      if r.doNotPush then Fail(s, id, ABORTED)
      else if r.stallTicks > 0 then Put(s, id, r.(pushPending := true))
      else SubmitPush(s, id, env)
    else if |r.res.buf| > INLINE_MAX then
      Fail(s, id, NOT_SUPPORTED)
    else
      Finish(Put(s, id, r.(out := Out(r.res.status, r.res.resultLen, r.res.buf))), id)
  }

  /** Run the backend, then deliver. */
  function RunAndDeliver(s: State, id: Id, env: Env): State
    requires id in s.reqs
  {
    Deliver(Log(Put(s, id, s.reqs[id].(res := env.res)), Ran(id, env.res)), id, env)
  }

  function SubmitPull(s: State, id: Id, env: Env): State
    requires id in s.reqs
  {
    if s.reqs[id].doNotPush then Fail(s, id, ABORTED)
    else if !env.mallocOk then Fail(Log(s, Refused(id, Pull, Memory)), id, NOMEM)
    else if !env.createPullOk then Fail(Log(s, Refused(id, Pull, View)), id, FAILED)
    else if !env.transferPullOk then Fail(Log(s, Refused(id, Pull, Wire)), id, FAILED)
    else StartTransfer(s, id, Pull, [])
  }

  // ---- bulk completion callbacks ----

  /** The common head of the callbacks: the bulk operation is no longer live. */
  function Retire(s: State, op: OpId, outcome: Outcome): State
    requires op in s.live && s.live[op].id in s.reqs
  {
    var x := s.live[op];
    Log(Put(s, x.id, s.reqs[x.id].(inFlight := false)).(live := s.live - {op}), Done(x.id, x.kind, outcome))
  }

  /** A cancelled transfer of an Exec ends ABORTED; the KV twin treats it as any failure. */
  function CanceledOrBroken(s: State, id: Id, outcome: Outcome): State
    requires id in s.reqs
  {
    if outcome.Canceled? && s.reqs[id].exec
    then Fail(Put(s, id, s.reqs[id].(hadPushCanceled := true)), id, ABORTED)
    else Fail(s, id, FAILED)
  }

  function PulledCb(s: State, id: Id, outcome: Outcome, env: Env): State
    requires id in s.reqs
  {
    if !outcome.Landed? then CanceledOrBroken(s, id, outcome)
    else RunAndDeliver(s, id, env)
  }

  function PushedCb(s: State, id: Id, outcome: Outcome): State
    requires id in s.reqs
  {
    var r := s.reqs[id];
    if !outcome.Landed? then CanceledOrBroken(s, id, outcome)
    else Finish(Put(s, id, r.(out := Out(r.res.status, r.res.resultLen, []))), id)
  }

  /** One bulk callback: a live operation completes, is cancelled, or fails. */
  function TransferDone(s: State, op: OpId, outcome: Outcome, env: Env): State {
    if op !in s.live || s.live[op].id !in s.reqs then s
    else
      var x := s.live[op];
      var s1 := Retire(s, op, outcome);
      match x.kind
      case Pull => PulledCb(s1, x.id, outcome, env)
      case Push => PushedCb(s1, x.id, outcome)
  }

  // ---- RPC handlers ----

  function NewReq(cfg: Config, exec: bool, key: Key, inputBulk: bool, inputLen: nat, sink: bool): Req {
    Req(exec, key, inputBulk, inputLen, sink, exec, false, 0, false, false, None,
        if exec then cfg.pushStall else 0, false, if exec then cfg.pullStall else 0, false,
        ExecResult(SUCCESS, 0, []), FailOut(SUCCESS))
  }

  /** Allocate the request; an Exec is appended to the registry. */
  function Admit(s: State, r: Req): State {
    var id := s.nextReq;
    Log(Put(s, id, r).(nextReq := id + 1, inflight := if r.exec then s.inflight + [id] else s.inflight),
        Received(id, r.exec, r.key, Ask(r.inputBulk, r.inputLen, r.sink, s.cfg)))
  }

  /** A decoded Exec (or KV verb) starts: decline, PULL the large input, or run. */
  function Start(s: State, id: Id, env: Env): State
    requires id in s.reqs
  {
    var r := s.reqs[id];
    if !s.cfg.hasExecutor then Fail(s, id, NOT_SUPPORTED)
    else if r.inputBulk && r.inputLen > INLINE_MAX then
      if r.pullStallTicks > 0 then Put(s, id, r.(pullPending := true))
      else SubmitPull(s, id, env)
    else RunAndDeliver(s, id, env)
  }

  /** Requests that cannot be allocated or decoded are dropped without a reply. */
  function Arrive(s: State, decoded: bool, exec: bool, key: Key, inputBulk: bool, inputLen: nat, sink: bool,
                  env: Env): State {
    if !decoded then s
    else Start(Admit(s, NewReq(s.cfg, exec, key, inputBulk, inputLen, sink)), s.nextReq, env)
  }

  /** Fields of a request once a first cancel is stashed on it. */
  function Cancelled(r: Req, h: Handle, bulkCancelOk: bool): Req {
    r.(cancelHandle := Some(h), doNotPush := r.doNotPush || !r.inFlight || !bulkCancelOk)
  }

  function Cancel(s: State, decoded: bool, key: Key, bulkCancelOk: bool): State
    requires forall id | id in s.inflight :: id in s.reqs
  {
    if !decoded then s
    else
      var h := s.nextHandle;
      var s1 := s.(nextHandle := h + 1);
      match Lookup(s.reqs, s.inflight, key)
      case None => Log(s1, Acked(h, key, ALREADY_DONE, NotFound))
      case Some(id) =>
        if s.reqs[id].cancelHandle.Some? then Log(s1, Acked(h, key, ALREADY_DONE, Duplicate(id)))
        else Log(Put(s1, id, Cancelled(s.reqs[id], h, bulkCancelOk)), Stash(id, h, s.reqs[id].inFlight, bulkCancelOk))
  }

  // ---- stall ticks ----

  function TickOne(s: State, id: Id, env: Env): State
    requires id in s.reqs
  {
    var r := s.reqs[id];
    if r.pullPending then
      if r.doNotPush then Fail(Put(s, id, r.(pullPending := false)), id, ABORTED)
      else if r.pullStallTicks > 0 then Log(Put(s, id, r.(pullStallTicks := r.pullStallTicks - 1)), Held(id, Pull))
      else SubmitPull(Put(s, id, r.(pullPending := false)), id, env)
    else if r.pushPending then
      if r.doNotPush && r.stallTicks == 0 then Fail(Put(s, id, r.(pushPending := false)), id, ABORTED)
      else if r.stallTicks > 0 then Log(Put(s, id, r.(stallTicks := r.stallTicks - 1)), Held(id, Push))
      else SubmitPush(Put(s, id, r.(pushPending := false)), id, env)
    else s
  }

  function TickAll(s: State, ids: seq<Id>, env: Id -> Env): State
    decreases |ids|
  {
    if ids == [] then s
    else TickAll(if ids[0] in s.reqs then TickOne(s, ids[0], env(ids[0])) else s, ids[1..], env)
  }

  function Tick(s: State, env: Id -> Env): State {
    if s.cfg.pushStall == 0 && s.cfg.pullStall == 0 then s
    else TickAll(s, s.inflight, env)
  }

  // ---- runs ----

  datatype Input =
    | ArriveIn(decoded: bool, exec: bool, key: Key, inputBulk: bool, inputLen: nat, sink: bool, env: Env)
    | CancelIn(decoded: bool, key: Key, bulkCancelOk: bool)
    | TransferIn(op: OpId, outcome: Outcome, env: Env)
    | TickIn(envs: Id -> Env)

  /** The registry never holds a dangling entry; every function below relies on it. */
  ghost predicate RegistryOk(s: State) {
    forall id | id in s.inflight :: id in s.reqs
  }

  function Step(s: State, i: Input): State
    requires RegistryOk(s)
  {
    match i
    case ArriveIn(decoded, exec, key, inputBulk, inputLen, sink, env) =>
      Arrive(s, decoded, exec, key, inputBulk, inputLen, sink, env)
    case CancelIn(decoded, key, bulkCancelOk) => Cancel(s, decoded, key, bulkCancelOk)
    case TransferIn(op, outcome, env) => TransferDone(s, op, outcome, env)
    case TickIn(envs) => Tick(s, envs)
  }
}
