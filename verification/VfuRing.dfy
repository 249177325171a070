/**
 * One submission/completion queue pair of the raw vfio-user driver, driven one command at a time.
 * The device fetches and completes at its own pace; entries tell old from new by their phase bit
 * (section 4.6 of the NVM Express Base Specification 1.4).
 */
module VfuRing {

  datatype Cmd = Cmd(opc: nat, cid: nat)

  datatype Cqe = Cqe(cid: nat, cdw0: nat, sc: nat, sct: nat, phase: nat)

  /** A move of the device: take the next command, or complete one it has taken. */
  datatype DevStep = Fetch | Post(index: nat, cdw0: nat, sc: nat, sct: nat)

  datatype Outcome = TimedOut | Completed(status: nat, cpl: Cqe)

  /** The phase bit of lap `n / depth`: 1 on the first pass, inverted on each wrap. */
  function PhaseAt(n: nat, depth: nat): nat
    requires depth > 0
  {
    1 - n / depth % 2
  }

  /** `sc | sct << 8` of an 8-bit code and a 3-bit type. */
  function StatusOf(c: Cqe): (r: nat)
    ensures Says(r, c)
  {
    c.sc % 256 + 256 * (c.sct % 8)
  }

  /** The slot of entry number `n`. */
  function Slot(n: nat, depth: nat): (r: nat)
    requires depth > 0
    ensures r < depth
  {
    n % depth
  }

  /** The index after `i`, wrapping at the end of the queue. */
  function Next(i: nat, depth: nat): (r: nat)
    requires depth > 0
    ensures r < depth
  {
    (i + 1) % depth
  }

  /** The status gives back the code and the type the device posted, so 0 says success and nothing else does. */
  predicate Says(status: nat, c: Cqe) {
    c.sc < 256 && c.sct < 8 ==>
      status % 256 == c.sc && status / 256 == c.sct && (status == 0 <==> c.sc == 0 && c.sct == 0)
  }

  lemma NextIndex(n: nat, depth: nat)
    requires depth >= 2
    ensures Slot(n + 1, depth) == Next(Slot(n, depth), depth) != Slot(n, depth)
    ensures Next(Slot(n, depth), depth) == if Slot(n, depth) + 1 == depth then 0 else Slot(n, depth) + 1
    ensures PhaseAt(n + 1, depth) ==
            if Slot(n + 1, depth) == 0 then 1 - PhaseAt(n, depth) else PhaseAt(n, depth)
  {
    var q, r := n / depth, n % depth;
    Successor(n, q, depth);
    if r + 1 < depth { Quotient(0, r + 1, r + 1, depth); } else { Quotient(1, 0, depth, depth); }
  }

  lemma Successor(n: nat, q: nat, d: nat)
    requires d > 0 && q == n / d
    ensures if n % d + 1 == d then (n + 1) / d == q + 1 && (n + 1) % d == 0
            else (n + 1) / d == q && (n + 1) % d == n % d + 1
  {
    var r := n % d;
    assert n == q * d + r;
    assert (q + 1) * d == q * d + d;
    if r + 1 == d { Quotient(q + 1, 0, n + 1, d); } else { Quotient(q, r + 1, n + 1, d); }
  }

  /** Quotient and remainder are unique. */
  lemma Quotient(q: nat, r: nat, x: nat, d: nat)
    requires x == q * d + r && r < d
    ensures x / d == q && x % d == r
  {
    var e := x / d - q;
    assert x == (x / d) * d + x % d;
    assert e * d == (x / d) * d - q * d;
    assert e >= 1 ==> e * d >= d;
    assert e <= -1 ==> e * d + d <= 0;
  }

  /** Slots before index `n` carry the current phase, the others the opposite one. */
  ghost predicate Lap(cq: seq<Cqe>, n: nat, depth: nat) {
    && |cq| == depth >= 2
    && forall k | 0 <= k < depth :: cq[k].phase <= 1 && (cq[k].phase == PhaseAt(n, depth) <==> k < Slot(n, depth))
  }

  lemma LapPosted(cq: seq<Cqe>, n: nat, depth: nat, c: Cqe)
    requires Lap(cq, n, depth) && c.phase == PhaseAt(n, depth)
    ensures Lap(cq[Slot(n, depth) := c], n + 1, depth)
  {
    NextIndex(n, depth);
  }

  class Ring {
    const depth: nat
    const sq: array<Cmd>
    const cq: array<Cqe>

    // the driver's side
    var sqTail: nat
    var cqHead: nat
    var cqPhase: nat
    var cid: nat

    // the doorbells, and the device behind them
    var sqDoorbell: nat
    var cqDoorbell: nat
    var devHead: nat
    var devTail: nat
    var devPhase: nat
    var taken: seq<Cmd>

    /** Every command completed so far with the entry posted for it. */
    ghost var log: seq<(Cmd, Cqe)>

    ghost predicate Sized()
      reads this
    {
      depth >= 2 && sq.Length == depth && cq.Length == depth
    }

    ghost predicate InRange()
      reads this
    {
      Sized() && sqTail < depth && cqHead < depth && devHead < depth
    }

    ghost predicate DeviceIdle()
      reads this
    {
      devHead == sqDoorbell && taken == []
    }

    /** Between calls, after `|log|` commands: every index is that number modulo the depth. */
    ghost predicate Rest()
      reads this, cq
    {
      var n := |log|;
      && Sized()
      && sqTail == cqHead == sqDoorbell == cqDoorbell == devHead == devTail == Slot(n, depth)
      && cqPhase == devPhase == PhaseAt(n, depth)
      && cid == n % 0x1_0000
      && taken == []
      && Lap(cq[..], n, depth)
    }

    /** The driver has submitted command number `n` and waits. */
    ghost predicate Waiting(n: nat, cmd: Cmd)
      reads this, sq
    {
      && Sized()
      && sqTail == sqDoorbell == Slot(n + 1, depth) && cqHead == cqDoorbell == Slot(n, depth)
      && cqPhase == PhaseAt(n, depth) && cid == (n + 1) % 0x1_0000
      && sq[Slot(n, depth)] == cmd
    }

    ghost predicate Unposted(n: nat)
      reads this, cq
    {
      Sized() && |log| == n && devTail == Slot(n, depth) && devPhase == PhaseAt(n, depth) && Lap(cq[..], n, depth)
    }

    ghost predicate Posted(n: nat, cmd: Cmd)
      reads this, cq
    {
      && Sized() && |log| == n + 1 && log[n].0 == cmd && log[n].1.cid == cmd.cid
      && devTail == Slot(n + 1, depth) && devPhase == PhaseAt(n + 1, depth)
      && cq[Slot(n, depth)] == log[n].1 && log[n].1.phase == PhaseAt(n, depth) && Lap(cq[..], n + 1, depth)
    }

    /** Where the device can be while the driver waits: not begun, command taken, or completion posted. */
    ghost predicate Serving(n: nat, cmd: Cmd)
      reads this, cq
    {
      && Sized()
      && ( || (devHead == Slot(n, depth) && taken == [] && Unposted(n))
           || (devHead == Slot(n + 1, depth) && taken == [cmd] && Unposted(n))
           || (devHead == Slot(n + 1, depth) && taken == [] && Posted(n, cmd)))
    }

    /** The last command timed out, and its completion has come since. */
    ghost predicate Late()
      reads this, sq, cq
    {
      && log != []
      && var n := |log| - 1; var cmd := log[n].0;
         Waiting(n, cmd) && Posted(n, cmd) && DeviceIdle() && cmd.cid == n % 0x1_0000
    }

    constructor (entries: nat)
      requires entries >= 2
      ensures Rest() && log == [] && depth == entries && fresh(sq) && fresh(cq)
    {
      depth := entries;
      sq := new Cmd[entries](_ => Cmd(0, 0));
      cq := new Cqe[entries](_ => Cqe(0, 0, 0, 0, 0));
      sqTail, cqHead, cqPhase, cid := 0, 0, 1, 0;
      sqDoorbell, cqDoorbell, devHead, devTail, devPhase, taken := 0, 0, 0, 0, 1, [];
      log := [];
      new;
      assert forall k | 0 <= k < entries :: cq[..][k].phase == 0;
    }

    method DeviceFetch(ghost n: nat, ghost cmd: Cmd)
      requires Sized() && devHead < depth
      modifies this`devHead, this`taken
      ensures old(Waiting(n, cmd) && Serving(n, cmd)) ==> Serving(n, cmd)
      ensures old(DeviceIdle()) ==> DeviceIdle() && devHead == old(devHead)
      ensures old(Waiting(n, cmd) && devHead == Slot(n, depth) && taken == []) ==>
          devHead == Slot(n + 1, depth) && taken == [cmd]
      ensures devHead < depth
    {
      hide Lap, PhaseAt, Slot, Next;
      NextIndex(n, depth);
      if devHead != sqDoorbell {
        taken := taken + [sq[devHead]];
        devHead := Next(devHead, depth);
      }
    }

    method DevicePost(i: nat, cdw0: nat, sc: nat, sct: nat, ghost n: nat, ghost cmd: Cmd)
      requires Sized()
      modifies this`devTail, this`devPhase, this`taken, this`log, cq
      ensures old(Waiting(n, cmd) && Serving(n, cmd)) ==> Serving(n, cmd)
      ensures old(log) <= log && |log| <= |old(log)| + 1
      ensures |log| > |old(log)| ==>
                && i < |old(taken)| && log[|old(log)|].0 == old(taken)[i]
                && log[|old(log)|].1 == Cqe(old(taken)[i].cid, cdw0, sc, sct, old(devPhase))
      ensures i == 0 && old(Waiting(n, cmd) && Serving(n, cmd) && taken == [cmd]) ==> taken == [] && Posted(n, cmd)
      ensures old(taken) == [] ==>
          taken == [] && devTail == old(devTail) && devPhase == old(devPhase) && log == old(log)
            && cq[..] == old(cq[..])
    {
      hide Lap, PhaseAt, Slot, Next;
      NextIndex(n, depth);
      if |taken| <= i || devTail >= depth || Next(devTail, depth) == cqDoorbell { return; }
      ghost var was, live := cq[..], Waiting(n, cmd) && Serving(n, cmd);
      var c := Cqe(taken[i].cid, cdw0, sc, sct, devPhase);
      if live { LapPosted(was, n, depth, c); }
      cq[devTail] := c;
      assert cq[..] == was[devTail := c];
      log := log + [(taken[i], c)];
      taken := taken[..i] + taken[i + 1..];
      devTail := Next(devTail, depth);
      if devTail == 0 { devPhase := if devPhase == 0 then 1 else 0; }
      if live { assert Posted(n, cmd); }
    }

    /** Any moves the device makes in the meantime. */
    method Device(steps: seq<DevStep>, ghost n: nat, ghost cmd: Cmd)
      requires Sized() && devHead < depth
      modifies this`devHead, this`devTail, this`devPhase, this`taken, this`log, cq
      ensures old(Waiting(n, cmd) && Serving(n, cmd)) ==> Serving(n, cmd)
      ensures old(DeviceIdle()) ==> DeviceIdle() && devHead == old(devHead) && devTail == old(devTail)
                                    && devPhase == old(devPhase) && log == old(log) && cq[..] == old(cq[..])
      ensures devHead < depth && old(log) <= log
    {
      hide Serving, Slot, Next;
      for i := 0 to |steps|
        invariant devHead < depth && old(log) <= log
        invariant old(Waiting(n, cmd) && Serving(n, cmd)) ==> Serving(n, cmd)
        invariant old(DeviceIdle()) ==> DeviceIdle() && devHead == old(devHead) && devTail == old(devTail)
                                        && devPhase == old(devPhase) && log == old(log) && cq[..] == old(cq[..])
      {
        match steps[i] {
          case Fetch => DeviceFetch(n, cmd);
          case Post(k, cdw0, sc, sct) => DevicePost(k, cdw0, sc, sct, n, cmd);
        }
      }
    }

    /** Write the entry and ring the doorbell. */
    method Produce(cmd: Cmd, ghost n: nat)
      requires Sized() && sqTail < depth
      modifies this`sqTail, this`sqDoorbell, this`cid, sq
      ensures sqTail < depth
      ensures old(Rest()) && n == |log| ==>
                && Waiting(n, cmd) && Serving(n, cmd) && devHead == Slot(n, depth) && taken == [] && Unposted(n)
    {
      hide Lap, PhaseAt, Slot, Next;
      NextIndex(n, depth);
      cid := (cid + 1) % 0x1_0000;
      var slot := sqTail;
      var newTail := Next(sqTail, depth);
      sq[slot] := cmd;
      sqDoorbell := newTail;
      sqTail := newTail;
    }

    /** Take the entry at the head, move on, and tell the device. */
    method Consume(ghost n: nat, ghost cmd: Cmd) returns (cpl: Cqe)
      requires Sized() && cqHead < depth && cq[cqHead].phase == cqPhase
      modifies this`cqHead, this`cqPhase, this`cqDoorbell
      ensures cpl == cq[old(cqHead)] && cqHead < depth
      ensures old(Waiting(n, cmd) && Serving(n, cmd)) ==>
                && Rest() && |log| == n + 1 && log[n].0 == cmd && cpl == log[n].1 && cpl.cid == cmd.cid && DeviceIdle()
    {
      hide PhaseAt, Slot, Next;
      NextIndex(n, depth);
      assert cq[..][cqHead].phase == cqPhase;
      cpl := cq[cqHead];
      cqHead := Next(cqHead, depth);
      if cqHead == 0 { cqPhase := if cqPhase == 0 then 1 else 0; }
      cqDoorbell := cqHead;
    }

    /** Look at the head entry until its phase bit turns, the device moving between looks. */
    method AwaitPhase(script: seq<seq<DevStep>>, ghost n: nat, ghost cmd: Cmd) returns (arrived: bool)
      requires Sized() && devHead < depth && cqHead < depth
      modifies this`devHead, this`devTail, this`devPhase, this`taken, this`log, cq
      ensures old(Waiting(n, cmd) && Serving(n, cmd)) ==> Serving(n, cmd)
      ensures arrived ==> cq[cqHead].phase == cqPhase
      ensures devHead < depth && old(log) <= log
      ensures script == [] || old(cq[cqHead].phase == cqPhase) ==>
                && arrived == old(cq[cqHead].phase == cqPhase) && log == old(log) && cq[..] == old(cq[..])
                && devHead == old(devHead) && taken == old(taken) && devTail == old(devTail)
                && devPhase == old(devPhase)
    {
      hide Serving, Slot, Next;
      var i := 0;
      while cq[cqHead].phase != cqPhase
        invariant old(Waiting(n, cmd) && Serving(n, cmd)) ==> Serving(n, cmd)
        invariant 0 <= i <= |script| && devHead < depth && old(log) <= log
        invariant old(cq[cqHead].phase == cqPhase) ==> i == 0
        invariant i == 0 ==>
            && log == old(log) && cq[..] == old(cq[..]) && devHead == old(devHead) && taken == old(taken)
            && devTail == old(devTail) && devPhase == old(devPhase)
        decreases |script| - i
      {
        assert i == 0 ==> cq[..][cqHead] == old(cq[..])[cqHead];
        if i == |script| { return false; }
        Device(script[i], n, cmd);
        i := i + 1;
      }
      assert i == 0 ==> cq[..][cqHead] == old(cq[..])[cqHead];
      return true;
    }

    /**
     * Submit one command and poll for its completion. `script` is what the device does between looks at
     * the entry; running out of it is the deadline. `after` is what it does between the head doorbell
     * and the reading of the status out of the slot. After a timeout whose completion has come since,
     * the call takes that completion, whatever the device does.
     */
    method SubmitPoll(opc: nat, script: seq<seq<DevStep>>, after: seq<DevStep>) returns (out: Outcome)
      requires InRange()
      modifies this, sq, cq
      ensures InRange()
      ensures old(Rest()) && out.Completed? ==>
                && Rest() && |log| == |old(log)| + 1
                && log[|old(log)|].0 == Cmd(opc, |old(log)| % 0x1_0000)
                && out.cpl == log[|old(log)|].1 && out.cpl.cid == |old(log)| % 0x1_0000
                && Says(out.status, out.cpl)
      ensures old(Rest()) && script == [] ==>
                && out.TimedOut? && log == old(log) && devHead == Slot(|log|, depth) && taken == []
                && Waiting(|log|, Cmd(opc, |log| % 0x1_0000)) && Unposted(|log|)
      ensures old(Late() && !Rest()) ==>
                && out.Completed? && out.cpl == old(log)[|old(log)| - 1].1
                && out.cpl.cid == (|old(log)| - 1) % 0x1_0000 != old(cid)
      ensures old(log) <= log
    {
      hide Serving, Lap, PhaseAt, StatusOf, Says, Slot, Next;
      ghost var n := |log|;
      ghost var rest := Rest();
      if Late() { LateEntry(); }
      var cmd := Cmd(opc, cid);
      Produce(cmd, n);
      if rest { Unturned(n); }
      var arrived := AwaitPhase(script, n, cmd);
      if !arrived { return TimedOut; }
      var slot := cqHead;
      var cpl := Consume(n, cmd);
      ghost var entries := cq[..];
      Device(after, n, cmd);
      if rest { assert cq[slot] == entries[slot]; }
      return Completed(StatusOf(cq[slot]), cpl);
    }

    /** A late completion is what the head shows, with the phase the driver waits for. */
    lemma LateEntry()
      requires InRange() && Late()
      ensures cq[cqHead] == log[|log| - 1].1 && cq[cqHead].phase == cqPhase
      ensures cq[cqHead].cid == (|log| - 1) % 0x1_0000 && cid == |log| % 0x1_0000
    {
      hide Lap, PhaseAt, Slot, Next;
    }

    /** An entry not yet posted has the wrong phase. */
    lemma Unturned(n: nat)
      requires Unposted(n) && cqHead == Slot(n, depth) && cqPhase == PhaseAt(n, depth)
      ensures cq[cqHead].phase != cqPhase
    {
      assert cq[..][cqHead].phase == cq[cqHead].phase;
    }

    /**
     * Two calls after which the caller has the wrong completion: the first times out before the device
     * has moved, the device then serves it, and the second call takes its completion for its own.
     */
    method StaleAfterTimeout(opcA: nat, opcB: nat) returns (a: Outcome, b: Outcome, ghost own: nat)
      requires Rest()
      modifies this, sq, cq
      ensures a.TimedOut? && b.Completed? && own == (|old(log)| + 1) % 0x1_0000
      ensures b.cpl.cid == |old(log)| % 0x1_0000 != own
    {
      hide Lap, PhaseAt, Slot, Next;
      ghost var n := |log|;
      ghost var cmd := Cmd(opcA, n % 0x1_0000);
      a := SubmitPoll(opcA, [], []);
      DeviceFetch(n, cmd);
      DevicePost(0, 0, 0, 0, n, cmd);
      own := cid;
      NextIndex(n, depth);
      assert Late() && !Rest();
      b := SubmitPoll(opcB, [], []);
    }

    /** A run of commands up to the first that times out: each gets the completion of its own command. */
    method Run(opcs: seq<nat>, scripts: seq<seq<seq<DevStep>>>, afters: seq<seq<DevStep>>) returns (outs: seq<Outcome>)
      requires Rest() && log == [] && |scripts| == |afters| == |opcs|
      modifies this, sq, cq
      ensures |outs| <= |opcs| && forall i | 0 <= i < |outs| - 1 :: outs[i].Completed?
      ensures forall i | 0 <= i < |outs| && outs[i].Completed? ::
                i < |log| && log[i].0 == Cmd(opcs[i], i % 0x1_0000) && outs[i].cpl == log[i].1
                && outs[i].cpl.cid == i % 0x1_0000 && Says(outs[i].status, log[i].1)
      ensures (forall o | o in outs :: o.Completed?) ==>
                |outs| == |opcs| == |log| && Rest() && sqTail == cqHead == Slot(|opcs|, depth)
                  && cqPhase == PhaseAt(|opcs|, depth)
    {
      hide Says, PhaseAt, Lap, Slot, Next;
      outs := [];
      var i := 0;
      while i < |opcs|
        invariant 0 <= i == |outs| == |log| <= |opcs| && Rest()
        invariant forall k | 0 <= k < i :: outs[k].Completed? && log[k].0 == Cmd(opcs[k], k % 0x1_0000)
                    && outs[k].cpl == log[k].1 && outs[k].cpl.cid == k % 0x1_0000
                    && Says(outs[k].status, log[k].1)
      {
        ghost var before := log;
        var out := SubmitPoll(opcs[i], scripts[i], afters[i]);
        if out.TimedOut? {
          outs := outs + [out];
          assert outs[i] in outs;
          assert forall k | 0 <= k < i :: log[k] == before[k];
          return;
        }
        assert forall k | 0 <= k < i :: log[k] == before[k];
        outs := outs + [out];
        i := i + 1;
      }
    }
  }
}
