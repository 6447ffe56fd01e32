/**
  Whole runs of a Zephyr device at the grain of the phases of a poll: the deferred join, one
  datagram handled, one turn of the drain, the expiry check, the refresh; and between any two of
  them application sends and log calls of other threads. The clock readings do not go back;
  attachment readings and socket results are arbitrary.
 */
module DeviceRuns {
  import opened Words
  import opened Wire
  import opened ByteRing
  import opened FrameQueue
  import opened ListenerLease
  import opened LeaseHistory
  import opened Backend

  datatype Op =
    | Joins(env: PollEnv)
    | Hears(h: Heard)
    | Takes(link: Uplink)
    | Expires(env: PollEnv)
    | Refreshes(env: PollEnv)
    | Sends(link: Uplink, logType: byte, payload: seq<byte>)
    | Logs(call: LogCall)

  function Apply(d: Device, id: word64, op: Op): Device {
    match op
    case Joins(env) => d.(core := Join(d.core, env))
    case Hears(h) => if d.core.lease.alwaysOn then d else d.(core := HearOne(d.core, h))
    case Takes(link) => if WholeFrameIn(d.ring) then TakeOne(d, id, link) else d
    case Expires(env) => d.(core := Expire(d.core, id, env))
    case Refreshes(env) => d.(core := Refresh(d.core, id, env))
    case Sends(link, logType, payload) => d.(core := Send(d.core, id, link, logType, payload, false))
    case Logs(call) => Process(d, call)
  }

  function Run(d: Device, id: word64, ops: seq<Op>): Device {
    if ops == [] then d else Apply(Run(d, id, ops[..|ops| - 1]), id, ops[|ops| - 1])
  }

  lemma RunOne(d: Device, id: word64, ops: seq<Op>, op: Op)
    ensures Run(d, id, ops + [op]) == Apply(Run(d, id, ops), id, op)
  {
    assert (ops + [op])[..|ops|] == ops;
  }

  lemma {:induction false} RunTwice(d: Device, id: word64, a: seq<Op>, b: seq<Op>)
    ensures Run(d, id, a + b) == Run(Run(d, id, a), id, b)
    decreases |b|
  {
    hide Apply;
    if b == [] {
      assert a + b == a;
    } else {
      var n := |b| - 1;
      assert (a + b)[..|a + b| - 1] == a + b[..n];
      RunTwice(d, id, a, b[..n]);
    }
  }

  /* ---- a poll is such a run ---- */

  function HearOps(heard: seq<Heard>): seq<Op> { seq(|heard|, i requires 0 <= i < |heard| => Hears(heard[i])) }

  function DrainOps(d: Device, id: word64, links: nat -> Uplink, k: nat): seq<Op>
    decreases |d.ring|
  {
    if !WholeFrameIn(d.ring) then [] else [Takes(links(k))] + DrainOps(TakeOne(d, id, links(k)), id, links, k + 1)
  }

  function HeardBy(d: Device, env: PollEnv): Device {
    d.(core := CheckBeacons(Join(d.core, env), env.pending))
  }

  /** The phases of one undisturbed poll, in program order. */
  function PollOps(d: Device, id: word64, env: PollEnv): seq<Op> {
    [Joins(env)] + HearOps(BeforeEmpty(env.pending)) + DrainOps(HeardBy(d, env), id, env.drainLinks, 0)
    + [Expires(env)] + [Refreshes(env)]
  }

  lemma {:induction false} HearRun(d: Device, id: word64, heard: seq<Heard>)
    ensures Run(d, id, HearOps(heard)) ==
            if d.core.lease.alwaysOn then d else d.(core := HearAll(d.core, heard))
    ensures HearAll(d.core, heard).lease.alwaysOn == d.core.lease.alwaysOn
  {
    if heard != [] {
      var n := |heard| - 1;
      HearRun(d, id, heard[..n]);
      assert HearOps(heard) == HearOps(heard[..n]) + [Hears(heard[n])];
      RunOne(d, id, HearOps(heard[..n]), Hears(heard[n]));
      hide Run, HearOps, IsBeacon;
    }
  }

  lemma {:induction false} DrainRuns(d: Device, id: word64, links: nat -> Uplink, k: nat)
    ensures Run(d, id, DrainOps(d, id, links, k)) == Drain(d, id, links, k)
    decreases |d.ring|
  {
    if WholeFrameIn(d.ring) {
      var e, rest := TakeOne(d, id, links(k)), DrainOps(TakeOne(d, id, links(k)), id, links, k + 1);
      assert |e.ring| < |d.ring|;
      RunOne(d, id, [], Takes(links(k)));
      assert [] + [Takes(links(k))] == [Takes(links(k))] && Run(d, id, []) == d;
      hide TakeOne, Run;
      DrainRuns(e, id, links, k + 1);
      RunTwice(d, id, [Takes(links(k))], rest);
    }
  }

  lemma PollIsRun(d: Device, id: word64, env: PollEnv)
    ensures Poll(d, id, env) == Run(d, id, PollOps(d, id, env))
  {
    var joined, heard := d.(core := Join(d.core, env)), HeardBy(d, env);
    var a := [Joins(env)];
    var b := a + HearOps(BeforeEmpty(env.pending));
    var c := b + DrainOps(heard, id, env.drainLinks, 0);
    RunOne(d, id, [], Joins(env));
    assert [] + a == a && Run(d, id, []) == d;
    RunTwice(d, id, a, HearOps(BeforeEmpty(env.pending)));
    HearRun(joined, id, BeforeEmpty(env.pending));
    RunTwice(d, id, b, DrainOps(heard, id, env.drainLinks, 0));
    DrainRuns(heard, id, env.drainLinks, 0);
    RunOne(d, id, c, Expires(env));
    RunOne(d, id, c + [Expires(env)], Refreshes(env));
    hide Join, HearAll, HearOps, Drain, DrainOps, Run, Expire, Refresh;
  }

  /* ---- clock readings ---- */

  datatype Clock = Clock(now: int, check: int)

  /** The readings of an operation come in program order, after everything before. */
  function Tick(c: Clock, op: Op): Clock {
    match op
    case Joins(env) => Clock(env.joinTime, c.check)
    case Hears(h) => Clock(h.time, c.check)
    case Takes(link) => Clock(link.uptime, c.check)
    case Expires(env) => Clock(env.silentTime, env.checkTime)
    case Refreshes(env) => Clock(env.refreshLink.uptime, c.check)
    case Sends(link, _, _) => Clock(link.uptime, c.check)
    case Logs(_) => c
  }

  ghost predicate InSequence(c: Clock, op: Op) {
    match op
    case Expires(env) => c.now <= env.checkTime <= env.silentLink.uptime <= env.silentTime
    case Refreshes(env) => c.now <= env.refreshTime <= env.refreshLink.uptime
    case _ => c.now <= Tick(c, op).now
  }

  /** Nothing happens later than gap after the last expiry check, the next one included. */
  ghost predicate OnTime(c: Clock, op: Op, gap: int) {
    InSequence(c, op) && Tick(c, op).now <= c.check + gap
  }

  function ClockAfter(start: int, ops: seq<Op>): Clock {
    if ops == [] then Clock(start, start) else Tick(ClockAfter(start, ops[..|ops| - 1]), ops[|ops| - 1])
  }

  ghost predicate Timed(start: int, ops: seq<Op>, gap: int) {
    start >= 1 && gap >= 0 && forall i :: 0 <= i < |ops| ==> OnTime(ClockAfter(start, ops[..i]), ops[i], gap)
  }

  /* ---- every run keeps the lease in step with its history ---- */

  lemma TakeGood(d: Device, now: int, check: int, gap: int, id: word64, link: Uplink)
    requires Good(d.core, now, check, gap) && link.uptime <= check + gap && WholeFrameIn(d.ring)
    ensures Good(TakeOne(d, id, link).core, now, check, gap)
  {
    hide ListenerLease.Send, ListenerLease.TextPayload, ListenerLease.Delivered, Good;
    var payload := TextPayload(d.ring[0], d.ring[3..3 + Least(HeaderLength(d.ring), DRAIN_BUFFER)]);
    assert TakeOne(d, id, link).core == Send(d.core, id, link, TYPE_TEXT, payload, false);
    hide TakeOne, WholeFrameIn, HeaderLength;
    SendGood(d.core, now, check, gap, id, link, TYPE_TEXT, payload, false);
  }

  lemma GoodLater(c: Core, now: int, check: int, gap: int, later: int)
    requires Good(c, now, check, gap) && now <= later
    ensures Good(c, later, check, gap)
  {
  }

  lemma ApplyGood(d: Device, c: Clock, id: word64, op: Op, gap: int)
    requires Good(d.core, c.now, c.check, gap) && OnTime(c, op, gap) && gap >= 0
    ensures Good(Apply(d, id, op).core, Tick(c, op).now, Tick(c, op).check, gap)
  {
    var later := Tick(c, op).now;
    match op
    case Joins(env) => JoinGood(d.core, c.now, c.check, gap, env); hide Good, Join;
    case Hears(h) =>
      assert !d.core.lease.alwaysOn;
      HearOneGood(d.core, c.now, c.check, gap, h);
      hide Good, HearOne;
    case Takes(link) =>
      GoodLater(d.core, c.now, c.check, gap, later);
      hide Good, TakeOne;
      if WholeFrameIn(d.ring) {
        TakeGood(d, later, c.check, gap, id, link);
      }
    case Expires(env) => ExpireGood(d.core, c.now, c.check, gap, id, env); hide Good, Expire;
    case Refreshes(env) => RefreshGood(d.core, c.now, c.check, gap, id, env, later); hide Good, Refresh;
    case Sends(link, logType, payload) =>
      GoodLater(d.core, c.now, c.check, gap, later);
      hide Good, ListenerLease.Send;
      SendGood(d.core, later, c.check, gap, id, link, logType, payload, false);
    case Logs(call) =>
      assert Apply(d, id, op).core == d.core;
  }

  lemma {:induction false} RunGood(id: word64, start: int, ops: seq<Op>, gap: int)
    requires Timed(start, ops, gap)
    ensures Good(Run(BootDevice(false), id, ops).core, ClockAfter(start, ops).now, ClockAfter(start, ops).check, gap)
  {
    if ops == [] {
      BootGood(start, gap);
    } else {
      var n := |ops| - 1;
      assert Timed(start, ops[..n], gap) by {
        assert forall i :: 0 <= i < n ==> ops[..n][..i] == ops[..i];
      }
      RunGood(id, start, ops[..n], gap);
      var d, c := Run(BootDevice(false), id, ops[..n]), ClockAfter(start, ops[..n]);
      assert OnTime(c, ops[n], gap);
      hide Good, Apply, Tick, OnTime, BootDevice;
      ApplyGood(d, c, id, ops[n], gap);
    }
  }
}

/** Runs in which a poll is one operation: log calls and sends come between polls. */
module PollRuns {
  import opened Words
  import opened ListenerLease
  import opened Backend
  import DeviceRuns

  datatype Op =
    | Polls(env: PollEnv)
    | Sends(link: Uplink, logType: byte, payload: seq<byte>)
    | Logs(call: LogCall)

  function Apply(d: Device, id: word64, op: Op): Device {
    match op
    case Polls(env) => Poll(d, id, env)
    case Sends(link, logType, payload) => d.(core := Send(d.core, id, link, logType, payload, false))
    case Logs(call) => Process(d, call)
  }

  function Run(d: Device, id: word64, ops: seq<Op>): Device {
    if ops == [] then d else Apply(Run(d, id, ops[..|ops| - 1]), id, ops[|ops| - 1])
  }

  function Phases(d: Device, id: word64, op: Op): seq<DeviceRuns.Op> {
    match op
    case Polls(env) => DeviceRuns.PollOps(d, id, env)
    case Sends(link, logType, payload) => [DeviceRuns.Sends(link, logType, payload)]
    case Logs(call) => [DeviceRuns.Logs(call)]
  }

  function AllPhases(d: Device, id: word64, ops: seq<Op>): seq<DeviceRuns.Op> {
    if ops == [] then []
    else AllPhases(d, id, ops[..|ops| - 1]) + Phases(Run(d, id, ops[..|ops| - 1]), id, ops[|ops| - 1])
  }

  /** Each of them is a run of phases, so what holds of all runs of phases holds here. */
  lemma {:induction false} RunRefines(d: Device, id: word64, ops: seq<Op>)
    ensures Run(d, id, ops) == DeviceRuns.Run(d, id, AllPhases(d, id, ops))
  {
    if ops != [] {
      var n := |ops| - 1;
      RunRefines(d, id, ops[..n]);
      var e := Run(d, id, ops[..n]);
      DeviceRuns.RunTwice(d, id, AllPhases(d, id, ops[..n]), Phases(e, id, ops[n]));
      StepRefines(e, id, ops[n]);
      hide Apply, Phases, DeviceRuns.Run;
    }
  }

  lemma StepRefines(d: Device, id: word64, op: Op)
    ensures Apply(d, id, op) == DeviceRuns.Run(d, id, Phases(d, id, op))
  {
    assert DeviceRuns.Run(d, id, []) == d;
    match op
    case Polls(env) => DeviceRuns.PollIsRun(d, id, env); hide Poll, DeviceRuns.PollOps, DeviceRuns.Run;
    case Sends(link, logType, payload) =>
      var p := DeviceRuns.Sends(link, logType, payload);
      DeviceRuns.RunOne(d, id, [], p);
      assert [] + [p] == [p];
      hide Send, DeviceRuns.Run;
    case Logs(call) =>
      DeviceRuns.RunOne(d, id, [], DeviceRuns.Logs(call));
      assert [] + [DeviceRuns.Logs(call)] == [DeviceRuns.Logs(call)];
      hide Process, DeviceRuns.Run;
  }

  lemma RunOne(d: Device, id: word64, ops: seq<Op>, op: Op)
    ensures Run(d, id, ops + [op]) == Apply(Run(d, id, ops), id, op)
  {
    assert (ops + [op])[..|ops|] == ops;
  }

  lemma {:induction false} RunTwice(d: Device, id: word64, a: seq<Op>, b: seq<Op>)
    ensures Run(d, id, a + b) == Run(Run(d, id, a), id, b)
    decreases |b|
  {
    hide Apply;
    if b == [] {
      assert a + b == a;
    } else {
      var n := |b| - 1;
      assert (a + b)[..|a + b| - 1] == a + b[..n];
      RunTwice(d, id, a, b[..n]);
    }
  }
}
