/**
  The receiver's beacon timer, a lossy and delaying network, and a device's lease, as one
  clocked system. Time is real, in milliseconds; the receiver's clock is a float, the device reads
  its uptime in whole milliseconds. The hypotheses are parameters: the receiver's loop comes round
  at least every `period`, a beacon not lost arrives within `delay`, a poll checks for expiry
  within `duration` of finding its socket empty, and at most `losses` beacons are lost in a row.
  The device is whole, with its queue: what it does is an operation of a run of phases.
 */
module BeaconNetwork {
  import opened Words
  import opened Wire
  import opened ListenerLease
  import opened Receiver
  import opened Backend
  import DeviceRuns

  datatype Params = Params(period: real, delay: real, duration: real, losses: nat) {
    ghost predicate Valid() { period > 0.0 && delay >= 0.0 && duration >= 0.0 }
  }

  /** Where the device is in its poll; Silent(f): it found its socket empty at f. */
  datatype Place = Outside | Hearing | Silent(since: real) | Checked

  /** `renewed` is history: when the device last accepted a beacon. */
  datatype World = World(now: real,
                         running: bool, lastLoop: real, everSent: bool, lastSent: real, lossRun: nat,
                         flying: seq<real>, waiting: nat,
                         place: Place, attached: bool, device: Device, renewed: real)

  datatype Step =
    | Pass(to: real)
    | StartReceiver
    | Loop(lost: bool)
    | Arrive(i: nat)
    | PollStart(env: PollEnv)
    | Hear(timestamp: word32)
    | HearDone
    | Takes(link: Uplink)
    | Expiry(env: PollEnv)
    | Resubscribe(env: PollEnv)
    | DeviceSends(uplink: Uplink, logType: byte, payload: seq<byte>)
    | Logs(call: LogCall)
    | Attachment(attached: bool)

  function Start(alwaysOn: bool): World {
    World(1.0, false, 0.0, false, 0.0, 0, [], 0, Outside, false, BootDevice(alwaysOn), 0.0)
  }

  /** `k_uptime_get` */
  function Uptime(t: real): int { t.Floor }

  /** `_send_beacon6`: the first call sends, later ones once the interval has passed. */
  predicate BeaconDue(w: World) { !w.everSent || BeaconDueAt(w.lastSent / 1000.0, w.now / 1000.0) }

  lemma DueAfter30Seconds(w: World)
    ensures BeaconDue(w) <==> !w.everSent || w.now - w.lastSent >= 30_000.0
  {
  }

  predicate Enabled(p: Params, w: World, step: Step) {
    match step
    case Pass(to) =>
      && to >= w.now
      && (w.running ==> to <= w.lastLoop + p.period)
      && (forall i :: 0 <= i < |w.flying| ==> to <= w.flying[i] + p.delay)
      && (w.place.Silent? ==> to <= w.place.since + p.duration)
    case StartReceiver => !w.running
    case Loop(lost) => w.running && (lost ==> BeaconDue(w) && w.lossRun < p.losses)
    case Arrive(i) => i < |w.flying|
    case PollStart(env) => w.place.Outside? && env.joinTime == Uptime(w.now) && env.attachedForJoin == w.attached
    case Hear(_) => w.place.Hearing? && w.waiting > 0
    case HearDone => w.place.Hearing? && w.waiting == 0
    case Expiry(env) => w.place.Silent? && env.checkTime == env.silentTime == Uptime(w.now)
    case Resubscribe(env) => w.place.Checked? && env.refreshTime == Uptime(w.now) && env.attachedForRefresh == w.attached
    case Takes(_) => w.place.Silent?
    case DeviceSends(_, _, _) => true
    case Logs(_) => true
    case Attachment(_) => true
  }

  const ID: word64 := 0

  /** The device's part in a step. */
  function OpOf(w: World, step: Step): Option<DeviceRuns.Op> {
    match step
    case PollStart(env) => Some(DeviceRuns.Joins(env))
    case Hear(timestamp) =>
      Some(DeviceRuns.Hears(Heard(Packet(0, timestamp, BEACON_TYPE, []), Uptime(w.now))))
    case Takes(link) => Some(DeviceRuns.Takes(link))
    case Expiry(env) => Some(DeviceRuns.Expires(env))
    case Resubscribe(env) => Some(DeviceRuns.Refreshes(env))
    case DeviceSends(link, logType, payload) => Some(DeviceRuns.Sends(link, logType, payload))
    case Logs(call) => Some(DeviceRuns.Logs(call))
    case _ => None
  }

  function Does(d: Device, op: Option<DeviceRuns.Op>): Device {
    match op
    case None => d
    case Some(o) => DeviceRuns.Apply(d, ID, o)
  }

  function Next(p: Params, w: World, step: Step): World
    requires Enabled(p, w, step)
  {
    var w' := w.(device := Does(w.device, OpOf(w, step)));
    match step
    case Pass(to) => w'.(now := to)
    case StartReceiver => w'.(running := true, lastLoop := w.now, everSent := false)
    case Loop(lost) =>
      if !BeaconDue(w) then w'.(lastLoop := w.now)
      else if lost then w'.(lastLoop := w.now, everSent := true, lastSent := w.now, lossRun := w.lossRun + 1)
      else w'.(lastLoop := w.now, everSent := true, lastSent := w.now, lossRun := 0, flying := w.flying + [w.now])
    case Arrive(i) => w'.(flying := w.flying[..i] + w.flying[i + 1..], waiting := w.waiting + 1)
    case PollStart(_) => w'.(place := Hearing)
    case Hear(_) => w'.(waiting := w.waiting - 1, renewed := w.now)
    case HearDone => w'.(place := Silent(w.now))
    case Expiry(_) => w'.(place := Checked)
    case Resubscribe(_) => w'.(place := Outside)
    case Attachment(attached) => w'.(attached := attached)
    case _ => w'
  }

  ghost predicate IsRun(p: Params, w: World, steps: seq<Step>)
    decreases |steps|
  {
    steps == [] || (Enabled(p, w, steps[0]) && IsRun(p, Next(p, w, steps[0]), steps[1..]))
  }

  ghost function After(p: Params, w: World, steps: seq<Step>): World
    requires IsRun(p, w, steps)
    decreases |steps|
  {
    if steps == [] then w else After(p, Next(p, w, steps[0]), steps[1..])
  }

  /* ---- safety ---- */

  /** What the receiver does not let pass between two beacons: it declines before 30 s are over and
      is back within a period. */
  function Spacing(p: Params): real { 30_000.0 + p.period }

  function Times(n: int, step: real): real { n as real * step }

  function Reach(p: Params): real { Times(p.losses + 1, Spacing(p)) }

  /** By when the next beacon that is not lost has been sent. */
  function NextKept(p: Params, w: World): real { w.lastSent + Times(p.losses + 1 - w.lossRun, Spacing(p)) }

  /** All that may lie between two renewals: the spacing of the beacons that may be lost and of the
      one that is not, its delay, and the poll that just missed it. */
  function Longest(p: Params): real { Reach(p) + p.delay + p.duration }

  const TIMEOUT: real := BEACON_TIMEOUT as real

  ghost predicate NetworkInv(p: Params, w: World) {
    && 1.0 <= w.now && w.lossRun <= p.losses
    && (w.everSent ==> w.running && w.lastSent <= w.now && w.lastLoop - w.lastSent < 30_000.0)
    && (w.running ==> w.lastLoop <= w.now <= w.lastLoop + p.period)
    && (forall i :: 0 <= i < |w.flying| ==> w.flying[i] <= w.now <= w.flying[i] + p.delay)
    && (w.flying != [] || w.waiting > 0 || w.device.core.lease.confirmed ==> w.everSent)
    && (w.device.core.lease.alwaysOn ==> !w.device.core.lease.confirmed)
    && (w.place.Silent? ==> w.place.since <= w.now <= w.place.since + p.duration)
  }

  ghost predicate Underway(flying: seq<real>, latest: real) {
    exists i :: 0 <= i < |flying| && flying[i] <= latest
  }

  /** Once a beacon has been accepted, the next one is waiting, under way, or will be in time. */
  ghost predicate NextComes(p: Params, w: World) {
    w.waiting > 0 || Underway(w.flying, w.renewed + Reach(p)) || NextKept(p, w) <= w.renewed + Reach(p)
  }

  ghost predicate LeaseInv(p: Params, w: World) {
    var l := w.device.core.lease;
    l.confirmed ==>
      && l.active && l.lastBeacon == Uptime(w.renewed) && 1.0 <= w.renewed <= w.now && NextComes(p, w)
      && (w.place.Silent? ==> w.place.since <= w.renewed + Reach(p) + p.delay)
  }

  lemma MoreTimes(a: int, b: int, step: real)
    requires step >= 0.0 && a <= b
    ensures Times(a, step) <= Times(b, step)
    ensures Times(a + 1, step) == Times(a, step) + step
  {
    assert (b - a) as real * step >= 0.0;
  }

  lemma LoopStep(p: Params, w: World, lost: bool)
    requires p.Valid() && NetworkInv(p, w) && LeaseInv(p, w) && Enabled(p, w, Loop(lost))
    ensures NetworkInv(p, Next(p, w, Loop(lost))) && LeaseInv(p, Next(p, w, Loop(lost)))
  {
    var w', s := Next(p, w, Loop(lost)), Spacing(p);
    DueAfter30Seconds(w);
    hide BeaconDue, Times;
    if BeaconDue(w) && w.device.core.lease.confirmed {
      MoreTimes(0, 1, s);
      MoreTimes(1, p.losses + 1 - w.lossRun, s);
      MoreTimes(p.losses - w.lossRun, p.losses + 1 - w.lossRun, s);
      ZeroTimes(s);
      if w.waiting == 0 {
        if Underway(w.flying, w.renewed + Reach(p)) {
          var i :| 0 <= i < |w.flying| && w.flying[i] <= w.renewed + Reach(p);
          assert w'.flying[i] == w.flying[i];
        } else if !lost {
          assert w'.flying[|w.flying|] == w.now;
        }
      }
    }
  }

  lemma ZeroTimes(step: real)
    ensures Times(0, step) == 0.0
  {
  }

  lemma ArriveStep(p: Params, w: World, i: nat)
    requires p.Valid() && NetworkInv(p, w) && LeaseInv(p, w) && Enabled(p, w, Arrive(i))
    ensures NetworkInv(p, Next(p, w, Arrive(i))) && LeaseInv(p, Next(p, w, Arrive(i)))
  {
    hide Times, BeaconDue, Uptime;
    var w' := Next(p, w, Arrive(i));
    assert forall k :: 0 <= k < |w'.flying| ==> w'.flying[k] == w.flying[if k < i then k else k + 1];
  }

  lemma HearStep(p: Params, w: World, timestamp: word32)
    requires p.Valid() && NetworkInv(p, w) && LeaseInv(p, w) && Enabled(p, w, Hear(timestamp))
    ensures NetworkInv(p, Next(p, w, Hear(timestamp))) && LeaseInv(p, Next(p, w, Hear(timestamp)))
  {
    hide Wire.Packet, Times, BeaconDue, Uptime, Does, OpOf;
    MoreTimes(p.losses + 1 - w.lossRun, p.losses + 1, Spacing(p));
    HearRenews(w, timestamp);
  }

  lemma HearRenews(w: World, timestamp: word32)
    ensures var l, l' := w.device.core.lease, Does(w.device, OpOf(w, Hear(timestamp))).core.lease;
            if l.alwaysOn then l' == l
            else l' == l.(lastBeacon := Uptime(w.now), active := true, confirmed := true, consecFail := 0)
  {
    BeaconRecognised(0, timestamp, BEACON_TYPE, []);
    hide Wire.Packet, IsBeacon, Uptime;
  }

  lemma HearDoneStep(p: Params, w: World)
    requires p.Valid() && NetworkInv(p, w) && LeaseInv(p, w) && Enabled(p, w, HearDone)
    ensures NetworkInv(p, Next(p, w, HearDone)) && LeaseInv(p, Next(p, w, HearDone))
  {
    hide Times, BeaconDue, Uptime;
    ZeroTimes(Spacing(p));
    MoreTimes(0, 1, Spacing(p));
    MoreTimes(1, p.losses + 1 - w.lossRun, Spacing(p));
    assert w.device.core.lease.confirmed ==> w.now <= NextKept(p, w);
    var w' := Next(p, w, HearDone);
    assert w.device.core.lease.confirmed ==> NextComes(p, w');
  }

  /** Readings in whole milliseconds make no span of at most 90 s longer. */
  lemma ReadingsApart(earlier: real, later: real)
    requires later - earlier <= TIMEOUT
    ensures Uptime(later) - Uptime(earlier) <= BEACON_TIMEOUT
  {
  }

  /** The lease cannot have run out at the check: what was heard is too recent. */
  lemma ExpiryStep(p: Params, w: World, env: PollEnv)
    requires p.Valid() && NetworkInv(p, w) && LeaseInv(p, w) && Enabled(p, w, Expiry(env))
    requires Longest(p) <= TIMEOUT
    ensures NetworkInv(p, Next(p, w, Expiry(env))) && LeaseInv(p, Next(p, w, Expiry(env)))
  {
    hide ListenerLease.Send, Underway, Reach, BeaconDue, Uptime;
    if w.device.core.lease.confirmed {
      ReadingsApart(w.renewed, w.now);
    }
  }

  /** What the device does otherwise leaves a confirmed, active lease alone. */
  lemma OtherKeepsLease(d: Device, op: DeviceRuns.Op)
    requires !op.Hears? && !op.Expires? && (d.core.lease.confirmed ==> d.core.lease.active)
    ensures var l, l' := d.core.lease, DeviceRuns.Apply(d, ID, op).core.lease;
            && l'.confirmed == l.confirmed && l'.alwaysOn == l.alwaysOn
            && (l.confirmed ==> l'.active && l'.lastBeacon == l.lastBeacon)
  {
    match op
    case Takes(link) =>
      if WholeFrameIn(d.ring) {
        TakeKeepsLease(d, link);
      }
      hide TakeOne;
    case Sends(link, logType, payload) => SendKeepsLease(d.core, link, logType, payload, false); hide ListenerLease.Send;
    case Refreshes(env) => RefreshNothing(d.core, env); hide ListenerLease.Refresh;
    case Logs(call) => LogKeepsCore(d, call); hide Process;
    case _ =>
  }

  lemma TakeKeepsLease(d: Device, link: Uplink)
    requires WholeFrameIn(d.ring)
    ensures TakeOne(d, ID, link).core.lease == d.core.lease
  {
    hide Wire.Packet, ListenerLease.TextPayload;
  }

  lemma LogKeepsCore(d: Device, call: LogCall)
    ensures Process(d, call).core == d.core
  {
    hide CollectAll, TransportChatter, MapLevel;
  }

  lemma OtherStep(p: Params, w: World, step: Step)
    requires p.Valid() && NetworkInv(p, w) && LeaseInv(p, w) && Enabled(p, w, step)
    requires !step.Loop? && !step.Arrive? && !step.Hear? && !step.HearDone? && !step.Expiry?
    ensures NetworkInv(p, Next(p, w, step)) && LeaseInv(p, Next(p, w, step))
  {
    hide Times, BeaconDue, Uptime, DeviceRuns.Apply, Wire.Packet;
    var op := OpOf(w, step);
    if op.Some? {
      OtherKeepsLease(w.device, op.value);
    }
  }

  lemma SendKeepsLease(c: Core, link: Uplink, logType: byte, payload: seq<byte>, force: bool)
    ensures Send(c, ID, link, logType, payload, force).lease == c.lease
  {
    hide Wire.Packet;
  }

  lemma RefreshNothing(c: Core, env: PollEnv)
    ensures Refresh(c, ID, env).lease.confirmed == c.lease.confirmed
    ensures Refresh(c, ID, env).lease.alwaysOn == c.lease.alwaysOn
    ensures c.lease.active ==> Refresh(c, ID, env) == c
  {
    hide Wire.Packet, ListenerLease.TextPayload;
  }

  lemma EveryStep(p: Params, w: World, step: Step)
    requires p.Valid() && NetworkInv(p, w) && LeaseInv(p, w) && Enabled(p, w, step)
    requires Longest(p) <= TIMEOUT
    ensures NetworkInv(p, Next(p, w, step)) && LeaseInv(p, Next(p, w, step))
  {
    hide NetworkInv, LeaseInv, Next, Enabled, Longest;
    match step
    case Loop(lost) => LoopStep(p, w, lost);
    case Arrive(i) => ArriveStep(p, w, i);
    case Hear(timestamp) => HearStep(p, w, timestamp);
    case HearDone => HearDoneStep(p, w);
    case Expiry(env) => ExpiryStep(p, w, env);
    case _ => OtherStep(p, w, step);
  }

  lemma {:induction false} RunKeepsLease(p: Params, w: World, steps: seq<Step>)
    requires p.Valid() && NetworkInv(p, w) && LeaseInv(p, w) && IsRun(p, w, steps)
    requires Longest(p) <= TIMEOUT
    ensures NetworkInv(p, After(p, w, steps)) && LeaseInv(p, After(p, w, steps))
    decreases |steps|
  {
    if steps != [] {
      hide NetworkInv, LeaseInv, Longest, Next, Enabled;
      EveryStep(p, w, steps[0]);
      RunKeepsLease(p, Next(p, w, steps[0]), steps[1..]);
    }
  }

  /** In every run, a device that has accepted a beacon never gives its listener up, so long as
      the beacons that may be lost in a row, the delay and a poll fit into the timeout. */
  lemma LeaseKept(p: Params, alwaysOn: bool, steps: seq<Step>)
    requires p.Valid() && IsRun(p, Start(alwaysOn), steps)
    requires (p.losses + 1) as real * (30_000.0 + p.period) + p.delay + p.duration <= 90_000.0
    ensures var l := After(p, Start(alwaysOn), steps).device.core.lease;
            l.confirmed ==> l.active
  {
    RunKeepsLease(p, Start(alwaysOn), steps);
  }

  /* ---- the device's own run ---- */

  ghost function OpsOf(p: Params, w: World, steps: seq<Step>): seq<DeviceRuns.Op>
    requires IsRun(p, w, steps)
    decreases |steps|
  {
    if steps == [] then []
    else
      (match OpOf(w, steps[0]) case None => [] case Some(op) => [op])
      + OpsOf(p, Next(p, w, steps[0]), steps[1..])
  }

  /** The device in the network is in a run of phases, so all that holds of those holds here. */
  lemma {:induction false} DeviceRunOf(p: Params, w: World, steps: seq<Step>)
    requires IsRun(p, w, steps)
    ensures After(p, w, steps).device == DeviceRuns.Run(w.device, ID, OpsOf(p, w, steps))
    decreases |steps|
  {
    if steps != [] {
      var w', op := Next(p, w, steps[0]), OpOf(w, steps[0]);
      DeviceRunOf(p, w', steps[1..]);
      var rest := OpsOf(p, w', steps[1..]);
      var one := match op case None => [] case Some(o) => [o];
      OneOp(w.device, op);
      DeviceDoes(p, w, steps[0]);
      hide Next, Enabled, OpOf, Does, DeviceRuns.Run;
      DeviceRuns.RunTwice(w.device, ID, one, rest);
    }
  }

  lemma DeviceDoes(p: Params, w: World, step: Step)
    requires Enabled(p, w, step)
    ensures Next(p, w, step).device == Does(w.device, OpOf(w, step))
  {
    hide Does, OpOf, BeaconDue;
  }

  lemma OneOp(d: Device, op: Option<DeviceRuns.Op>)
    ensures Does(d, op) == DeviceRuns.Run(d, ID, match op case None => [] case Some(o) => [o])
  {
    assert DeviceRuns.Run(d, ID, []) == d;
    if op.Some? {
      DeviceRuns.RunOne(d, ID, [], op.value);
      assert [] + [op.value] == [op.value];
    }
    hide DeviceRuns.Apply;
  }
}
