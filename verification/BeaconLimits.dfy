/**
  How far the beacon timer and the device's timeout can be stretched: for every choice of loop
  period, delay, poll duration and losses in a row that does not fit into the timeout there is a
  run in which a device that has accepted a beacon gives its listener up.
 */
module BeaconLimits {
  import opened Wire
  import opened ListenerLease
  import opened Backend
  import opened BeaconNetwork

  ghost predicate Reaches(p: Params, from: World, to: World) {
    exists steps :: IsRun(p, from, steps) && After(p, from, steps) == to
  }

  lemma {:induction false} RunThenStep(p: Params, w: World, steps: seq<Step>, step: Step)
    requires IsRun(p, w, steps) && Enabled(p, After(p, w, steps), step)
    ensures IsRun(p, w, steps + [step]) && After(p, w, steps + [step]) == Next(p, After(p, w, steps), step)
    decreases |steps|
  {
    hide Enabled, Next;
    if steps == [] {
      assert (steps + [step])[1..] == [];
    } else {
      RunThenStep(p, Next(p, w, steps[0]), steps[1..], step);
      assert (steps + [step])[1..] == steps[1..] + [step];
    }
  }

  lemma Stays(p: Params, w: World)
    ensures Reaches(p, w, w)
  {
    assert IsRun(p, w, []) && After(p, w, []) == w;
  }

  lemma Then(p: Params, from: World, w: World, step: Step)
    requires Reaches(p, from, w) && Enabled(p, w, step)
    ensures Reaches(p, from, Next(p, w, step))
  {
    var steps :| IsRun(p, from, steps) && After(p, from, steps) == w;
    RunThenStep(p, from, steps, step);
  }

  /* ---- the receiver alone ---- */

  function Earlier(a: real, b: real): real { if a < b then a else b }

  /** Some number of periods covers any span. */
  lemma PeriodsFor(span: real, period: real) returns (n: nat)
    requires period > 0.0 && span >= 0.0
    ensures span <= Times(n, period)
  {
    var q := span / period;
    assert q >= 0.0 && q * period == span;
    n := q.Floor + 1;
    Product(n as real, q, period);
  }

  lemma Product(a: real, b: real, factor: real)
    requires a >= b && factor > 0.0
    ensures a * factor >= b * factor
  {
    assert (a - b) * factor >= 0.0;
  }

  /** One turn of the receiver's loop, as late as allowed but not after t. */
  lemma Turn(p: Params, from: World, w: World, t: real) returns (w': World)
    requires p.Valid() && Reaches(p, from, w) && w.running && w.everSent && w.now == w.lastLoop <= t
    requires forall i :: 0 <= i < |w.flying| ==> t <= w.flying[i] + p.delay
    requires w.place.Silent? ==> t <= w.place.since + p.duration
    ensures Reaches(p, from, w')
    ensures w'.now == w'.lastLoop == Earlier(t, w.now + p.period)
    ensures w' == w.(now := w'.now, lastLoop := w'.now, lastSent := w'.lastSent, lossRun := w'.lossRun, flying := w'.flying)
    ensures w'.now - w.lastSent < 30_000.0 ==> w' == w.(now := w'.now, lastLoop := w'.now)
    ensures w'.flying == w.flying || w'.flying == w.flying + [w'.now]
  {
    var passed := Next(p, w, Pass(Earlier(t, w.now + p.period)));
    Then(p, from, w, Pass(Earlier(t, w.now + p.period)));
    hide Reaches;
    DueAfter30Seconds(passed);
    hide BeaconDue;
    w' := Next(p, passed, Loop(false));
    Then(p, from, passed, Loop(false));
  }

  /** The receiver's loop comes round until t; nothing is lost, nothing arrives. */
  lemma {:induction false} March(p: Params, from: World, w: World, t: real, n: nat) returns (w': World)
    requires p.Valid() && Reaches(p, from, w) && t - w.now <= Times(n, p.period)
    requires w.running && w.everSent && w.now == w.lastLoop <= t && !w.place.Silent?
    requires forall i :: 0 <= i < |w.flying| ==> t <= w.flying[i] + p.delay
    requires w.now + p.delay >= t || t - w.lastSent < 30_000.0
    ensures Reaches(p, from, w')
    ensures w' == w.(now := t, lastLoop := t, lastSent := w'.lastSent, lossRun := w'.lossRun, flying := w'.flying)
    ensures t - w.lastSent < 30_000.0 ==> w' == w.(now := t, lastLoop := t)
    decreases n
  {
    if n == 0 {
      ZeroTimes(p.period);
      w' := w;
    } else {
      MoreTimes(n - 1, n - 1, p.period);
      hide Reaches, Times;
      var turned := Turn(p, from, w, t);
      w' := March(p, from, turned, t, n - 1);
    }
  }

  /** As above during a poll, each beacon arriving as it is sent. */
  lemma {:induction false} MarchDelivering(p: Params, from: World, w: World, t: real, n: nat) returns (w': World)
    requires p.Valid() && Reaches(p, from, w) && t - w.now <= Times(n, p.period)
    requires w.running && w.everSent && w.now == w.lastLoop <= t && w.flying == []
    requires w.place.Silent? && t <= w.place.since + p.duration
    ensures Reaches(p, from, w')
    ensures w'.now == t && w'.place == w.place && w'.device == w.device
    decreases n
  {
    if n == 0 {
      ZeroTimes(p.period);
      w' := w;
    } else {
      MoreTimes(n - 1, n - 1, p.period);
      hide Times;
      var turned := Turn(p, from, w, t);
      hide Reaches;
      turned := DeliverAll(p, from, turned);
      w' := MarchDelivering(p, from, turned, t, n - 1);
    }
  }

  lemma {:induction false} DeliverAll(p: Params, from: World, w: World) returns (w': World)
    requires Reaches(p, from, w)
    ensures Reaches(p, from, w')
    ensures w' == w.(flying := [], waiting := w.waiting + |w.flying|)
    decreases |w.flying|
  {
    hide BeaconDue;
    if w.flying == [] {
      w' := w;
    } else {
      Then(p, from, w, Arrive(0));
      w' := DeliverAll(p, from, Next(p, w, Arrive(0)));
    }
  }

  /* ---- the steps of a poll ---- */

  const SPARE: Uplink := Uplink(true, 0, 0)

  function Readings(t: int): PollEnv {
    PollEnv(true, true, t, [], k => SPARE, t, [0], SPARE, t, true, t, true, [0], SPARE)
  }

  lemma PollStarts(p: Params, from: World, w: World, env: PollEnv)
    requires Reaches(p, from, w) && w.place.Outside? && env.joinTime == Uptime(w.now) && env.attachedForJoin == w.attached
    ensures Reaches(p, from, w.(place := Hearing, device := w.device.(core := Join(w.device.core, env))))
  {
    Then(p, from, w, PollStart(env));
  }

  lemma Hears(p: Params, from: World, w: World)
    requires Reaches(p, from, w) && w.place.Hearing? && w.waiting > 0 && !w.device.core.lease.alwaysOn
    ensures var heard := HearOne(w.device.core, Heard(Packet(0, 0, BEACON_TYPE, []), Uptime(w.now)));
            Reaches(p, from, w.(waiting := w.waiting - 1, device := w.device.(core := heard), renewed := w.now))
  {
    hide Wire.Packet, IsBeacon, HearOne, Uptime, Reaches, BeaconDue;
    Then(p, from, w, Hear(0));
  }

  lemma FindsEmpty(p: Params, from: World, w: World)
    requires Reaches(p, from, w) && w.place.Hearing? && w.waiting == 0
    ensures Reaches(p, from, w.(place := Silent(w.now)))
  {
    Then(p, from, w, HearDone);
  }

  function Expired(d: Device, now: int): Device { d.(core := Expire(d.core, ID, Readings(now))) }

  function Refreshed(d: Device, now: int): Device { d.(core := Refresh(d.core, ID, Readings(now))) }

  lemma Checks(p: Params, from: World, w: World)
    requires Reaches(p, from, w) && w.place.Silent?
    ensures Reaches(p, from, w.(place := Checked, device := Expired(w.device, Uptime(w.now))))
  {
    Then(p, from, w, Expiry(Readings(Uptime(w.now))));
  }

  lemma Refreshes(p: Params, from: World, w: World)
    requires Reaches(p, from, w) && w.place.Checked? && w.attached
    ensures Reaches(p, from, w.(place := Outside, device := Refreshed(w.device, Uptime(w.now))))
  {
    Then(p, from, w, Resubscribe(Readings(Uptime(w.now))));
  }

  /* ---- the run ---- */

  /** A beacon has just been sent, lost or delivered; the device is between polls, its lease renewed
      at t0. */
  function JustSent(t: real, lossRun: nat, device: Device, t0: real): World {
    World(t, true, t, true, t, lossRun, [], 0, Outside, true, device, t0)
  }

  ghost predicate HeardAtOne(d: Device) {
    var l := d.core.lease;
    l.joined && l.active && l.confirmed && !l.alwaysOn && l.lastBeacon == 1
  }

  /** The first beacon reaches an attached device's socket as it is sent. */
  lemma FirstBeacon(p: Params, t0: real)
    requires p.Valid() && t0 >= 1.0
    ensures Reaches(p, Start(false), JustSent(t0, 0, BootDevice(false), 0.0).(waiting := 1))
  {
    hide BootDevice;
    var start := Start(false);
    var w1 := Next(p, start, Pass(t0));
    var w2 := Next(p, w1, Attachment(true));
    var w3 := Next(p, w2, StartReceiver);
    var w4 := Next(p, w3, Loop(false));
    assert [] + [t0] == [t0];
    Stays(p, start);
    hide Reaches;
    Then(p, start, start, Pass(t0));
    Then(p, start, w1, Attachment(true));
    Then(p, start, w2, StartReceiver);
    Then(p, start, w3, Loop(false));
    Then(p, start, w4, Arrive(0));
    assert w4.flying[..0] + w4.flying[1..] == [];
  }

  function FirstJoined(): Device { BootDevice(false).(core := Join(BootDevice(false).core, Readings(1))) }

  function FirstHeard(): Device {
    FirstJoined().(core := HearOne(FirstJoined().core, Heard(Packet(0, 0, BEACON_TYPE, []), 1)))
  }

  /** The poll that hears it joins, accepts it, and has nothing to expire or refresh. */
  lemma FirstPoll()
    ensures HeardAtOne(FirstHeard()) && !FirstJoined().core.lease.alwaysOn
    ensures Refreshed(Expired(FirstHeard(), 1), 1) == FirstHeard()
  {
    BeaconRecognised(0, 0, BEACON_TYPE, []);
    hide Wire.Packet, IsBeacon, ListenerLease.Send;
  }

  lemma HearFirst(p: Params, t0: real)
    requires p.Valid() && 1.0 <= t0 < 2.0
    ensures Reaches(p, Start(false), JustSent(t0, 0, FirstHeard(), t0).(place := Hearing))
  {
    assert Uptime(t0) == 1;
    hide Wire.Packet, IsBeacon, Join, HearOne, HeardAtOne, Reaches, BootDevice, Next, Enabled, Uptime;
    FirstBeacon(p, t0);
    FirstPoll();
    var start, w := Start(false), JustSent(t0, 0, BootDevice(false), 0.0).(waiting := 1);
    PollStarts(p, start, w, Readings(1));
    Hears(p, start, w.(place := Hearing, device := FirstJoined()));
  }

  lemma Begin(p: Params, t0: real)
    requires p.Valid() && 1.0 <= t0 < 2.0
    ensures HeardAtOne(FirstHeard()) && Reaches(p, Start(false), JustSent(t0, 0, FirstHeard(), t0))
  {
    assert Uptime(t0) == 1;
    HearFirst(p, t0);
    FirstPoll();
    hide FirstHeard, Expired, Refreshed, HeardAtOne, Reaches, Next, Enabled, Uptime;
    var start, w := Start(false), JustSent(t0, 0, FirstHeard(), t0).(place := Hearing);
    FindsEmpty(p, start, w);
    Checks(p, start, w.(place := Silent(t0)));
    Refreshes(p, start, w.(place := Checked, device := Expired(FirstHeard(), 1)));
  }

  /** The next beacon, all but `early` as late as the loop allows, and lost if wanted. */
  lemma SendLate(p: Params, from: World, t: real, t0: real, lossRun: nat, device: Device, lost: bool, early: real)
    requires p.Valid() && Reaches(p, from, JustSent(t, lossRun, device, t0)) && (lost ==> lossRun < p.losses)
    requires 0.0 < early <= 1.0 && early <= p.period
    ensures var next := t + (Spacing(p) - early);
            var late := JustSent(next, if lost then lossRun + 1 else 0, device, t0);
            Reaches(p, from, if lost then late else late.(flying := [next]))
  {
    var next, turn := t + (Spacing(p) - early), t + 30_000.0 - early;
    var n := PeriodsFor(turn - t, p.period);
    var idle := March(p, from, JustSent(t, lossRun, device, t0), turn, n);
    Then(p, from, idle, Pass(next));
    var due := Next(p, idle, Pass(next));
    DueAfter30Seconds(due);
    hide BeaconDue, Times;
    Then(p, from, due, Loop(lost));
    hide Reaches;
    assert [] + [next] == [next];
  }

  /** When the n-th beacon after the first is sent, each being that late. */
  function SentLate(p: Params, t0: real, early: real, n: nat): real { t0 + Times(n, Spacing(p) - early) }

  lemma OneMore(p: Params, t0: real, early: real, n: nat)
    requires p.Valid() && early <= 1.0
    ensures SentLate(p, t0, early, n + 1) == SentLate(p, t0, early, n) + (Spacing(p) - early)
    ensures SentLate(p, t0, early, 0) == t0
  {
    MoreTimes(n, n, Spacing(p) - early);
    ZeroTimes(Spacing(p) - early);
    hide Times;
  }

  lemma {:induction false} Starve(p: Params, from: World, device: Device, t0: real, early: real, n: nat)
    requires p.Valid() && Reaches(p, from, JustSent(t0, 0, device, t0)) && n <= p.losses
    requires 0.0 < early <= 1.0 && early <= p.period
    ensures Reaches(p, from, JustSent(SentLate(p, t0, early, n), n, device, t0))
  {
    hide Reaches, SentLate, Spacing;
    if n > 0 {
      Starve(p, from, device, t0, early, n - 1);
      OneMore(p, t0, early, n - 1);
      SendLate(p, from, SentLate(p, t0, early, n - 1), t0, n - 1, device, true, early);
    } else {
      OneMore(p, t0, early, 0);
    }
  }

  ghost predicate GivesUp(p: Params, steps: seq<Step>) {
    && IsRun(p, Start(false), steps)
    && After(p, Start(false), steps).device.core.lease.confirmed
    && !After(p, Start(false), steps).device.core.lease.active
  }

  /** The socket is found empty just before the beacon comes in, and the check is as late as it may be. */
  lemma CheckLate(p: Params, from: World, sent: real, device: Device, t0: real) returns (w': World)
    requires p.Valid() && Reaches(p, from, JustSent(sent, 0, device, t0).(flying := [sent]))
    requires HeardAtOne(device)
    ensures Reaches(p, from, w') && w'.place == Silent(sent + p.delay)
    ensures w'.now == sent + p.delay + p.duration && w'.device == device
  {
    var f := sent + p.delay;
    var n := PeriodsFor(p.delay, p.period);
    var waited := March(p, from, JustSent(sent, 0, device, t0).(flying := [sent]), f, n);
    var env := Readings(Uptime(f));
    hide Reaches, Next, Enabled, Uptime;
    PollStarts(p, from, waited, env);
    FindsEmpty(p, from, waited.(place := Hearing));
    var silent := DeliverAll(p, from, waited.(place := Silent(f)));
    var m := PeriodsFor(p.duration, p.period);
    w' := MarchDelivering(p, from, silent, f + p.duration, m);
  }

  lemma WaitTooLong(p: Params, device: Device, t0: real, early: real) returns (w: World)
    requires p.Valid() && HeardAtOne(device) && Reaches(p, Start(false), JustSent(t0, 0, device, t0))
    requires 0.0 < early <= 1.0 && early <= p.period
    ensures Reaches(p, Start(false), w) && w.place.Silent? && w.device == device
    ensures w.now == SentLate(p, t0, early, p.losses + 1) + p.delay + p.duration
  {
    hide HeardAtOne, Spacing, Reaches, SentLate;
    var start := Start(false);
    Starve(p, start, device, t0, early, p.losses);
    SendLate(p, start, SentLate(p, t0, early, p.losses), t0, p.losses, device, false, early);
    OneMore(p, t0, early, p.losses);
    w := CheckLate(p, start, SentLate(p, t0, early, p.losses + 1), device, t0);
  }

  /** How early the loop must be, and when the first beacon must come, for the readings to differ by
      more than the timeout. */
  lemma ReadingsTooFar(p: Params) returns (t0: real, early: real)
    requires p.Valid() && Longest(p) > TIMEOUT
    ensures 1.0 <= t0 < 2.0 && 0.0 < early <= 1.0 && early <= p.period
    ensures Uptime(SentLate(p, t0, early, p.losses + 1) + p.delay + p.duration) - 1 > BEACON_TIMEOUT
  {
    var excess, n := Longest(p) - TIMEOUT, (p.losses + 1) as real;
    var share := excess / (2.0 * n);
    assert share > 0.0 && share * n == excess / 2.0;
    early := Earlier(Earlier(1.0, p.period), share);
    t0 := 2.0 - Earlier(1.0, excess / 2.0);
    assert (share - early) * n >= 0.0;
    assert n * (Spacing(p) - early) == n * Spacing(p) - n * early;
    assert SentLate(p, t0, early, p.losses + 1) + p.delay + p.duration >= 90_002.0;
  }

  lemma LeaseLost(p: Params)
    requires p.Valid() && Longest(p) > TIMEOUT
    ensures exists steps :: GivesUp(p, steps)
  {
    var t0, early := ReadingsTooFar(p);
    Begin(p, t0);
    hide SentLate;
    var w := WaitTooLong(p, FirstHeard(), t0, early);
    ExpireShape(w.device, Uptime(w.now));
    hide Expired, FirstHeard, Spacing, Reaches, Uptime, HeardAtOne;
    Checks(p, Start(false), w);
    Witness(p, w.(place := Checked, device := Expired(w.device, Uptime(w.now))));
  }

  lemma Witness(p: Params, w: World)
    requires Reaches(p, Start(false), w) && w.device.core.lease.confirmed && !w.device.core.lease.active
    ensures exists steps :: GivesUp(p, steps)
  {
    var steps :| IsRun(p, Start(false), steps) && After(p, Start(false), steps) == w;
    assert GivesUp(p, steps);
  }

  lemma ExpireShape(device: Device, now: int)
    requires HeardAtOne(device) && now - 1 > BEACON_TIMEOUT
    ensures !Expired(device, now).core.lease.active && Expired(device, now).core.lease.confirmed
  {
    hide ListenerLease.Send;
  }

  /** A device that has accepted a beacon keeps its listener in every run if and only if the
      beacons that may be lost in a row, the delay and a poll fit into the timeout. */
  lemma ToleranceExact(p: Params)
    requires p.Valid()
    ensures (forall steps :: !GivesUp(p, steps)) <==>
            (p.losses + 1) as real * (30_000.0 + p.period) + p.delay + p.duration <= 90_000.0
  {
    if (p.losses + 1) as real * (30_000.0 + p.period) + p.delay + p.duration <= 90_000.0 {
      forall steps | IsRun(p, Start(false), steps)
        ensures !GivesUp(p, steps)
      {
        LeaseKept(p, false, steps);
      }
    } else {
      LeaseLost(p);
    }
  }

  /** Three intervals are not what the timeout tolerates: two beacons lost in a row can cost the
      listener, however short the loop's period and however fast the network and the poll are. */
  lemma TwoLossesTooMany(p: Params)
    requires p.Valid() && p.losses == 2
    ensures exists steps :: GivesUp(p, steps)
  {
    LeaseLost(p);
  }
}
