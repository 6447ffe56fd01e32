/** The queue of a device in the network: what a kept lease means for the messages. */
module NetworkQueue {
  import opened Words
  import Wire
  import opened ByteRing
  import opened FrameQueue
  import opened ListenerLease
  import opened Backend
  import DeviceRuns
  import opened DeviceEffects
  import QueueTheorems
  import N = BeaconNetwork

  /** What each step of the network does to the device, field by field. */
  lemma DeviceMoves(p: N.Params, w: N.World, step: N.Step)
    requires N.Enabled(p, w, step)
    ensures var d, e := w.device, N.Next(p, w, step).device;
            match step
            case PollStart(env) => JoinDone(d, e, env)
            case Hear(_) =>
              if d.core.lease.alwaysOn then e == d
              else
                e == d.(core := d.core.(lease := d.core.lease.(active := true, confirmed := true, consecFail := 0,
                                                               lastBeacon := w.now.Floor),
                                        log := d.core.log + [Beacon(w.now.Floor)]))
            case Takes(link) => TakeDone(d, e, N.ID, link)
            case Expiry(env) => ExpireDone(d, e, N.ID, env)
            case Resubscribe(env) => RefreshDone(d, e, N.ID, env)
            case DeviceSends(link, logType, payload) =>
              e == d.(core := e.core) && Posted(d.core, e.core, N.ID, link, logType, payload, false)
            case Logs(call) => LogDone(d, e, call)
            case _ => e == d
  {
    hide DeviceRuns.Apply, JoinDone, HearDone, TakeDone, ExpireDone, RefreshDone, LogDone, Posted, Wire.Packet;
    var op := N.OpOf(w, step);
    if step.Hear? {
      BeaconHeard(w.device, step.timestamp, N.Uptime(w.now));
    } else if op.Some? {
      ApplyIsDone(w.device, N.ID, op.value);
    }
  }

  /** What each turn of the receiver's loop does to beacons and losses. */
  lemma BeaconsMove(p: N.Params, w: N.World, lost: bool)
    requires N.Enabled(p, w, N.Loop(lost))
    ensures var w' := N.Next(p, w, N.Loop(lost));
            && w'.device == w.device && w'.lastLoop == w.now
            && if w.everSent && w.now - w.lastSent < 30_000.0
               then w'.flying == w.flying && w'.lossRun == w.lossRun && w'.lastSent == w.lastSent && w'.everSent
               else w'.everSent && w'.lastSent == w.now
                    && w'.flying == w.flying + (if lost then [] else [w.now])
                    && w'.lossRun == (if lost then w.lossRun + 1 else 0)
  {
    N.DueAfter30Seconds(w);
    hide N.BeaconDue;
  }

  lemma BeaconHeard(d: Device, timestamp: word32, time: int)
    ensures var h := Heard(Wire.Packet(0, timestamp, Wire.BEACON_TYPE, []), time);
            var e := DeviceRuns.Apply(d, N.ID, DeviceRuns.Hears(h));
            if d.core.lease.alwaysOn then e == d
            else
              e == d.(core := d.core.(lease := d.core.lease.(active := true, confirmed := true, consecFail := 0,
                                                             lastBeacon := time),
                                      log := d.core.log + [Beacon(time)]))
  {
    var h := Heard(Wire.Packet(0, timestamp, Wire.BEACON_TYPE, []), time);
    HearIsDone(d, N.ID, h);
    Wire.PacketLayout(0, timestamp, 0xFF, []);
    hide DeviceRuns.Apply, Wire.Packet;
  }

  /** Within the tolerance of LeaseKept, in every run of receiver, network and device: a device that
      has accepted a beacon never loses a frame to its own gate. The k-th turn of its drain is that of
      the k-th frame queued, and that frame counts as sent if and only if the device is attached and
      the socket takes the packet whole. */
  lemma GateDropsNothing(p: N.Params, alwaysOn: bool, steps: seq<N.Step>, link: Uplink)
    requires p.Valid() && N.IsRun(p, N.Start(alwaysOn), steps)
    requires (p.losses + 1) as real * (30_000.0 + p.period) + p.delay + p.duration <= 90_000.0
    requires N.After(p, N.Start(alwaysOn), steps).device.core.lease.confirmed
    requires WholeFrameIn(N.After(p, N.Start(alwaysOn), steps).device.ring)
    ensures var d := N.After(p, N.Start(alwaysOn), steps).device;
            var ops := N.OpsOf(p, N.Start(alwaysOn), steps);
            var put, k := QueueTheorems.PutIn(BootDevice(alwaysOn), N.ID, ops),
                          |QueueTheorems.TakenOut(BootDevice(alwaysOn), N.ID, ops)|;
            var e := DeviceRuns.Apply(d, N.ID, DeviceRuns.Takes(link));
            && k < |put| && Queueable(put[k])
            && e.core.log == d.core.log + QueueTheorems.Turn(N.ID, link, put[k])
            && (e.drainedLost == d.drainedLost <==> QueueTheorems.Gone(link, put[k]))
            && (N.After(p, N.Start(alwaysOn), steps).place.Silent? ==>
                  N.Next(p, N.After(p, N.Start(alwaysOn), steps), N.Takes(link)).device == e)
  {
    var start, ops, take := N.Start(alwaysOn), N.OpsOf(p, N.Start(alwaysOn), steps), DeviceRuns.Takes(link);
    N.LeaseKept(p, alwaysOn, steps);
    N.DeviceRunOf(p, start, steps);
    assert start.device == BootDevice(alwaysOn);
    hide N.After, N.IsRun, N.OpsOf, DeviceRuns.Run, BootDevice, WholeFrameIn, TakeOne, QueueTheorems.Turn,
      QueueTheorems.Gone, QueueTheorems.PutIn, QueueTheorems.TakenOut;
    QueueTheorems.EachTakesItsTurn(alwaysOn, N.ID, ops, link);
    DeviceRuns.RunOne(BootDevice(alwaysOn), N.ID, ops, take);
    hide DeviceRuns.Apply;
  }
}
