/**
  The Zephyr port's two C files as objects: the sender with its lease fields, and the log
  backend with its ring, accumulation buffer and counters. Each method is proved to compute
  the function of the same name in ListenerLease or Backend.
 */
module ZephyrDevice {
  import opened Words
  import opened Wire
  import opened Payloads
  import opened ByteRing
  import FrameQueue
  import opened ListenerLease
  import Backend

  class IotLog {
    const deviceId: word64
    var initialised: bool
    var level: byte
    var alwaysOn: bool
    var listenerActive: bool
    var lastBeaconMs: int
    var lastResubscribeMs: int
    var mcastJoined: bool
    var beaconConfirmed: bool
    var consecFail: word32
    var sentCount: word32
    var droppedCount: word32
    ghost var log: seq<Event>

    ghost function State(): Core
      reads this
    {
      Core(Lease(alwaysOn, listenerActive, beaconConfirmed, mcastJoined, lastBeaconMs, lastResubscribeMs, consecFail),
           sentCount, droppedCount, log)
    }

    /** The C file's static storage before the first initialisation. */
    constructor (id: word64)
      ensures !initialised && deviceId == id && State() == Boot(false)
    {
      deviceId := id;
      initialised, level, alwaysOn := false, 0, false;
      listenerActive, mcastJoined, beaconConfirmed := false, false, false;
      lastBeaconMs, lastResubscribeMs, consecFail := 0, 0, 0;
      sentCount, droppedCount, log := 0, 0, [];
    }

    /** A second initialisation is a success without effect. Otherwise all fields start afresh, but for
        the count of expiries, which is a variable of its own; without a send socket that is all, and
        without a receive socket the device cannot hear beacons and sends always. */
    method Init(level: byte, alwaysOn: bool, sendSocket: bool, receiveSocket: bool) returns (ok: bool)
      modifies this
      ensures ok == initialised == (old(initialised) || sendSocket)
      ensures old(initialised) ==> State() == old(State()) && this.level == old(this.level)
      ensures !old(initialised) ==>
                && this.level == level
                && State() == Core(Lease(alwaysOn || (sendSocket && !receiveSocket), false, false, false, 0, 0,
                                         old(consecFail)), 0, 0, [])
    {
      if initialised {
        return true;
      }
      listenerActive, mcastJoined, beaconConfirmed := false, false, false;
      lastBeaconMs, lastResubscribeMs := 0, 0;
      sentCount, droppedCount, log := 0, 0, [];
      this.level := level;
      this.alwaysOn := alwaysOn;
      if !sendSocket {
        return false;
      }
      if !receiveSocket {
        this.alwaysOn := true;
      }
      initialised := true;
      ok := true;
    }

    method Deinit()
      modifies `initialised, `listenerActive
      ensures !initialised
      ensures State() == if !old(initialised) then old(State())
                         else old(State()).(lease := old(State()).lease.(active := false))
    {
      if !initialised {
        return;
      }
      initialised := false;
      listenerActive := false;
    }

    method SendMessage(link: Uplink, logType: byte, payload: seq<byte>, force: bool) returns (ok: bool)
      modifies `sentCount, `droppedCount, `log
      ensures !initialised ==> !ok && State() == old(State())
      ensures initialised ==> State() == Send(old(State()), deviceId, link, logType, payload, force)
      ensures initialised ==> ok == Delivered(old(State()), link, payload, force)
    {
      hide Wire.Packet;
      if !initialised {
        return false;
      }
      if !link.attached {
        droppedCount := Inc32(droppedCount);
        return false;
      }
      if !alwaysOn && !listenerActive && !force {
        droppedCount := Inc32(droppedCount);
        return false;
      }
      var totalSize := HEADER_SIZE + |payload| + 2;
      if totalSize > MAX_PACKET {
        droppedCount := Inc32(droppedCount);
        return false;
      }
      var packet, total := Serialise(deviceId, link.uptime % 0x1_0000_0000, logType, payload);
      log := log + [Sent(link, packet[..total], force)];
      if link.accepted == total {
        sentCount := Inc32(sentCount);
        return true;
      } else {
        droppedCount := Inc32(droppedCount);
        return false;
      }
    }

    method SendTextForce(level: byte, message: seq<byte>, link: Uplink)
      modifies `sentCount, `droppedCount, `log
      ensures !initialised ==> State() == old(State())
      ensures initialised ==> State() == Send(old(State()), deviceId, link, TYPE_TEXT, TextPayload(level, message), true)
    {
      if !initialised {
        return;
      }
      hide ListenerLease.Send;
      var length := |message|;
      if length > 500 {
        length := 500;
      }
      var payload := [level] + message[..length];
      assert payload == TextPayload(level, message);
      var _ := SendMessage(link, TYPE_TEXT, payload, true);
    }

    method SendRaw(level: byte, message: seq<byte>, link: Uplink) returns (ok: bool)
      modifies `sentCount, `droppedCount, `log
      ensures !initialised ==> !ok && State() == old(State())
      ensures initialised ==> State() == Send(old(State()), deviceId, link, TYPE_TEXT, TextPayload(level, message), false)
      ensures initialised ==> ok == Delivered(old(State()), link, TextPayload(level, message), false)
    {
      if !initialised {
        return false;
      }
      hide ListenerLease.Send;
      var length := |message|;
      if length > 500 {
        length := 500;
      }
      var payload := [level] + message[..length];
      assert payload == TextPayload(level, message);
      ok := SendMessage(link, TYPE_TEXT, payload, false);
    }

    /** `iot_log`, its message already formatted into the 512-byte buffer. */
    method Log(level: byte, message: seq<byte>, link: Uplink)
      modifies `sentCount, `droppedCount, `log
      ensures !initialised || level > this.level ==> State() == old(State())
      ensures initialised && level <= this.level ==>
                State() == Send(old(State()), deviceId, link, TYPE_TEXT, TextPayload(level, message), false)
    {
      if !initialised || level > this.level {
        return;
      }
      hide ListenerLease.Send;
      var length := |message|;
      if length > 500 {
        length := 500;
      }
      var payload := [level] + message[..length];
      assert payload == TextPayload(level, message);
      var _ := SendMessage(link, TYPE_TEXT, payload, false);
    }

    method Metric(name: seq<byte>, value: int32, link: Uplink)
      modifies `sentCount, `droppedCount, `log
      ensures !initialised || name == [] ==> State() == old(State())
      ensures initialised && name != [] ==>
                State() == Send(old(State()), deviceId, link, TYPE_METRIC, IntMetricBytes(name, value), false)
    {
      if !initialised || name == [] {
        return;
      }
      hide ListenerLease.Send;
      var payload, length := FillIntMetric(name, value);
      var _ := SendMessage(link, TYPE_METRIC, payload[..length], false);
    }

    method MetricStr(name: seq<byte>, value: seq<byte>, link: Uplink)
      modifies `sentCount, `droppedCount, `log
      ensures !initialised || name == [] ==> State() == old(State())
      ensures initialised && name != [] ==>
                State() == Send(old(State()), deviceId, link, TYPE_METRIC, StringMetricBytes(name, value), false)
    {
      if !initialised || name == [] {
        return;
      }
      hide ListenerLease.Send;
      var payload, length := FillStringMetric(name, value);
      var _ := SendMessage(link, TYPE_METRIC, payload[..length], false);
    }

    method IsActive(attached: bool) returns (active: bool)
      ensures active == (initialised && Backend.IsActive(State(), attached))
      ensures active == (initialised && attached && (alwaysOn || listenerActive))
    {
      if !initialised || !attached {
        return false;
      }
      active := alwaysOn || listenerActive;
    }

    method DeferredJoin(env: PollEnv)
      modifies this
      ensures initialised == old(initialised) && State() == Join(old(State()), env)
    {
      if !mcastJoined && env.attachedForJoin {
        if env.subscribed {
          mcastJoined := true;
          if !alwaysOn && !listenerActive {
            listenerActive := true;
            lastBeaconMs := env.joinTime;
            log := log + [Activated(env.joinTime, false)];
          }
        }
      }
    }

    method HandleDatagram(h: Heard)
      modifies `lastBeaconMs, `listenerActive, `beaconConfirmed, `consecFail, `log
      ensures State() == HearOne(old(State()), h)
    {
      if IsBeacon(h.datagram) {
        lastBeaconMs := h.time;
        listenerActive := true;
        beaconConfirmed := true;
        consecFail := 0;
        log := log + [Beacon(h.time)];
      }
    }

    /** Handles what is pending in the receive socket, up to an empty datagram. */
    method CheckForBeacons(pending: seq<Heard>)
      modifies `lastBeaconMs, `listenerActive, `beaconConfirmed, `consecFail, `log
      ensures State() == HearAll(old(State()), BeforeEmpty(pending))
    {
      var i := 0;
      ghost var c := State();
      while i < |pending|
        invariant i <= |pending| && State() == c
        invariant BeforeEmpty(pending) == pending[..i] + BeforeEmpty(pending[i..])
        invariant c == HearAll(old(State()), pending[..i])
      {
        if pending[i].datagram == [] {
          break;
        }
        BeforeEmptyStep(pending, i);
        HearOneMore(old(State()), pending[..i], pending[i]);
        c := HearOne(c, pending[i]);
        HandleDatagram(pending[i]);
        i := i + 1;
      }
      assert BeforeEmpty(pending[i..]) == [];
      assert pending[..i] + [] == pending[..i];
    }

    method ExpireListener(env: PollEnv)
      requires initialised && !alwaysOn
      modifies this
      ensures initialised && State() == Expire(old(State()), deviceId, env)
    {
      if listenerActive && lastBeaconMs > 0 {
        var elapsed := env.checkTime - lastBeaconMs;
        var timeout := if beaconConfirmed then 90 * 1000 else 60 * 1000;
        if elapsed > timeout {
          var logThis := consecFail < 2 || consecFail % HEARTBEAT_CYCLES == 0;
          if logThis {
            log := log + [SilentBanner(env.checkTime)];
            SendTextForce(LEVEL_INFO, env.silentText, env.silentLink);
          }
          listenerActive := false;
          lastResubscribeMs := env.silentTime;
          log := log + [Expired(env.checkTime)];
          consecFail := Inc32(consecFail);
        }
      }
    }

    method RefreshSubscription(env: PollEnv)
      requires initialised && !alwaysOn
      modifies this
      ensures initialised && State() == Refresh(old(State()), deviceId, env)
    {
      if !listenerActive && mcastJoined && env.attachedForRefresh {
        var now := env.refreshTime;
        if lastResubscribeMs == 0 || now - lastResubscribeMs >= 120 * 1000 {
          if env.refreshed {
            lastResubscribeMs := now;
            lastBeaconMs := now;
            listenerActive := true;
            log := log + [Activated(now, true)];
            var logThis := consecFail < 2 || consecFail % HEARTBEAT_CYCLES == 0;
            if logThis {
              log := log + [RefreshBanner(now)];
              SendTextForce(LEVEL_INFO, env.refreshText, env.refreshLink);
            }
          }
        }
      }
    }

    method BeforeDrain(env: PollEnv)
      modifies this
      ensures initialised == old(initialised) && State() == CheckBeacons(Join(old(State()), env), env.pending)
    {
      DeferredJoin(env);
      if !alwaysOn {
        CheckForBeacons(env.pending);
      }
    }

    method AfterDrain(env: PollEnv)
      requires initialised
      modifies this
      ensures initialised && State() == Refresh(Expire(old(State()), deviceId, env), deviceId, env)
    {
      hide ListenerLease.Send;
      if !alwaysOn {
        ExpireListener(env);
        RefreshSubscription(env);
      }
    }
  }

  class LogBackend {
    const ring: Ring
    const msgBuf: array<byte>
    var msgPos: nat
    var calls: word32
    var bailInactive: word32
    var bailNoFmt: word32
    var bailZeroLen: word32
    var queued: word32
    var ringFull: word32
    var bailSelf: word32
    ghost var drainedSent: nat
    ghost var drainedLost: nat

    ghost predicate Valid()
      reads this, ring, ring.cells, msgBuf
    {
      ring.Valid() && msgBuf.Length == 500 && msgPos <= 499 && msgBuf != ring.cells
    }

    ghost function Text(): seq<byte>
      requires Valid()
      reads this, ring, ring.cells, msgBuf
    {
      msgBuf[..msgPos]
    }

    ghost function Tally(): Backend.Counters
      reads this
    {
      Backend.Counters(calls, bailInactive, bailNoFmt, bailZeroLen, queued, ringFull, bailSelf)
    }

    constructor ()
      ensures Valid() && fresh(ring) && fresh(ring.cells) && fresh(msgBuf)
      ensures ring.Contents() == [] && Tally() == Backend.Counters(0, 0, 0, 0, 0, 0, 0)
      ensures drainedSent == 0 && drainedLost == 0
    {
      ring := new Ring();
      msgBuf := new byte[500](_ => 0);
      msgPos := 0;
      calls, bailInactive, bailNoFmt, bailZeroLen := 0, 0, 0, 0;
      queued, ringFull, bailSelf := 0, 0, 0;
      drainedSent, drainedLost := 0, 0;
    }

    method CharOut(data: seq<byte>)
      requires Valid()
      modifies this`msgPos, msgBuf
      ensures Valid() && Text() == Backend.Collect(old(Text()), data)
    {
      var i := 0;
      while i < |data| && msgPos < 499
        invariant i <= |data| && Valid()
        invariant Backend.Collect(Text(), data[i..]) == Backend.Collect(old(Text()), data)
      {
        ghost var before := Text();
        assert data[i..][1..] == data[i + 1..];
        if data[i] != 10 && data[i] != 13 {
          msgBuf[msgPos] := data[i];
          msgPos := msgPos + 1;
          assert Text() == before + [data[i]];
        }
        i := i + 1;
      }
      assert i == |data| ==> data[i..] == [];
    }

    /** The formatter: it calls `char_out` with pieces of its own choosing. */
    method Format(chunks: seq<seq<byte>>)
      requires Valid()
      modifies this`msgPos, msgBuf
      ensures Valid() && Text() == Backend.CollectAll(old(Text()), chunks)
    {
      assert chunks[0..] == chunks;
      for i := 0 to |chunks|
        invariant Valid()
        invariant Backend.CollectAll(Text(), chunks[i..]) == Backend.CollectAll(old(Text()), chunks)
      {
        assert chunks[i..][1..] == chunks[i + 1..];
        CharOut(chunks[i]);
      }
    }

    /** A sender that is not initialised is inactive, whatever its attachment. */
    method Process(log: IotLog, call: Backend.LogCall)
      requires Valid()
      modifies this, msgBuf, ring, ring.cells
      ensures Valid()
      ensures DeviceOf(log, this) ==
              Backend.Process(old(DeviceOf(log, this)), call.(attached := log.initialised && call.attached))
    {
      hide Inc32, Backend.TransportChatter, Backend.MapLevel, Backend.Collect, Backend.CollectAll, Backend.Admit, Ring.Contents;
      calls := Inc32(calls);
      var active := log.IsActive(call.attached);
      if !active {
        bailInactive := Inc32(bailInactive);
        return;
      }
      if call.ownTransport {
        bailSelf := Inc32(bailSelf);
        return;
      }
      msgPos := 0;
      if !call.formatter {
        bailNoFmt := Inc32(bailNoFmt);
        return;
      }
      Format(call.chunks);
      Admit(log, Backend.MapLevel(call.level));
    }

    method Admit(log: IotLog, level: byte)
      requires Valid()
      modifies `queued, `ringFull, `bailZeroLen, `bailSelf, ring, ring.cells
      ensures Valid() && log.State() == old(log.State())
      ensures DeviceOf(log, this) == Backend.Admit(old(DeviceOf(log, this)), old(Text()), level)
    {
      if msgPos == 0 {
        bailZeroLen := Inc32(bailZeroLen);
        return;
      }
      var text := msgBuf[..msgPos];
      if Backend.TransportChatter(text) {
        bailSelf := Inc32(bailSelf);
        return;
      }
      Enqueue(level, text);
    }

    /** Header and text go in as two puts, once there is room for both. */
    method Enqueue(level: byte, text: seq<byte>)
      requires Valid() && |text| < 0x1_0000
      modifies `queued, `ringFull, ring, ring.cells
      ensures Valid()
      ensures var frame, before := FrameQueue.Encode(FrameQueue.Frame(level, text)), old(ring.Contents());
              if RING_SIZE - |before| >= |frame| then
                && ring.Contents() == before + frame
                && queued == Inc32(old(queued)) && ringFull == old(ringFull)
              else ring.Contents() == before && queued == old(queued) && ringFull == Inc32(old(ringFull))
    {
      var length: word16 := |text|;
      var header := [level, length / 256, length % 256];
      if ring.Space() >= 3 + length {
        var n := ring.Put(header);
        assert header[..3] == header;
        n := ring.Put(text);
        assert text[..length] == text;
        queued := Inc32(queued);
      } else {
        ringFull := Inc32(ringFull);
      }
    }

    /** Sends every whole frame in the ring, whatever the ring holds. */
    method Drain(log: IotLog, links: nat -> Uplink)
      requires Valid() && log.initialised
      modifies ring, log`sentCount, log`droppedCount, log`log, `drainedSent, `drainedLost
      ensures Valid()
      ensures DeviceOf(log, this) == Backend.Drain(old(DeviceOf(log, this)), log.deviceId, links, 0)
    {
      var k := 0;
      ghost var d := DeviceOf(log, this);
      while ring.Size() >= 3
        invariant Valid() && DeviceOf(log, this) == d
        invariant Backend.Drain(d, log.deviceId, links, k) == Backend.Drain(old(DeviceOf(log, this)), log.deviceId, links, 0)
        decreases ring.Size()
      {
        var header := ring.Peek(3);
        var length := (header[1] as int) * 256 + (header[2] as int);
        if ring.Size() < 3 + length {
          break;
        }
        d := Backend.TakeOne(d, log.deviceId, links(k));
        SendFront(log, header[0], length, links(k));
        k := k + 1;
      }
    }

    method SendFront(log: IotLog, level: byte, length: word16, link: Uplink)
      requires Valid() && log.initialised
      requires Backend.WholeFrameIn(ring.Contents())
      requires level == ring.Contents()[0] && length == FrameQueue.HeaderLength(ring.Contents())
      modifies ring, log`sentCount, log`droppedCount, log`log, `drainedSent, `drainedLost
      ensures Valid() && |ring.Contents()| < |old(ring.Contents())|
      ensures DeviceOf(log, this) == Backend.TakeOne(old(DeviceOf(log, this)), log.deviceId, link)
    {
      hide ListenerLease.Send;
      ghost var before, held := log.State(), ring.Contents();
      var text := TakeFront(length);
      assert log.State() == before;
      ghost var payload := TextPayload(level, held[3..3 + Least(length, 500)]);
      var ok := log.SendRaw(level, text, link);
      assert log.State() == Send(before, log.deviceId, link, TYPE_TEXT, payload, false);
      assert ring.Contents() == held[3 + length..];
      if ok {
        drainedSent := drainedSent + 1;
      } else {
        drainedLost := drainedLost + 1;
      }
    }

    /** Gets header and text of the front frame; text past the 500-byte buffer is thrown away. */
    method TakeFront(length: word16) returns (text: seq<byte>)
      requires Valid() && |ring.Contents()| >= 3 + length
      modifies ring
      ensures Valid()
      ensures text == old(ring.Contents())[3..3 + Least(length, 500)]
      ensures ring.Contents() == old(ring.Contents())[3 + length..]
    {
      ghost var held := ring.Contents();
      var toRead := if length > 500 then 500 else length;
      Slices(held, toRead, length);
      var header := ring.Get(3);
      text := ring.Get(toRead);
      Discard(length - toRead);
    }

    /** Throws away the rest of an over-long message, 64 bytes at a time. */
    method Discard(count: nat)
      requires Valid() && count <= |ring.Contents()|
      modifies ring
      ensures Valid() && ring.Contents() == old(ring.Contents())[count..]
    {
      ghost var held := ring.Contents();
      var remaining: nat := count;
      while remaining > 0
        invariant Valid() && 0 <= remaining <= count <= |held|
        invariant ring.Contents() == held[count - remaining..]
      {
        var chunk := if remaining > 64 then 64 else remaining;
        var _ := ring.Get(chunk);
        remaining := remaining - chunk;
      }
    }
  }

  lemma Slices(held: seq<byte>, n: nat, length: nat)
    requires n <= length && 3 + length <= |held|
    ensures held[3..][..n] == held[3..3 + n] && held[3..][n..][length - n..] == held[3 + length..]
  {
  }

  ghost function DeviceOf(log: IotLog, backend: LogBackend): Backend.Device
    requires backend.Valid()
    reads log, backend, backend.ring, backend.ring.cells, backend.msgBuf
  {
    Backend.Device(log.State(), backend.ring.Contents(), backend.Tally(), backend.drainedSent, backend.drainedLost)
  }

  method Poll(log: IotLog, backend: LogBackend, env: PollEnv)
    requires backend.Valid()
    modifies log, backend`drainedSent, backend`drainedLost, backend.ring
    ensures backend.Valid() && log.initialised == old(log.initialised)
    ensures !log.initialised ==> DeviceOf(log, backend) == old(DeviceOf(log, backend))
    ensures log.initialised ==> DeviceOf(log, backend) == Backend.Poll(old(DeviceOf(log, backend)), log.deviceId, env)
  {
    if !log.initialised {
      return;
    }
    hide ListenerLease.Join, ListenerLease.CheckBeacons, ListenerLease.Expire, ListenerLease.Refresh, Backend.Drain, Backend.TakeOne;
    log.BeforeDrain(env);
    backend.Drain(log, env.drainLinks);
    log.AfterDrain(env);
  }
}
