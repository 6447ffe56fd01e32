/**
  What each phase of a Zephyr device does, in every run: exactly which fields move, which events
  the history gains and what the packets on the wire say, written out in numbers, fields and bytes.
 */
module DeviceEffects {
  import opened Words
  import opened Crc
  import opened Wire
  import opened Payloads
  import opened Receiver
  import opened Delivery
  import opened ByteRing
  import opened FrameQueue
  import opened ListenerLease
  import opened LeaseHistory
  import opened Backend
  import opened DeviceRuns
  import PollRuns
  import QueueTheorems

  /* ---- one message ---- */

  /** The history has grown by the handing over of one such packet. */
  predicate Handed(before: seq<Event>, after: seq<Event>, id: word64, link: Uplink, logType: byte, payload: seq<byte>,
                   force: bool)
  {
    && |after| == |before| + 1 && after[..|before|] == before
    && after[|before|].Sent? && after[|before|].link == link && after[|before|].force == force
    && Carries(after[|before|].packet, id, link.uptime % 0x1_0000_0000, logType, payload)
  }

  /** d is c after one call of the sender: the packet leaves if the device is attached, somebody is
      assumed to listen or the send is forced, and 1024 bytes hold it; it counts as sent if the socket
      took it whole, and in every other case as dropped. */
  predicate Posted(c: Core, d: Core, id: word64, link: Uplink, logType: byte, payload: seq<byte>, force: bool) {
    var goes := link.attached && (c.lease.alwaysOn || c.lease.active || force) && |payload| <= 1004;
    && d.lease == c.lease
    && (if goes then Handed(c.log, d.log, id, link, logType, payload, force) else d.log == c.log)
    && (if goes && link.accepted == |payload| + 20
        then d.sent == (c.sent + 1) % 0x1_0000_0000 && d.dropped == c.dropped
        else d.sent == c.sent && d.dropped == (c.dropped + 1) % 0x1_0000_0000)
  }

  lemma SendPosts(c: Core, id: word64, link: Uplink, logType: byte, payload: seq<byte>, force: bool)
    ensures Posted(c, Send(c, id, link, logType, payload, force), id, link, logType, payload, force)
  {
    hide Packet, Carries;
    if |payload| <= 1004 {
      PacketCarries(id, link.uptime % 0x1_0000_0000, logType, payload);
    }
  }

  /** The sender reports a success exactly for what it counts as sent. */
  lemma DeliveredIff(c: Core, id: word64, link: Uplink, logType: byte, payload: seq<byte>, force: bool)
    ensures Delivered(c, link, payload, force) <==>
            link.attached && (c.lease.alwaysOn || c.lease.active || force) && |payload| <= 1004
            && link.accepted == |payload| + 20
    ensures Delivered(c, link, payload, force) <==> Send(c, id, link, logType, payload, force).sent != c.sent
  {
    hide Packet;
  }

  /* ---- the phases ---- */

  /** The first join that succeeds assumes a listener, unless the device sends always or knows one. */
  predicate JoinDone(d: Device, e: Device, env: PollEnv) {
    var c, l := d.core, d.core.lease;
    if l.joined || !env.attachedForJoin || !env.subscribed then e == d
    else if l.alwaysOn || l.active then e == d.(core := c.(lease := l.(joined := true)))
    else
      e == d.(core := c.(lease := l.(joined := true, active := true, lastBeacon := env.joinTime),
                         log := c.log + [Activated(env.joinTime, false)]))
  }

  /** A beacon is 20 bytes or more that open with the magic number and have 0xFF for a type. */
  predicate BeaconBytes(s: seq<byte>) { |s| >= 20 && s[0] == 0x10 && s[1] == 0xE5 && s[15] == 0xFF }

  predicate HearDone(d: Device, e: Device, h: Heard) {
    var c, l := d.core, d.core.lease;
    if l.alwaysOn || !BeaconBytes(h.datagram) then e == d
    else
      e == d.(core := c.(lease := l.(active := true, confirmed := true, lastBeacon := h.time, consecFail := 0),
                         log := c.log + [Beacon(h.time)]))
  }

  /** The ring opens with level and length, high byte first, and holds that many bytes more. */
  predicate FrameWaits(ring: seq<byte>) { |ring| >= 3 && |ring| >= 3 + 256 * (ring[1] as int) + ring[2] }

  /** Text past 500 bytes is thrown away. */
  predicate TakeDone(d: Device, e: Device, id: word64, link: Uplink) {
    if !FrameWaits(d.ring) then e == d
    else
      var n := 256 * (d.ring[1] as int) + d.ring[2];
      var text := d.ring[3..3 + (if n < 500 then n else 500)];
      var gone := link.attached && (d.core.lease.alwaysOn || d.core.lease.active) && link.accepted == |text| + 21;
      && Posted(d.core, e.core, id, link, 1, [d.ring[0]] + text, false)
      && e.ring == d.ring[3 + n..] && e.counters == d.counters
      && e.drainedSent == d.drainedSent + (if gone then 1 else 0)
      && e.drainedLost == d.drainedLost + (if gone then 0 else 1)
  }

  predicate ToldNow(l: Lease) { l.consecFail < 2 || l.consecFail % 60 == 0 }

  /** Past 90 s without a beacon, or 60 s if there never was one, the listener is given up; the first
      two times and every sixtieth the device says so first, as an info text by the forced path. */
  predicate ExpireDone(d: Device, e: Device, id: word64, env: PollEnv) {
    var c, l := d.core, d.core.lease;
    if l.alwaysOn || !l.active || l.lastBeacon <= 0
       || env.checkTime - l.lastBeacon <= (if l.confirmed then 90_000 else 60_000) then e == d
    else
      && e == d.(core := e.core) && e.core.log != []
      && e.core.lease == l.(active := false, lastResubscribe := env.silentTime,
                            consecFail := (l.consecFail + 1) % 0x1_0000_0000)
      && e.core.log[|e.core.log| - 1] == Expired(env.checkTime)
      && var told := e.core.(lease := l, log := e.core.log[..|e.core.log| - 1]);
         if ToldNow(l) then
           Posted(c.(log := c.log + [SilentBanner(env.checkTime)]), told, id, env.silentLink, 1, [3] + env.silentText,
                  true)
         else told == c
  }

  /** An idle device that has joined, is attached, and whose last time on record is 120 s past, or
      none, subscribes again and, that done, assumes a listener; it says so in the same cycles. */
  predicate RefreshDone(d: Device, e: Device, id: word64, env: PollEnv) {
    var c, l, now := d.core, d.core.lease, env.refreshTime;
    if l.alwaysOn || l.active || !l.joined || !env.attachedForRefresh || !env.refreshed
       || (l.lastResubscribe != 0 && now - l.lastResubscribe < 120_000) then e == d
    else
      var up := c.(lease := l.(active := true, lastBeacon := now, lastResubscribe := now),
                   log := c.log + [Activated(now, true)]);
      && e == d.(core := e.core)
      && if ToldNow(l) then
           Posted(up.(log := up.log + [RefreshBanner(now)]), e.core, id, env.refreshLink, 1, [3] + env.refreshText,
                  true)
         else e.core == up
  }

  /** "[x] Mac…" and "[x] MeshForwarder…" */
  predicate ChatterBytes(text: seq<byte>) {
    && |text| > 4 && text[0] == 91 && text[2] == 93 && text[3] == 32
    && ([77, 97, 99] <= text[4..] || [77, 101, 115, 104, 70, 111, 114, 119, 97, 114, 100, 101, 114] <= text[4..])
  }

  /** A log call is counted once more as a call and once by what became of it; the text is the first
      499 bytes but line breaks. A frame goes in whole, under the call's level, 5 if it is not 1 to 4. */
  predicate LogDone(d: Device, e: Device, call: LogCall) {
    var text := Cut(WithoutBreaks(Joined(call.chunks)), 499);
    var n, ring := e.counters, e.ring;
    var level: byte := if 1 <= call.level <= 4 then call.level else 5;
    var m := d.counters.(calls := (d.counters.calls + 1) % 0x1_0000_0000);
    && e == d.(ring := ring, counters := n)
    && if !call.attached || !(d.core.lease.alwaysOn || d.core.lease.active)
       then ring == d.ring && n == m.(inactive := (m.inactive + 1) % 0x1_0000_0000)
       else if call.ownTransport || (call.formatter && ChatterBytes(text))
       then ring == d.ring && n == m.(self := (m.self + 1) % 0x1_0000_0000)
       else if !call.formatter
       then ring == d.ring && n == m.(noFormatter := (m.noFormatter + 1) % 0x1_0000_0000)
       else if text == []
       then ring == d.ring && n == m.(zeroLength := (m.zeroLength + 1) % 0x1_0000_0000)
       else if |d.ring| + 3 + |text| > 2048
       then ring == d.ring && n == m.(ringFull := (m.ringFull + 1) % 0x1_0000_0000)
       else ring == d.ring + [level, |text| / 256, |text| % 256] + text
            && n == m.(queued := (m.queued + 1) % 0x1_0000_0000)
  }

  predicate Done(d: Device, e: Device, id: word64, op: Op) {
    match op
    case Joins(env) => JoinDone(d, e, env)
    case Hears(h) => HearDone(d, e, h)
    case Takes(link) => TakeDone(d, e, id, link)
    case Expires(env) => ExpireDone(d, e, id, env)
    case Refreshes(env) => RefreshDone(d, e, id, env)
    case Sends(link, logType, payload) =>
      e == d.(core := e.core) && Posted(d.core, e.core, id, link, logType, payload, false)
    case Logs(call) => LogDone(d, e, call)
  }

  /* ---- what the model does is that ---- */

  lemma HearIsDone(d: Device, id: word64, h: Heard)
    ensures HearDone(d, Apply(d, id, Hears(h)), h)
  {
    assert IsBeacon(h.datagram) <==> BeaconBytes(h.datagram);
    hide IsBeacon, BeaconBytes;
  }

  lemma TakeIsDone(d: Device, id: word64, link: Uplink)
    ensures TakeDone(d, Apply(d, id, Takes(link)), id, link)
  {
    hide ListenerLease.Send, Posted;
    if FrameWaits(d.ring) {
      var n := 256 * (d.ring[1] as int) + d.ring[2];
      var text := d.ring[3..3 + (if n < 500 then n else 500)];
      SendPosts(d.core, id, link, 1, [d.ring[0]] + text, false);
      assert TextPayload(d.ring[0], text) == [d.ring[0]] + text;
    }
  }

  lemma ExpireIsDone(d: Device, id: word64, env: PollEnv)
    ensures ExpireDone(d, Apply(d, id, Expires(env)), id, env)
  {
    hide ListenerLease.Send, TextPayload, Posted;
    var l := d.core.lease;
    if !l.alwaysOn && TimesOut(l, env.checkTime) {
      var told := ExpiryTells(d, id, env);
      hide Apply, ToldNow;
      ToldThenExpired(d, Apply(d, id, Expires(env)), told, id, env);
    }
  }

  /** The core between the banner and the expiry. */
  lemma ExpiryTells(d: Device, id: word64, env: PollEnv) returns (told: Core)
    requires !d.core.lease.alwaysOn && TimesOut(d.core.lease, env.checkTime)
    ensures Apply(d, id, Expires(env)) == Expiring(d, told, env) && told.lease == d.core.lease
    ensures if ToldNow(d.core.lease) then
              Posted(d.core.(log := d.core.log + [SilentBanner(env.checkTime)]), told, id, env.silentLink, 1,
                     [3] + env.silentText, true)
            else told == d.core
  {
    var c := d.core.(log := d.core.log + [SilentBanner(env.checkTime)]);
    assert TextPayload(LEVEL_INFO, env.silentText) == [3] + env.silentText;
    hide ListenerLease.Send, TextPayload, Posted;
    SendPosts(c, id, env.silentLink, 1, [3] + env.silentText, true);
    SendKeeps(c, id, env.silentLink, 1, [3] + env.silentText, true);
    told := if ToldNow(d.core.lease) then Send(c, id, env.silentLink, 1, [3] + env.silentText, true) else d.core;
  }

  function Expiring(d: Device, told: Core, env: PollEnv): Device {
    var l := d.core.lease;
    d.(core := told.(lease := l.(active := false, lastResubscribe := env.silentTime,
                                 consecFail := (l.consecFail + 1) % 0x1_0000_0000),
                     log := told.log + [Expired(env.checkTime)]))
  }

  lemma ToldThenExpired(d: Device, e: Device, told: Core, id: word64, env: PollEnv)
    requires e == Expiring(d, told, env) && told.lease == d.core.lease
    requires !d.core.lease.alwaysOn && TimesOut(d.core.lease, env.checkTime)
    requires if ToldNow(d.core.lease) then
               Posted(d.core.(log := d.core.log + [SilentBanner(env.checkTime)]), told, id, env.silentLink, 1,
                      [3] + env.silentText, true)
             else told == d.core
    ensures ExpireDone(d, e, id, env)
  {
    hide Posted, ToldNow;
    assert e.core.log[..|e.core.log| - 1] == told.log;
    assert e.core.(lease := d.core.lease, log := told.log) == told;
  }

  lemma SendKeeps(c: Core, id: word64, link: Uplink, logType: byte, payload: seq<byte>, force: bool)
    ensures Send(c, id, link, logType, payload, force).lease == c.lease
  {
  }

  lemma RefreshIsDone(d: Device, id: word64, env: PollEnv)
    ensures RefreshDone(d, Apply(d, id, Refreshes(env)), id, env)
  {
    var c, now := d.core, env.refreshTime;
    var up := c.(lease := c.lease.(active := true, lastBeacon := now, lastResubscribe := now),
                 log := c.log + [Activated(now, true)]);
    assert TextPayload(LEVEL_INFO, env.refreshText) == [3] + env.refreshText;
    SendPosts(up.(log := up.log + [RefreshBanner(now)]), id, env.refreshLink, 1, [3] + env.refreshText, true);
    hide ListenerLease.Send, TextPayload, Posted;
  }

  lemma LogIsDone(d: Device, id: word64, call: LogCall)
    ensures LogDone(d, Apply(d, id, Logs(call)), call)
  {
    QueueTheorems.ChunkingIrrelevant(call.chunks);
    var text := MessageText(call.chunks);
    assert TransportChatter(text) <==> ChatterBytes(text);
    assert Encode(Frame(MapLevel(call.level), text)) ==
           [if 1 <= call.level <= 4 then call.level else 5, |text| / 256, |text| % 256] + text;
    hide CollectAll, WithoutBreaks, Joined, Cut, TransportChatter, ChatterBytes, Encode;
  }

  /** Every operation, at the end of every run, does exactly what is written out above. */
  lemma StepExact(start: Device, id: word64, ops: seq<Op>, op: Op)
    ensures Done(Run(start, id, ops), Run(start, id, ops + [op]), id, op)
  {
    RunOne(start, id, ops, op);
    hide Run;
    ApplyIsDone(Run(start, id, ops), id, op);
    hide Apply, Done;
  }

  lemma ApplyIsDone(d: Device, id: word64, op: Op)
    ensures Done(d, Apply(d, id, op), id, op)
  {
    match op
    case Joins(env) =>
    case Hears(h) => HearIsDone(d, id, h); hide HearDone, Apply;
    case Takes(link) => TakeIsDone(d, id, link); hide TakeDone, Apply;
    case Expires(env) => ExpireIsDone(d, id, env); hide ExpireDone, Apply;
    case Refreshes(env) => RefreshIsDone(d, id, env); hide RefreshDone, Apply;
    case Sends(link, logType, payload) =>
      SendPosts(d.core, id, link, logType, payload, false); hide ListenerLease.Send, Posted;
    case Logs(call) => LogIsDone(d, id, call); hide LogDone, Apply;
  }

  /* ---- what listens again, and what is said ---- */

  /** In every timed run in discovery mode: an idle device that has joined re-subscribes at the first
      attached, successful attempt that comes 120 s after the time recorded at its expiry, and assumes
      a listener from then; in every other state the attempt changes nothing. */
  lemma RefreshExact(id: word64, start: int, ops: seq<Op>, gap: int, env: PollEnv)
    requires Timed(start, ops, gap)
    ensures var d, e := Run(BootDevice(false), id, ops), Run(BootDevice(false), id, ops + [Refreshes(env)]);
            var l, now := d.core.lease, env.refreshTime;
            if l.joined && !l.active && env.attachedForRefresh && env.refreshed
               && now - l.lastResubscribe >= 120_000 then
              && e == d.(core := e.core)
              && e.core.lease == l.(active := true, lastBeacon := now, lastResubscribe := now)
              && d.core.log + [Activated(now, true)] <= e.core.log
            else e == d
  {
    hide Run, BootDevice, Timed, ClockAfter, Good, RefreshDone;
    var d, e := Run(BootDevice(false), id, ops), Run(BootDevice(false), id, ops + [Refreshes(env)]);
    RunGood(id, start, ops, gap);
    JoinedAndIdle(d.core, ClockAfter(start, ops).now, ClockAfter(start, ops).check, gap);
    StepExact(BootDevice(false), id, ops, Refreshes(env));
    assert RefreshDone(d, e, id, env);
    RefreshFromIdle(d, e, id, env);
  }

  lemma RefreshFromIdle(d: Device, e: Device, id: word64, env: PollEnv)
    requires RefreshDone(d, e, id, env) && !d.core.lease.alwaysOn
    requires d.core.lease.joined && !d.core.lease.active ==> d.core.lease.lastResubscribe > 0
    ensures var l, now := d.core.lease, env.refreshTime;
            if l.joined && !l.active && env.attachedForRefresh && env.refreshed
               && now - l.lastResubscribe >= 120_000 then
              && e == d.(core := e.core)
              && e.core.lease == l.(active := true, lastBeacon := now, lastResubscribe := now)
              && d.core.log + [Activated(now, true)] <= e.core.log
            else e == d
  {
    hide Carries, ToldNow;
    var up := d.core.log + [Activated(env.refreshTime, true)];
    if |up| <= |e.core.log| {
      assert e.core.log[..|up|] == up ==> up <= e.core.log;
    }
  }

  lemma JoinedAndIdle(c: Core, now: int, check: int, gap: int)
    requires Good(c, now, check, gap)
    ensures !c.lease.alwaysOn && (c.lease.joined && !c.lease.active ==> c.lease.lastResubscribe > 0)
  {
  }

  /** These events are a banner and, if the device is attached, the packet from which the receiver
      reads it as an info text. */
  predicate Announcement(events: seq<Event>, banner: Event, id: word64, link: Uplink, text: seq<byte>) {
    && |events| == (if link.attached then 2 else 1) && events[0] == banner
    && (link.attached ==>
          && events[1].Sent? && events[1].link == link && events[1].force
          && var m := Reading(events[1].packet);
             m.Some? && m.value.header.deviceId == id && m.value.header.timestamp == link.uptime % 0x1_0000_0000
             && m.value.parsed == Text(3, text))
  }

  lemma BannerPosted(c: Core, d: Core, banner: Event, id: word64, link: Uplink, text: seq<byte>)
    requires 0 < |text| <= 95
    requires Posted(c.(log := c.log + [banner]), d, id, link, 1, [3] + text, true)
    ensures |c.log| < |d.log| && d.log[..|c.log|] == c.log && d.lease == c.lease
    ensures Announcement(d.log[|c.log|..], banner, id, link, text)
  {
    var more := c.log + [banner];
    if link.attached {
      TextCarried(d.log[|more|].packet, id, link.uptime % 0x1_0000_0000, 3, text);
      hide Carries, Reading;
      assert d.log[..|c.log|] == more[..|c.log|] && d.log[|c.log|] == more[|c.log|];
    } else {
      hide Carries, Reading;
    }
  }

  /** An expiry gains the history the banner, its packet if the device is attached, and the expiry in
      the cycles that are announced, and the expiry alone in the others. */
  lemma ExpiryIsAnnounced(start: Device, id: word64, ops: seq<Op>, env: PollEnv)
    ensures var c, d := Run(start, id, ops).core, Run(start, id, ops + [Expires(env)]).core;
            d == c || (
              && |d.log| > |c.log| && d.log[|d.log| - 1] == Expired(env.checkTime) && d.log[..|c.log|] == c.log
              && var told := d.log[|c.log|..|d.log| - 1];
                 if ToldNow(c.lease) then
                   Announcement(told, SilentBanner(env.checkTime), id, env.silentLink, env.silentText)
                 else told == [])
  {
    var d, e := Run(start, id, ops), Run(start, id, ops + [Expires(env)]);
    StepExact(start, id, ops, Expires(env));
    assert ExpireDone(d, e, id, env);
    hide Run, ToldNow, ExpireDone, Announcement, Done;
    if d.core != e.core {
      ExpireAnnounced(d, e, id, env);
    }
  }

  /** A re-subscription gains it the activation and, in the same cycles, banner and packet. */
  lemma RefreshIsAnnounced(start: Device, id: word64, ops: seq<Op>, env: PollEnv)
    ensures var c, d := Run(start, id, ops).core, Run(start, id, ops + [Refreshes(env)]).core;
            d == c || (
              && |d.log| > |c.log| && d.log[..|c.log|] == c.log && d.log[|c.log|] == Activated(env.refreshTime, true)
              && var told := d.log[|c.log| + 1..];
                 if ToldNow(c.lease) then
                   Announcement(told, RefreshBanner(env.refreshTime), id, env.refreshLink, env.refreshText)
                 else told == [])
  {
    var d, e := Run(start, id, ops), Run(start, id, ops + [Refreshes(env)]);
    StepExact(start, id, ops, Refreshes(env));
    assert RefreshDone(d, e, id, env);
    hide Run, ToldNow, RefreshDone, Announcement, Done;
    if d.core != e.core {
      RefreshAnnounced(d, e, id, env);
    }
  }

  lemma ExpireAnnounced(d: Device, e: Device, id: word64, env: PollEnv)
    requires ExpireDone(d, e, id, env) && d.core != e.core
    ensures var before, after := d.core.log, e.core.log;
            && |after| > |before| && after[|after| - 1] == Expired(env.checkTime) && after[..|before|] == before
            && var told := after[|before|..|after| - 1];
               if ToldNow(d.core.lease) then
                 Announcement(told, SilentBanner(env.checkTime), id, env.silentLink, env.silentText)
               else told == []
  {
    var told := e.core.(lease := d.core.lease, log := e.core.log[..|e.core.log| - 1]);
    if ToldNow(d.core.lease) {
      BannerPosted(d.core, told, SilentBanner(env.checkTime), id, env.silentLink, env.silentText);
      hide Posted, Announcement;
      assert told.log[..|d.core.log|] == e.core.log[..|d.core.log|];
      assert told.log[|d.core.log|..] == e.core.log[|d.core.log|..|e.core.log| - 1];
    } else {
      hide Posted, Announcement;
      assert e.core.log[..|d.core.log|] == told.log;
    }
  }

  lemma RefreshAnnounced(d: Device, e: Device, id: word64, env: PollEnv)
    requires RefreshDone(d, e, id, env) && d.core != e.core
    ensures var before, after, now := d.core.log, e.core.log, env.refreshTime;
            && |after| > |before| && after[..|before|] == before && after[|before|] == Activated(now, true)
            && var told := after[|before| + 1..];
               if ToldNow(d.core.lease) then Announcement(told, RefreshBanner(now), id, env.refreshLink, env.refreshText)
               else told == []
  {
    var before, now := d.core.log, env.refreshTime;
    var up := d.core.(lease := d.core.lease.(active := true, lastBeacon := now, lastResubscribe := now),
                      log := before + [Activated(now, true)]);
    if ToldNow(d.core.lease) {
      BannerPosted(up, e.core, RefreshBanner(now), id, env.refreshLink, env.refreshText);
      hide Posted, Announcement;
      assert e.core.log[..|before|] == up.log[..|before|] && e.core.log[|before|] == up.log[|before|];
    } else {
      hide Posted, Announcement;
    }
  }

  /* ---- a poll ---- */

  /** A poll in a run of whole polls: the join, then one step per datagram up to the first empty one,
      then one turn of the drain per frame until none is left, then expiry and refresh. */
  lemma PollExact(start: Device, id: word64, ops: seq<PollRuns.Op>, env: PollEnv)
    returns (heard: seq<Device>, drained: seq<Device>, expired: Device)
    ensures heard != [] && JoinDone(PollRuns.Run(start, id, ops), heard[0], env)
    ensures HearSteps(heard, env.pending)
    ensures drained != [] && drained[0] == heard[|heard| - 1]
    ensures DrainSteps(drained, id, env.drainLinks, 0)
    ensures ExpireDone(drained[|drained| - 1], expired, id, env)
    ensures RefreshDone(expired, PollRuns.Run(start, id, ops + [PollRuns.Polls(env)]), id, env)
  {
    var d := PollRuns.Run(start, id, ops);
    PollRuns.RunOne(start, id, ops, PollRuns.Polls(env));
    assert PollRuns.Apply(d, id, PollRuns.Polls(env)) == Poll(d, id, env);
    hide PollRuns.Run, PollRuns.Apply, Poll, JoinDone, ExpireDone, RefreshDone, HearSteps, DrainSteps;
    heard, drained, expired := PollTrace(d, id, env);
  }

  lemma PollTrace(d: Device, id: word64, env: PollEnv)
    returns (heard: seq<Device>, drained: seq<Device>, expired: Device)
    ensures heard != [] && JoinDone(d, heard[0], env) && HearSteps(heard, env.pending)
    ensures drained != [] && drained[0] == heard[|heard| - 1] && DrainSteps(drained, id, env.drainLinks, 0)
    ensures ExpireDone(drained[|drained| - 1], expired, id, env) && RefreshDone(expired, Poll(d, id, env), id, env)
  {
    ApplyIsDone(d, id, Joins(env));
    var joined, at := Apply(d, id, Joins(env)), HeardBy(d, env);
    assert at == joined.(core := CheckBeacons(joined.core, env.pending));
    assert Poll(d, id, env) == Apply(Apply(Drain(at, id, env.drainLinks, 0), id, Expires(env)), id, Refreshes(env));
    hide DrainSteps, HearSteps, JoinDone, ExpireDone, RefreshDone, Join, CheckBeacons, Drain, HeardBy, Poll, Apply;
    heard := HearTrace(joined, id, env.pending);
    drained := DrainTrace(at, id, env.drainLinks, 0);
    var last := drained[|drained| - 1];
    expired := Apply(last, id, Expires(env));
    ExpireIsDone(last, id, env);
    RefreshIsDone(expired, id, env);
  }

  ghost predicate HearSteps(states: seq<Device>, pending: seq<Heard>) {
    && 0 < |states| <= |pending| + 1
    && (forall i :: 0 <= i < |states| - 1 ==>
          pending[i].datagram != [] && HearDone(states[i], states[i + 1], pending[i]))
    && (|states| <= |pending| ==> pending[|states| - 1].datagram == [])
  }

  ghost predicate DrainSteps(states: seq<Device>, id: word64, links: nat -> Uplink, k: nat) {
    && states != [] && !FrameWaits(states[|states| - 1].ring)
    && (forall i :: 0 <= i < |states| - 1 ==>
          FrameWaits(states[i].ring) && TakeDone(states[i], states[i + 1], id, links(k + i)))
  }

  lemma {:induction false} HearTrace(d: Device, id: word64, pending: seq<Heard>) returns (states: seq<Device>)
    ensures HearSteps(states, pending) && states[0] == d
    ensures states[|states| - 1] == d.(core := CheckBeacons(d.core, pending))
    decreases |pending|
  {
    hide HearOne, HearDone;
    if pending == [] || pending[0].datagram == [] {
      states := [d];
    } else {
      var e := Apply(d, id, Hears(pending[0]));
      HearIsDone(d, id, pending[0]);
      HearKeepsMode(d.core, pending[0]);
      FirstHeard(d.core, pending);
      hide CheckBeacons, HearSteps;
      var rest := HearTrace(e, id, pending[1..]);
      OneHeardFirst(d, pending, rest);
      states := [d] + rest;
    }
  }

  lemma OneHeardFirst(d: Device, pending: seq<Heard>, rest: seq<Device>)
    requires pending != [] && pending[0].datagram != []
    requires HearSteps(rest, pending[1..]) && HearDone(d, rest[0], pending[0])
    ensures HearSteps([d] + rest, pending)
  {
    hide HearDone;
    var states := [d] + rest;
    forall i | 0 <= i < |states| - 1
      ensures pending[i].datagram != [] && HearDone(states[i], states[i + 1], pending[i])
    {
      if i > 0 {
        assert states[i] == rest[i - 1] && states[i + 1] == rest[i] && pending[1..][i - 1] == pending[i];
      }
    }
  }

  lemma HearKeepsMode(c: Core, h: Heard)
    ensures HearOne(c, h).lease.alwaysOn == c.lease.alwaysOn
  {
  }

  lemma FirstHeard(c: Core, pending: seq<Heard>)
    requires pending != [] && pending[0].datagram != []
    ensures !c.lease.alwaysOn ==> CheckBeacons(c, pending) == CheckBeacons(HearOne(c, pending[0]), pending[1..])
  {
    HearKeepsMode(c, pending[0]);
    HearFront(c, pending[0], BeforeEmpty(pending[1..]));
    hide HearOne, HearAll;
  }

  lemma {:induction false} HearFront(c: Core, h: Heard, heard: seq<Heard>)
    ensures HearAll(c, [h] + heard) == HearAll(HearOne(c, h), heard)
  {
    hide HearOne;
    if heard == [] {
      assert [h] + heard == [h] && [h][..0] == [];
      assert HearAll(c, [h]) == HearOne(HearAll(c, []), h);
    } else {
      var n := |heard| - 1;
      assert ([h] + heard)[..n + 1] == [h] + heard[..n];
      HearFront(c, h, heard[..n]);
    }
  }

  lemma {:induction false} DrainTrace(d: Device, id: word64, links: nat -> Uplink, k: nat) returns (states: seq<Device>)
    ensures DrainSteps(states, id, links, k) && states[0] == d && states[|states| - 1] == Drain(d, id, links, k)
    decreases |d.ring|
  {
    assert FrameWaits(d.ring) <==> WholeFrameIn(d.ring);
    if !FrameWaits(d.ring) {
      states := [d];
    } else {
      var e := Apply(d, id, Takes(links(k)));
      TakeIsDone(d, id, links(k));
      assert e == TakeOne(d, id, links(k)) && |e.ring| < |d.ring|;
      hide TakeOne, TakeDone, FrameWaits, WholeFrameIn, DrainSteps;
      var rest := DrainTrace(e, id, links, k + 1);
      states := [d] + rest;
      OneTurnFirst(d, id, links, k, rest);
    }
  }

  lemma OneTurnFirst(d: Device, id: word64, links: nat -> Uplink, k: nat, rest: seq<Device>)
    requires DrainSteps(rest, id, links, k + 1) && FrameWaits(d.ring) && TakeDone(d, rest[0], id, links(k))
    ensures DrainSteps([d] + rest, id, links, k)
  {
    hide TakeDone, FrameWaits;
    var states := [d] + rest;
    forall i | 0 <= i < |states| - 1
      ensures FrameWaits(states[i].ring) && TakeDone(states[i], states[i + 1], id, links(k + i))
    {
      if i > 0 {
        assert states[i] == rest[i - 1] && states[i + 1] == rest[i] && k + 1 + (i - 1) == k + i;
      }
    }
  }

  /* ---- what is queued ---- */

  /** A log call puts a frame into the ring if and only if the device is active, the source is not the
      transport, there is a formatter, the text is neither empty nor the transport's chatter, and there
      is room; then the frame has the call's level, 5 if that is not 1 to 4, and the text. */
  lemma PutInExact(start: Device, id: word64, ops: seq<Op>, call: LogCall)
    ensures var d, text := Run(start, id, ops), Cut(WithoutBreaks(Joined(call.chunks)), 499);
            QueueTheorems.PutIn(start, id, ops + [Logs(call)]) ==
            QueueTheorems.PutIn(start, id, ops)
            + (if && call.attached && (d.core.lease.alwaysOn || d.core.lease.active)
                  && !call.ownTransport && call.formatter && text != [] && !ChatterBytes(text)
                  && |d.ring| + 3 + |text| <= 2048
               then [Frame(if 1 <= call.level <= 4 then call.level else 5, text)] else [])
  {
    var text := Cut(WithoutBreaks(Joined(call.chunks)), 499);
    assert (ops + [Logs(call)])[..|ops|] == ops;
    assert TransportChatter(text) <==> ChatterBytes(text);
    hide TransportChatter, ChatterBytes, Run, WithoutBreaks, Joined, Cut;
  }

  /** So in every run no frame is empty, none is longer than 499 bytes or has a line break in it, and
      none is the transport's chatter; its level is one of 1 to 5. */
  lemma {:induction false} OnlyCleanTexts(start: Device, id: word64, ops: seq<Op>, i: nat)
    requires i < |QueueTheorems.PutIn(start, id, ops)|
    ensures var f := QueueTheorems.PutIn(start, id, ops)[i];
            && 1 <= |f.text| <= 499 && 10 !in f.text && 13 !in f.text && !ChatterBytes(f.text) && 1 <= f.level <= 5
  {
    var front, op := ops[..|ops| - 1], ops[|ops| - 1];
    assert front + [op] == ops;
    if op.Logs? {
      PutInExact(start, id, front, op.call);
      NoBreaksLeft(Joined(op.call.chunks));
      hide ChatterBytes, QueueTheorems.PutIn, WithoutBreaks, Joined, Run;
    }
    if i < |QueueTheorems.PutIn(start, id, front)| {
      OnlyCleanTexts(start, id, front, i);
    }
  }

  lemma {:induction false} NoBreaksLeft(s: seq<byte>)
    ensures 10 !in WithoutBreaks(s) && 13 !in WithoutBreaks(s)
  {
    if s != [] {
      NoBreaksLeft(s[1..]);
    }
  }

  /** Line breaks are the bytes 10 and 13, and they alone are left out, wherever they stand. */
  lemma BreaksLeftOut(before: seq<byte>, b: byte, after: seq<byte>)
    ensures WithoutBreaks(before + [b] + after) ==
            WithoutBreaks(before) + (if b == 10 || b == 13 then [] else [b]) + WithoutBreaks(after)
  {
    QueueTheorems.WithoutBreaksConcat(before + [b], after);
    QueueTheorems.WithoutBreaksConcat(before, [b]);
    assert [b][1..] == [];
  }

  /** The formatter's output is put together in the order of its calls. */
  lemma {:induction false} OutputInOrder(before: seq<seq<byte>>, piece: seq<byte>, after: seq<seq<byte>>)
    ensures Joined(before + [piece] + after) == Joined(before) + piece + Joined(after)
    decreases |before|
  {
    if before == [] {
      assert before + [piece] + after == [piece] + after && ([piece] + after)[1..] == after;
    } else {
      assert (before + [piece] + after)[1..] == before[1..] + [piece] + after;
      OutputInOrder(before[1..], piece, after);
    }
  }

  /* ---- what is shown ---- */

  /** Whatever the application sends while the gate is open, the receiver shows, with device, time and
      payload; a text with its level and its first 500 bytes. */
  lemma SendShown(start: Device, id: word64, ops: seq<Op>, link: Uplink, logType: byte, payload: seq<byte>)
    requires link.attached && |payload| <= 1004 && logType != 0xFF
    requires var l := Run(start, id, ops).core.lease; l.alwaysOn || l.active
    ensures var c, d := Run(start, id, ops).core, Run(start, id, ops + [Sends(link, logType, payload)]).core;
            && |d.log| == |c.log| + 1 && d.log[|c.log|].Sent?
            && Reading(d.log[|c.log|].packet) ==
               Some(LogMessage(Header(0xE510, 1, id, link.uptime % 0x1_0000_0000, logType, |payload|),
                               payload, Parse(logType, payload)))
  {
    var c, d := Run(start, id, ops).core, Run(start, id, ops + [Sends(link, logType, payload)]).core;
    StepExact(start, id, ops, Sends(link, logType, payload));
    hide Run, Carries;
    CarriedRead(d.log[|c.log|].packet, id, link.uptime % 0x1_0000_0000, logType, payload);
    hide Reading, Parse;
  }

  lemma TextShown(level: byte, text: seq<byte>)
    ensures Parse(1, TextPayload(level, text)) == Text(level, Cut(text, 500))
  {
    TextReadIff(TextPayload(level, text), level, Cut(text, 500));
  }
}
