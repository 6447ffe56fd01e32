/**
  The Zephyr device's listener lease, as a function of the readings it takes: clock,
  attachment, socket results and received datagrams. `Core` is the state of the sender
  together with its history, the list of what happened so far.
 */
module ListenerLease {
  import opened Words
  import opened Wire
  import opened Payloads

  const BEACON_TIMEOUT: int := 90_000
  const BEACON_GRACE: int := 60_000
  const MLR_REFRESH: int := 120_000
  const HEARTBEAT_CYCLES: int := 60
  const TEXT_LIMIT: nat := 500

  datatype Lease = Lease(alwaysOn: bool, active: bool, confirmed: bool, joined: bool,
                         lastBeacon: int, lastResubscribe: int, consecFail: word32)

  /** What one call of send_message reads: attachment, uptime, and sendto's result. */
  datatype Uplink = Uplink(attached: bool, uptime: nat, accepted: int)

  datatype Event =
    | Activated(time: int, byRefresh: bool)
    | Beacon(time: int)
    | SilentBanner(time: int)
    | Expired(time: int)
    | RefreshBanner(time: int)
    | Sent(link: Uplink, packet: seq<byte>, force: bool)

  datatype Core = Core(lease: Lease, sent: word32, dropped: word32, log: seq<Event>)

  function Boot(alwaysOn: bool): Core {
    Core(Lease(alwaysOn, false, false, false, 0, 0, 0), 0, 0, [])
  }

  /* ---- sending ---- */

  function Drop(c: Core): Core { c.(dropped := Inc32(c.dropped)) }

  predicate GateOpen(c: Core, force: bool) { c.lease.alwaysOn || c.lease.active || force }

  predicate Fits(payload: seq<byte>) { HEADER_SIZE + |payload| + 2 <= MAX_PACKET }

  function Send(c: Core, id: word64, link: Uplink, logType: byte, payload: seq<byte>, force: bool): Core {
    if !link.attached || !GateOpen(c, force) || !Fits(payload) then Drop(c)
    else
      var packet := Packet(id, link.uptime % 0x1_0000_0000, logType, payload);
      var c' := c.(log := c.log + [Sent(link, packet, force)]);
      if link.accepted == |packet| then c'.(sent := Inc32(c.sent)) else Drop(c')
  }

  predicate Delivered(c: Core, link: Uplink, payload: seq<byte>, force: bool) {
    link.attached && GateOpen(c, force) && Fits(payload) && link.accepted == HEADER_SIZE + |payload| + 2
  }

  function TextPayload(level: byte, text: seq<byte>): (s: seq<byte>)
    ensures |s| == 1 + |Cut(text, TEXT_LIMIT)|
  {
    [level] + Cut(text, TEXT_LIMIT)
  }

  const LEVEL_INFO: byte := 3

  /* ---- the phases of a poll ---- */

  /** A datagram in the receive socket and the clock when the loop handles it. */
  datatype Heard = Heard(datagram: seq<byte>, time: int)

  /** A formatted state-change banner, from a 96-byte snprintf buffer. */
  type Banner = s: seq<byte> | 0 < |s| <= 95 witness [0]

  /** The readings one poll takes. A failed or impossible subscription is `subscribed` false. */
  datatype PollEnv = PollEnv(
    attachedForJoin: bool, subscribed: bool, joinTime: int,
    pending: seq<Heard>,
    drainLinks: nat -> Uplink,
    checkTime: int, silentText: Banner, silentLink: Uplink, silentTime: int,
    attachedForRefresh: bool, refreshTime: int, refreshed: bool, refreshText: Banner, refreshLink: Uplink)

  function Join(c: Core, env: PollEnv): Core {
    if !c.lease.joined && env.attachedForJoin && env.subscribed then
      if !c.lease.alwaysOn && !c.lease.active then
        c.(lease := c.lease.(joined := true, active := true, lastBeacon := env.joinTime),
           log := c.log + [Activated(env.joinTime, false)])
      else c.(lease := c.lease.(joined := true))
    else c
  }

  function HearOne(c: Core, h: Heard): Core {
    if IsBeacon(h.datagram) then
      c.(lease := c.lease.(lastBeacon := h.time, active := true, confirmed := true, consecFail := 0),
         log := c.log + [Beacon(h.time)])
    else c
  }

  function HearAll(c: Core, heard: seq<Heard>): Core {
    if heard == [] then c else HearOne(HearAll(c, heard[..|heard| - 1]), heard[|heard| - 1])
  }

  lemma HearOneMore(c: Core, heard: seq<Heard>, h: Heard)
    ensures HearAll(c, heard + [h]) == HearOne(HearAll(c, heard), h)
  {
    assert (heard + [h])[..|heard|] == heard;
  }

  /** The loop stops at the first receive that returns nothing, an empty datagram included. */
  function BeforeEmpty(pending: seq<Heard>): (s: seq<Heard>)
    ensures s <= pending
  {
    if pending == [] || pending[0].datagram == [] then [] else [pending[0]] + BeforeEmpty(pending[1..])
  }

  lemma BeforeEmptyStep(pending: seq<Heard>, i: nat)
    requires i < |pending| && pending[i].datagram != []
    ensures pending[..i] + BeforeEmpty(pending[i..]) == pending[..i + 1] + BeforeEmpty(pending[i + 1..])
    ensures pending[..i + 1] == pending[..i] + [pending[i]]
  {
    assert pending[i..][1..] == pending[i + 1..];
  }

  function CheckBeacons(c: Core, pending: seq<Heard>): Core {
    if c.lease.alwaysOn then c else HearAll(c, BeforeEmpty(pending))
  }

  /** An empty datagram hides whatever is queued behind it from this poll, beacons included. */
  lemma EmptyHides(c: Core, before: seq<Heard>, time: int, behind: seq<Heard>)
    requires forall i :: 0 <= i < |before| ==> before[i].datagram != []
    ensures CheckBeacons(c, before + [Heard([], time)] + behind) == CheckBeacons(c, before)
  {
    HiddenBehind(before, time, behind);
  }

  lemma {:induction false} HiddenBehind(before: seq<Heard>, time: int, behind: seq<Heard>)
    requires forall i :: 0 <= i < |before| ==> before[i].datagram != []
    ensures BeforeEmpty(before + [Heard([], time)] + behind) == BeforeEmpty(before) == before
    decreases |before|
  {
    if before != [] {
      HiddenBehind(before[1..], time, behind);
      assert (before + [Heard([], time)] + behind)[1..] == before[1..] + [Heard([], time)] + behind;
    }
  }

  function Timeout(confirmed: bool): int { if confirmed then BEACON_TIMEOUT else BEACON_GRACE }

  /** The first two cycles are announced, then one in sixty. */
  predicate Announced(consecFail: int) { consecFail < 2 || consecFail % HEARTBEAT_CYCLES == 0 }

  predicate TimesOut(l: Lease, now: int) {
    l.active && l.lastBeacon > 0 && now - l.lastBeacon > Timeout(l.confirmed)
  }

  function Expire(c: Core, id: word64, env: PollEnv): Core {
    if c.lease.alwaysOn || !TimesOut(c.lease, env.checkTime) then c
    else
      var told :=
        if Announced(c.lease.consecFail) then
          Send(c.(log := c.log + [SilentBanner(env.checkTime)]), id, env.silentLink,
               TYPE_TEXT, TextPayload(LEVEL_INFO, env.silentText), true)
        else c;
      told.(lease := c.lease.(active := false, lastResubscribe := env.silentTime, consecFail := Inc32(c.lease.consecFail)),
            log := told.log + [Expired(env.checkTime)])
  }

  predicate RefreshDue(l: Lease, now: int) {
    l.lastResubscribe == 0 || now - l.lastResubscribe >= MLR_REFRESH
  }

  function Refresh(c: Core, id: word64, env: PollEnv): Core {
    if c.lease.alwaysOn || c.lease.active || !c.lease.joined || !env.attachedForRefresh
       || !RefreshDue(c.lease, env.refreshTime) || !env.refreshed then c
    else
      var up := c.(lease := c.lease.(active := true, lastBeacon := env.refreshTime, lastResubscribe := env.refreshTime),
                   log := c.log + [Activated(env.refreshTime, true)]);
      if Announced(c.lease.consecFail) then
        Send(up.(log := up.log + [RefreshBanner(env.refreshTime)]), id, env.refreshLink,
             TYPE_TEXT, TextPayload(LEVEL_INFO, env.refreshText), true)
      else up
  }
}
