/**
  What the history of a device run shows. `CourseOf` reads a history event by event; `Sound`
  says of each event what must have gone before it; and every phase of a poll and every send
  is shown to keep the history sound and the lease in step with it.
 */
module LeaseHistory {
  import opened Words
  import opened Wire
  import opened ListenerLease

  /* ---- reading a history ---- */

  /** Where a history stands: whether a listener is assumed, when one was last heard or assumed
      (0 before that), whether a beacon was ever heard and the lease ever activated; since the
      last beacon or the start, the expiries, the refreshes, the two kinds of banner, and whether
      the group was joined only after the beacon's lease had run out; and when the lease was last
      found to have run out (0 before that). */
  datatype Course = Course(listening: bool, lastSignal: int, heard: bool, activated: bool,
                           expiries: nat, refreshes: nat, silentBanners: nat, refreshBanners: nat, lateJoin: bool,
                           lastTimeout: int)

  function Advance(k: Course, e: Event): Course {
    match e
    case Activated(t, byRefresh) =>
      k.(listening := true, lastSignal := t, activated := true,
         refreshes := if byRefresh then k.refreshes + 1 else k.refreshes,
         lateJoin := k.lateJoin || (!byRefresh && k.heard))
    case Beacon(t) => Course(true, t, true, k.activated, 0, 0, 0, 0, false, k.lastTimeout)
    case Expired(t) => k.(listening := false, expiries := k.expiries + 1, lastTimeout := t)
    case SilentBanner(t) => k.(silentBanners := k.silentBanners + 1, lastTimeout := t)
    case RefreshBanner(_) => k.(refreshBanners := k.refreshBanners + 1)
    case Sent(_, _, _) => k
  }

  const START: Course := Course(false, 0, false, false, 0, 0, 0, 0, false, 0)

  function CourseOf(log: seq<Event>): Course {
    if log == [] then START else Advance(CourseOf(log[..|log| - 1]), log[|log| - 1])
  }

  /** How many of the cycles 0 .. k-1 are announced, the counter wrapping at 2^32. */
  function AnnouncedBelow(k: nat): nat {
    if k == 0 then 0 else AnnouncedBelow(k - 1) + (if Announced((k - 1) % 0x1_0000_0000) then 1 else 0)
  }

  /** How many of the cycles 1 + shift .. n + shift are announced. */
  function AnnouncedAfter(n: nat, shift: nat): nat {
    if n == 0 then 0 else AnnouncedAfter(n - 1, shift) + (if Announced((n + shift) % 0x1_0000_0000) then 1 else 0)
  }

  function Shift(k: Course): nat { if k.lateJoin then 1 else 0 }

  /** What each event presupposes; gap bounds how long after an expiry check anything happens
      until the next check is over. */
  ghost predicate EventOk(k: Course, e: Event, gap: int) {
    var limit := Timeout(k.heard);
    match e
    case Sent(link, _, _) => link.attached && k.listening && link.uptime - k.lastSignal <= limit + gap
    case Expired(t) => k.listening && limit < t - k.lastSignal <= limit + gap && t >= k.lastTimeout
    case Activated(t, byRefresh) =>
      && !k.listening
      && (if byRefresh then
            k.lastSignal > 0 && t - k.lastSignal > limit + MLR_REFRESH && t - k.lastTimeout >= MLR_REFRESH
          else !k.activated && t >= k.lastSignal)
    case Beacon(t) => t >= k.lastSignal
    case SilentBanner(t) =>
      && k.listening && limit < t - k.lastSignal <= limit + gap && t >= k.lastTimeout
      && Announced(k.expiries % 0x1_0000_0000) && k.silentBanners == AnnouncedBelow(k.expiries)
    case RefreshBanner(t) =>
      && k.listening && k.activated && k.lastSignal == t && t >= k.lastTimeout && Announced(k.expiries % 0x1_0000_0000)
      && k.refreshes > 0 && k.refreshBanners == AnnouncedAfter(k.refreshes - 1, Shift(k))
  }

  ghost predicate Sound(log: seq<Event>, gap: int) {
    forall i :: 0 <= i < |log| ==> EventOk(CourseOf(log[..i]), log[i], gap)
  }

  lemma Append(log: seq<Event>, e: Event, gap: int)
    ensures CourseOf(log + [e]) == Advance(CourseOf(log), e)
    ensures Sound(log, gap) && EventOk(CourseOf(log), e, gap) ==> Sound(log + [e], gap)
  {
    var longer := log + [e];
    assert longer[..|log|] == log;
    assert forall i :: 0 <= i < |log| ==> longer[..i] == log[..i];
  }

  /* ---- the lease in step with its history ---- */

  /** Expiries and refreshes alternate; a late join stands in for the first refresh. */
  ghost predicate Alternate(l: Lease, k: Course) {
    if l.joined then k.expiries == k.refreshes + Shift(k) + (if l.active then 0 else 1)
    else k.refreshes == 0 && !k.lateJoin && (l.active ==> k.heard)
         && k.expiries == if k.heard && !l.active then 1 else 0
  }

  ghost predicate Tracks(l: Lease, k: Course) {
    && !l.alwaysOn
    && l.active == k.listening && l.lastBeacon == k.lastSignal && l.confirmed == k.heard
    && l.consecFail == k.expiries % 0x1_0000_0000
    && l.lastBeacon >= 0
    && (l.active || l.joined || l.confirmed ==> l.lastBeacon > 0)
    && (!l.joined ==> !k.activated)
    && (!l.active && l.lastBeacon > 0 ==> l.lastResubscribe > l.lastBeacon + Timeout(l.confirmed))
    && (!l.active ==> l.lastResubscribe >= k.lastTimeout)
    && Alternate(l, k)
    && k.silentBanners == AnnouncedBelow(k.expiries)
    && k.refreshBanners == AnnouncedAfter(k.refreshes, Shift(k))
  }

  /** The state between two steps: now is the latest clock reading, check that of the last
      expiry check. */
  ghost predicate Good(c: Core, now: int, check: int, gap: int) {
    && Tracks(c.lease, CourseOf(c.log)) && Sound(c.log, gap)
    && 1 <= check <= now && c.lease.lastBeacon <= now && CourseOf(c.log).lastTimeout <= check
    && (c.lease.active ==> check - c.lease.lastBeacon <= Timeout(c.lease.confirmed))
  }

  lemma BootGood(now: int, gap: int)
    requires now >= 1
    ensures Good(Boot(false), now, now, gap)
  {
  }

  /** A send hands over at most one packet, and only attached and through an open gate. */
  lemma SendShape(c: Core, id: word64, link: Uplink, logType: byte, payload: seq<byte>, force: bool)
    returns (packet: seq<byte>)
    ensures var d := Send(c, id, link, logType, payload, force);
            && d.lease == c.lease
            && (d.log != c.log ==> link.attached && GateOpen(c, force) && d.log == c.log + [Sent(link, packet, force)])
  {
    packet := if |payload| < 0x1_0000 then Packet(id, link.uptime % 0x1_0000_0000, logType, payload) else [];
  }

  lemma SendSound(c: Core, gap: int, id: word64, link: Uplink, logType: byte, payload: seq<byte>, force: bool)
    requires Sound(c.log, gap) && !c.lease.alwaysOn && c.lease.active == CourseOf(c.log).listening
    requires force ==> c.lease.active
    requires link.uptime - CourseOf(c.log).lastSignal <= Timeout(CourseOf(c.log).heard) + gap
    ensures var d := Send(c, id, link, logType, payload, force);
            d.lease == c.lease && Sound(d.log, gap) && CourseOf(d.log) == CourseOf(c.log)
  {
    hide ListenerLease.Send;
    var packet := SendShape(c, id, link, logType, payload, force);
    Append(c.log, Sent(link, packet, force), gap);
  }

  lemma SendGood(c: Core, now: int, check: int, gap: int,
                 id: word64, link: Uplink, logType: byte, payload: seq<byte>, force: bool)
    requires Good(c, now, check, gap) && (force ==> c.lease.active) && link.uptime <= check + gap
    ensures Good(Send(c, id, link, logType, payload, force), now, check, gap)
    ensures Send(c, id, link, logType, payload, force).lease == c.lease
  {
    if c.lease.active {
      hide ListenerLease.Send;
      SendSound(c, gap, id, link, logType, payload, force);
    }
  }

  lemma JoinGood(c: Core, now: int, check: int, gap: int, env: PollEnv)
    requires Good(c, now, check, gap) && now <= env.joinTime
    ensures Good(Join(c, env), env.joinTime, check, gap)
  {
    Append(c.log, Activated(env.joinTime, false), gap);
  }

  lemma HearOneGood(c: Core, now: int, check: int, gap: int, h: Heard)
    requires Good(c, now, check, gap) && now <= h.time
    ensures Good(HearOne(c, h), h.time, check, gap)
  {
    Append(c.log, Beacon(h.time), gap);
    hide IsBeacon, Sound, CourseOf;
  }

  /** Announcing the coming silence: the banner is noted and goes out by the forced path while
      the listener is still assumed. */
  function SayGoodbye(c: Core, id: word64, env: PollEnv): Core {
    if Announced(c.lease.consecFail) then
      Send(c.(log := c.log + [SilentBanner(env.checkTime)]), id, env.silentLink,
           TYPE_TEXT, TextPayload(LEVEL_INFO, env.silentText), true)
    else c
  }

  lemma GoodbyeSound(c: Core, now: int, check: int, gap: int, id: word64, env: PollEnv)
    requires Good(c, now, check, gap) && TimesOut(c.lease, env.checkTime)
    requires now <= env.checkTime <= check + gap && env.silentLink.uptime <= check + gap
    ensures var d, k := SayGoodbye(c, id, env), CourseOf(c.log);
            && d.lease == c.lease && Sound(d.log, gap)
            && CourseOf(d.log) == k.(silentBanners := AnnouncedBelow(k.expiries + 1),
                                     lastTimeout := if Announced(c.lease.consecFail) then env.checkTime else k.lastTimeout)
  {
    hide ListenerLease.Send, ListenerLease.TextPayload, Sound, CourseOf;
    if Announced(c.lease.consecFail) {
      Append(c.log, SilentBanner(env.checkTime), gap);
      SendSound(c.(log := c.log + [SilentBanner(env.checkTime)]), gap, id, env.silentLink,
                TYPE_TEXT, TextPayload(LEVEL_INFO, env.silentText), true);
    }
  }

  /** The course and the lease after an expiry. */
  lemma ExpiredTracks(l: Lease, k: Course, check: int, silent: int, told: bool)
    requires Tracks(l, k) && l.active && k.lastTimeout <= check <= silent && TimesOut(l, check)
    ensures var k' := Advance(k.(silentBanners := AnnouncedBelow(k.expiries + 1),
                                 lastTimeout := if told then check else k.lastTimeout), Expired(check));
            Tracks(l.(active := false, lastResubscribe := silent, consecFail := Inc32(l.consecFail)), k')
  {
    hide Announced, AnnouncedBelow, AnnouncedAfter;
  }

  lemma ExpireGood(c: Core, now: int, check: int, gap: int, id: word64, env: PollEnv)
    requires Good(c, now, check, gap)
    requires now <= env.checkTime <= env.silentTime && env.checkTime <= check + gap
    requires env.silentLink.uptime <= check + gap
    ensures Good(Expire(c, id, env), env.silentTime, env.checkTime, gap)
  {
    hide ListenerLease.Send, ListenerLease.TextPayload, Sound, CourseOf, AnnouncedAfter, AnnouncedBelow;
    if TimesOut(c.lease, env.checkTime) {
      GoodbyeSound(c, now, check, gap, id, env);
      ExpiredTracks(c.lease, CourseOf(c.log), env.checkTime, env.silentTime, Announced(c.lease.consecFail));
      hide Announced;
      Append(SayGoodbye(c, id, env).log, Expired(env.checkTime), gap);
    }
  }

  /** Joined and inactive means that a resubscription time is on record, so a refresh comes
      only when its period has run out, never by the "no resubscription yet" shortcut. */
  lemma RefreshWaits(c: Core, now: int, check: int, gap: int, time: int)
    requires Good(c, now, check, gap) && c.lease.joined && !c.lease.active
    ensures c.lease.lastResubscribe > 0
    ensures RefreshDue(c.lease, time) <==> time - c.lease.lastResubscribe >= MLR_REFRESH
  {
  }

  lemma RefreshGood(c: Core, now: int, check: int, gap: int, id: word64, env: PollEnv, end: int)
    requires Good(c, now, check, gap)
    requires now <= env.refreshTime <= end
    requires env.refreshLink.uptime <= check + gap
    ensures Good(Refresh(c, id, env), end, check, gap)
  {
    hide ListenerLease.Send, ListenerLease.TextPayload, Sound, CourseOf;
    if !c.lease.active && c.lease.joined && env.attachedForRefresh && RefreshDue(c.lease, env.refreshTime) && env.refreshed {
      RefreshWaits(c, now, check, gap, env.refreshTime);
      var e := Activated(env.refreshTime, true);
      Append(c.log, e, gap);
      if Announced(c.lease.consecFail) {
        var up := c.(lease := c.lease.(active := true, lastBeacon := env.refreshTime, lastResubscribe := env.refreshTime),
                     log := c.log + [e]);
        Append(up.log, RefreshBanner(env.refreshTime), gap);
        SendSound(up.(log := up.log + [RefreshBanner(env.refreshTime)]), gap, id, env.refreshLink,
                  TYPE_TEXT, TextPayload(LEVEL_INFO, env.refreshText), true);
      }
    }
  }
}
