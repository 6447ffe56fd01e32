/**
  What the history of every run of a Zephyr device shows: when packets may leave, how long the
  device listens and stays quiet, and which cycles are announced. The runs are those of
  DeviceRuns: sends and log calls come between any two phases of a poll. In all of them `gap`
  bounds how long after an expiry check anything happens until the next check is over; the device
  is in discovery mode.
 */
module RunTheorems {
  import opened Words
  import opened ListenerLease
  import opened LeaseHistory
  import opened Backend
  import opened DeviceRuns

  function History(id: word64, ops: seq<Op>): seq<Event> {
    Run(BootDevice(false), id, ops).core.log
  }

  lemma HistorySound(id: word64, start: int, ops: seq<Op>, gap: int)
    requires Timed(start, ops, gap)
    ensures Sound(History(id, ops), gap)
    ensures Tracks(Run(BootDevice(false), id, ops).core.lease, CourseOf(History(id, ops)))
  {
    RunGood(id, start, ops, gap);
  }

  /** No traffic when nobody listens: whatever is handed to the socket, forced banners included,
      goes out attached, while a listener is assumed, and at most the timeout plus one gap after
      it was last heard or assumed. */
  lemma SendSafety(id: word64, start: int, ops: seq<Op>, gap: int, i: nat)
    requires Timed(start, ops, gap) && i < |History(id, ops)| && History(id, ops)[i].Sent?
    ensures var k, e := CourseOf(History(id, ops)[..i]), History(id, ops)[i];
            && e.link.attached && k.listening
            && e.link.uptime - k.lastSignal <= Timeout(k.heard) + gap
  {
    HistorySound(id, start, ops, gap);
    assert EventOk(CourseOf(History(id, ops)[..i]), History(id, ops)[i], gap);
  }

  /** A listener is given up only after its timeout, and at the first check past it. */
  lemma ActiveSpell(id: word64, start: int, ops: seq<Op>, gap: int, i: nat)
    requires Timed(start, ops, gap) && i < |History(id, ops)| && History(id, ops)[i].Expired?
    ensures var k, e := CourseOf(History(id, ops)[..i]), History(id, ops)[i];
            k.listening && Timeout(k.heard) < e.time - k.lastSignal <= Timeout(k.heard) + gap
  {
    HistorySound(id, start, ops, gap);
    assert EventOk(CourseOf(History(id, ops)[..i]), History(id, ops)[i], gap);
  }

  lemma {:induction false} SignalsRise(log: seq<Event>, gap: int, i: nat, j: nat)
    requires Sound(log, gap) && i <= j <= |log|
    ensures CourseOf(log[..i]).lastSignal <= CourseOf(log[..j]).lastSignal
    ensures CourseOf(log[..i]).activated ==> CourseOf(log[..j]).activated
    ensures CourseOf(log[..i]).heard ==> CourseOf(log[..j]).heard
  {
    if i < j {
      hide Sound, CourseOf, EventOk, Advance;
      SignalsRise(log, gap, i, j - 1);
      CourseStep(log, gap, j - 1);
      SignalRises(CourseOf(log[..j - 1]), log[j - 1], gap);
    }
  }

  lemma SignalRises(k: Course, e: Event, gap: int)
    requires EventOk(k, e, gap)
    ensures var after := Advance(k, e);
            after.lastSignal >= k.lastSignal && (k.activated ==> after.activated) && (k.heard ==> after.heard)
  {
  }

  lemma CourseStep(log: seq<Event>, gap: int, j: nat)
    requires Sound(log, gap) && j < |log|
    ensures CourseOf(log[..j + 1]) == Advance(CourseOf(log[..j]), log[j]) && EventOk(CourseOf(log[..j]), log[j], gap)
  {
    assert log[..j + 1][..j] == log[..j];
  }

  /** Successive activations are more than 180 s apart, and more than 210 s once a beacon has
      ever been heard; each comes that long after the last beacon as well. Only the first can be
      the join's. */
  lemma DutyCycle(id: word64, start: int, ops: seq<Op>, gap: int, i: nat, j: nat)
    requires Timed(start, ops, gap) && i < j < |History(id, ops)|
    requires History(id, ops)[i].Activated? && History(id, ops)[j].Activated?
    ensures var k := CourseOf(History(id, ops)[..j]);
            && History(id, ops)[j].byRefresh
            && History(id, ops)[i].time <= k.lastSignal
            && History(id, ops)[j].time - k.lastSignal > Timeout(k.heard) + MLR_REFRESH
            && Timeout(k.heard) + MLR_REFRESH == (if k.heard then 210_000 else 180_000)
  {
    var log := History(id, ops);
    HistorySound(id, start, ops, gap);
    CourseStep(log, gap, i);
    SignalsRise(log, gap, i + 1, j);
    CourseStep(log, gap, j);
  }

  /** In every state of every run, a device that has joined and is idle has a re-subscription time
      on record: a refresh always waits its 120 s, and the "never re-subscribed" shortcut never
      brings one early. */
  lemma NoEarlyRefresh(id: word64, start: int, ops: seq<Op>, gap: int, time: int)
    requires Timed(start, ops, gap)
    ensures var l := Run(BootDevice(false), id, ops).core.lease;
            l.joined && !l.active ==>
              && l.lastResubscribe > l.lastBeacon + Timeout(l.confirmed)
              && (RefreshDue(l, time) <==> time - l.lastResubscribe >= MLR_REFRESH)
  {
    HistorySound(id, start, ops, gap);
  }

  /* ---- banners ---- */

  lemma OneInSixty(k: nat)
    requires k < 0x1_0000_0000
    ensures Announced(k % 0x1_0000_0000) <==> k < 2 || (k > 0 && k / 60 == (k - 1) / 60 + 1)
  {
  }

  lemma {:induction false} AnnouncedBelowClosed(k: nat)
    requires k <= 0x1_0000_0000
    ensures AnnouncedBelow(k) == if k <= 1 then k else 2 + (k - 1) / 60
  {
    if k > 0 {
      AnnouncedBelowClosed(k - 1);
      OneInSixty(k - 1);
      hide Announced;
    }
  }

  lemma {:induction false} AnnouncedAfterClosed(n: nat, shift: nat)
    requires n + shift < 0x1_0000_0000 && shift <= 1
    ensures AnnouncedAfter(n, shift) == if shift == 1 then (n + 1) / 60 else if n == 0 then 0 else 1 + n / 60
  {
    if n > 0 {
      AnnouncedAfterClosed(n - 1, shift);
      OneInSixty(n + shift);
      hide Announced;
    }
  }

  /** Since the last beacon, k expiries have attempted 1, or 2 and then one more in sixty,
      going-silent banners; n refreshes have attempted one and then one in sixty refresh banners,
      and after a late join one fewer at the start. Expiries and refreshes alternate. */
  lemma BannerThrottle(id: word64, start: int, ops: seq<Op>, gap: int)
    requires Timed(start, ops, gap)
    requires CourseOf(History(id, ops)).expiries < 0x1_0000_0000
    ensures var k := CourseOf(History(id, ops));
            && k.silentBanners == (if k.expiries <= 1 then k.expiries else 2 + (k.expiries - 1) / 60)
            && k.refreshBanners == (if k.lateJoin then (k.refreshes + 1) / 60
                                    else if k.refreshes == 0 then 0 else 1 + k.refreshes / 60)
            && k.refreshes <= k.expiries <= k.refreshes + 2
  {
    HistorySound(id, start, ops, gap);
    var k := CourseOf(History(id, ops));
    AnnouncedBelowClosed(k.expiries);
    AnnouncedAfterClosed(k.refreshes, Shift(k));
  }

  /** One whole cycle without a beacon, at the least. */
  function Cycle(heard: bool): int { Timeout(heard) + MLR_REFRESH + 1 }

  lemma OneMore(n: int, step: int)
    ensures (n + 1) * step == n * step + step
  {
  }

  lemma AtLeastTimes(n: int, least: int, step: int)
    requires n >= least && step >= 0
    ensures n * step >= least * step
  {
  }

  /** Once the lease has run out again after a beacon, an activation is on record. */
  lemma {:induction false} CourseShape(log: seq<Event>, gap: int, j: nat)
    requires Sound(log, gap) && j <= |log|
    ensures var k := CourseOf(log[..j]);
            (k.expiries >= 1 && k.listening ==> k.activated) && (k.expiries >= 2 ==> k.activated)
  {
    if j > 0 {
      CourseShape(log, gap, j - 1);
      CourseStep(log, gap, j - 1);
    }
  }

  /** From a going-silent banner at t0 in course a to course b, without a beacon: the banner's
      expiry, then a whole cycle for each further one, then perhaps another refresh. */
  ghost predicate SilenceTakesTime(a: Course, t0: int, b: Course) {
    var n := b.expiries - a.expiries;
    && a.heard == b.heard && n >= 0 && b.activated && b.silentBanners > a.silentBanners
    && (n == 0 ==> b.lastTimeout >= t0 && b.lastSignal == a.lastSignal)
    && (b.listening && n > 0 ==> b.lastSignal >= t0 + (n - 1) * Cycle(a.heard) + MLR_REFRESH)
    && (!b.listening ==> n > 0 && b.lastTimeout >= t0 + (n - 1) * Cycle(a.heard))
  }

  lemma SilenceStep(a: Course, t0: int, b: Course, e: Event, gap: int)
    requires SilenceTakesTime(a, t0, b) && EventOk(b, e, gap) && !e.Beacon?
    ensures SilenceTakesTime(a, t0, Advance(b, e))
  {
    hide Announced, AnnouncedBelow, AnnouncedAfter;
    OneMore(b.expiries - a.expiries - 1, Cycle(a.heard));
  }

  lemma {:induction false} SilenceOfLog(log: seq<Event>, gap: int, i: nat, j: nat)
    requires Sound(log, gap) && i < j <= |log| && log[i].SilentBanner? && CourseOf(log[..i]).activated
    requires forall m :: i <= m < j ==> !log[m].Beacon?
    ensures SilenceTakesTime(CourseOf(log[..i]), log[i].time, CourseOf(log[..j]))
    decreases j
  {
    hide CourseOf, Sound, SilenceTakesTime, EventOk, Advance;
    CourseStep(log, gap, j - 1);
    if i == j - 1 {
      SilenceStarts(CourseOf(log[..i]), log[i], gap);
    } else {
      SilenceOfLog(log, gap, i, j - 1);
      SilenceStep(CourseOf(log[..i]), log[i].time, CourseOf(log[..j - 1]), log[j - 1], gap);
    }
  }

  lemma SilenceStarts(k: Course, e: Event, gap: int)
    requires EventOk(k, e, gap) && e.SilentBanner? && k.activated
    ensures SilenceTakesTime(k, e.time, Advance(k, e))
  {
    hide Announced, AnnouncedBelow;
  }

  /** From course a, listening, to course b, without a beacon: a whole cycle for each expiry. */
  ghost predicate CyclesTakeTime(a: Course, b: Course) {
    var n := b.expiries - a.expiries;
    && a.heard == b.heard && n >= 0 && b.activated && b.refreshBanners >= a.refreshBanners
    && (b.listening ==> b.lastSignal >= a.lastSignal + n * Cycle(a.heard))
    && (!b.listening ==> n > 0 && b.lastSignal >= a.lastSignal + (n - 1) * Cycle(a.heard))
    && (n == 0 ==> b.refreshes == a.refreshes && b.lateJoin == a.lateJoin && b.lastSignal == a.lastSignal)
  }

  lemma CyclesStep(a: Course, b: Course, e: Event, gap: int)
    requires CyclesTakeTime(a, b) && EventOk(b, e, gap) && !e.Beacon?
    ensures CyclesTakeTime(a, Advance(b, e))
  {
    hide Announced, AnnouncedBelow, AnnouncedAfter;
    var n := b.expiries - a.expiries;
    OneMore(n, Cycle(a.heard));
    OneMore(n - 1, Cycle(a.heard));
  }

  lemma CyclesStart(k: Course)
    requires k.listening && k.activated
    ensures CyclesTakeTime(k, k)
  {
  }

  lemma {:induction false} CyclesOfLog(log: seq<Event>, gap: int, i: nat, j: nat)
    requires Sound(log, gap) && i <= j <= |log|
    requires CourseOf(log[..i]).listening && CourseOf(log[..i]).activated
    requires forall m :: i <= m < j ==> !log[m].Beacon?
    ensures CyclesTakeTime(CourseOf(log[..i]), CourseOf(log[..j]))
  {
    hide CourseOf, Sound, CyclesTakeTime, EventOk, Advance;
    if i == j {
      CyclesStart(CourseOf(log[..i]));
    } else {
      CyclesOfLog(log, gap, i, j - 1);
      CourseStep(log, gap, j - 1);
      CyclesStep(CourseOf(log[..i]), CourseOf(log[..j - 1]), log[j - 1], gap);
    }
  }

  predicate IsBanner(e: Event) { e.SilentBanner? || e.RefreshBanner? }

  lemma AnnouncedApart(a: nat, b: nat)
    requires 2 <= a < b < 0x1_0000_0000
    requires Announced(a % 0x1_0000_0000) && Announced(b % 0x1_0000_0000)
    ensures b >= a + 60
  {
  }

  /** How far apart two banners are of which the second is attempted t after the first: a refresh
      banner and the going-silent banner that ends the same spell, a timeout; a going-silent banner
      and a later refresh banner, 59 cycles and a refresh period; any other two, 60 cycles. */
  ghost predicate SpacedOut(first: Event, second: Event, a: Course, b: Course, t: int, gap: int) {
    var limit, cycle := Timeout(a.heard), Cycle(a.heard);
    if first.RefreshBanner? && second.SilentBanner? && a.expiries == b.expiries then limit < t <= limit + gap
    else if first.SilentBanner? && second.RefreshBanner? then t >= 59 * cycle + MLR_REFRESH
    else t >= 60 * cycle
  }

  /** The expiry a going-silent banner announces comes before the next banner. */
  lemma LaterExpiry(a: Course, b: Course, first: Event, second: Event, gap: int)
    requires EventOk(a, first, gap) && EventOk(b, second, gap) && first.SilentBanner? && IsBanner(second)
    requires SilenceTakesTime(a, first.time, b)
    ensures a.expiries < b.expiries
  {
    hide Announced, AnnouncedBelow, AnnouncedAfter;
  }

  lemma AnnouncedCounts(a: Course, b: Course, first: Event, second: Event, gap: int)
    requires EventOk(a, first, gap) && EventOk(b, second, gap) && IsBanner(first) && IsBanner(second)
    requires 2 <= a.expiries < b.expiries < 0x1_0000_0000
    ensures b.expiries >= a.expiries + 60
  {
    AnnouncedApart(a.expiries, b.expiries);
  }

  lemma SilentThenBanner(a: Course, b: Course, first: Event, second: Event, gap: int)
    requires EventOk(a, first, gap) && EventOk(b, second, gap) && first.SilentBanner? && IsBanner(second)
    requires SilenceTakesTime(a, first.time, b)
    requires 2 <= a.expiries && b.expiries < 0x1_0000_0000
    ensures SpacedOut(first, second, a, b, second.time - first.time, gap)
  {
    LaterExpiry(a, b, first, second, gap);
    AnnouncedCounts(a, b, first, second, gap);
    hide Announced, AnnouncedBelow, AnnouncedAfter;
    AtLeastTimes(b.expiries - a.expiries - 1, 59, Cycle(a.heard));
  }

  lemma RefreshThenBanner(a: Course, b: Course, first: Event, second: Event, gap: int)
    requires EventOk(a, first, gap) && EventOk(b, second, gap) && first.RefreshBanner? && IsBanner(second)
    requires CyclesTakeTime(Advance(a, first), b)
    requires 2 <= a.expiries && b.expiries < 0x1_0000_0000
    ensures SpacedOut(first, second, a, b, second.time - first.time, gap)
  {
    if a.expiries < b.expiries {
      AnnouncedCounts(a, b, first, second, gap);
      AtLeastTimes(b.expiries - a.expiries, 60, Cycle(a.heard));
    } else {
      OneRefreshBanner(a, b, first, second, gap);
    }
    hide Announced, AnnouncedBelow, AnnouncedAfter;
  }

  /** A spell has one refresh banner at most. */
  lemma OneRefreshBanner(a: Course, b: Course, first: Event, second: Event, gap: int)
    requires EventOk(a, first, gap) && EventOk(b, second, gap) && first.RefreshBanner? && IsBanner(second)
    requires CyclesTakeTime(Advance(a, first), b) && a.expiries == b.expiries
    ensures second.SilentBanner?
  {
    hide Announced, AnnouncedBelow, AnnouncedAfter;
  }

  lemma BannersOfLog(log: seq<Event>, gap: int, i: nat, j: nat)
    requires Sound(log, gap) && i < j < |log| && IsBanner(log[i]) && IsBanner(log[j])
    requires forall m :: i <= m < j ==> !log[m].Beacon?
    requires 2 <= CourseOf(log[..i]).expiries && CourseOf(log[..j]).expiries < 0x1_0000_0000
    ensures SpacedOut(log[i], log[j], CourseOf(log[..i]), CourseOf(log[..j]), log[j].time - log[i].time, gap)
  {
    var a, b := CourseOf(log[..i]), CourseOf(log[..j]);
    CourseShape(log, gap, i);
    CourseStep(log, gap, i);
    CourseStep(log, gap, j);
    hide Sound, CourseOf, EventOk, SpacedOut, CyclesTakeTime, SilenceTakesTime;
    if log[i].SilentBanner? {
      SilenceOfLog(log, gap, i, j);
      SilentThenBanner(a, b, log[i], log[j], gap);
    } else {
      ListensAt(a, log[i], gap);
      CyclesOfLog(log, gap, i + 1, j);
      RefreshThenBanner(a, b, log[i], log[j], gap);
    }
  }

  lemma ListensAt(k: Course, e: Event, gap: int)
    requires EventOk(k, e, gap) && e.RefreshBanner?
    ensures Advance(k, e).listening && Advance(k, e).activated
  {
  }

  /** The heartbeat: without a beacon in between, and past the first two cycles, banners come in
      pairs, a refresh banner and the going-silent banner a timeout later; any two banners of one kind
      are sixty cycles apart at least, more than three hours (three and a half once a beacon has been
      heard), where a comment promises about sixty minutes. */
  lemma HeartbeatSpacing(id: word64, start: int, ops: seq<Op>, gap: int, i: nat, j: nat)
    requires Timed(start, ops, gap) && i < j < |History(id, ops)|
    requires IsBanner(History(id, ops)[i]) && IsBanner(History(id, ops)[j])
    requires forall m :: i <= m < j ==> !History(id, ops)[m].Beacon?
    requires 2 <= CourseOf(History(id, ops)[..i]).expiries && CourseOf(History(id, ops)[..j]).expiries < 0x1_0000_0000
    ensures var log := History(id, ops);
            var a, b := CourseOf(log[..i]), CourseOf(log[..j]);
            && SpacedOut(log[i], log[j], a, b, log[j].time - log[i].time, gap)
            && ((log[i].SilentBanner? <==> log[j].SilentBanner?) ==> log[j].time - log[i].time >= 60 * Cycle(a.heard))
            && 60 * Cycle(a.heard) > 3 * 60 * 60 * 1000
  {
    var log := History(id, ops);
    HistorySound(id, start, ops, gap);
    hide Run, Sound;
    BannersOfLog(log, gap, i, j);
  }
}
