/** The interval between two unanswered discovery queries, as both mDNS ports compute it. */
module Backoff {
  import opened Words

  const MIN_INTERVAL: word32 := 60_000
  const MAX_INTERVAL: word32 := 300_000

  /** Doubled in 32 bits, then brought into range. */
  function NextInterval(interval: word32): (r: word32)
    ensures MIN_INTERVAL <= r <= MAX_INTERVAL
  {
    var doubled := interval * 2 % 0x1_0000_0000;
    if doubled > MAX_INTERVAL then MAX_INTERVAL
    else if doubled < MIN_INTERVAL then MIN_INTERVAL
    else doubled
  }

  function AfterFailures(start: word32, k: nat): word32 {
    if k == 0 then start else NextInterval(AfterFailures(start, k - 1))
  }

  function Least(a: int, b: int): int { if a < b then a else b }

  lemma {:induction false} Doubling(start: word32, k: nat)
    requires MIN_INTERVAL <= start <= MAX_INTERVAL
    ensures AfterFailures(start, k) == Least(start * Pow2(k), MAX_INTERVAL)
  {
    if k > 0 {
      Doubling(start, k - 1);
      Twice(start, Pow2(k - 1));
      AtLeastOnce(start, Pow2(k - 1));
      NextOf(AfterFailures(start, k - 1));
      hide NextInterval;
    }
  }

  lemma NextOf(interval: word32)
    requires MIN_INTERVAL <= interval <= MAX_INTERVAL
    ensures NextInterval(interval) == Least(2 * interval, MAX_INTERVAL)
  {
  }

  lemma AtLeastOnce(a: int, b: int)
    requires a >= 0 && b >= 1
    ensures a * b >= a
  {
    assert a * b - a == a * (b - 1);
  }

  lemma Twice(a: int, b: int)
    ensures a * (2 * b) == 2 * (a * b)
  {
  }

  lemma {:induction false} FirstFailure(start: word32, k: nat)
    requires k >= 1
    ensures AfterFailures(start, k) == AfterFailures(NextInterval(start), k - 1)
  {
    if k > 1 {
      FirstFailure(start, k - 1);
    }
  }

  /** From Arduino's initial 0 the interval after k failures is the least of 60 s doubled k-1
      times and 300 s. */
  lemma {:induction false} ArduinoClosedForm(k: nat)
    requires k >= 1
    ensures AfterFailures(0, k) == Least(60_000 * Pow2(k - 1), 300_000)
  {
    FirstFailure(0, k);
    Doubling(60_000, k - 1);
  }

  /** From ESP-IDF's default of 60 s it is doubled k times. */
  lemma {:induction false} IdfClosedForm(k: nat)
    ensures AfterFailures(60_000, k) == Least(60_000 * Pow2(k), 300_000)
  {
    Doubling(60_000, k);
  }

  /** Whatever 32-bit interval was configured, the first failure brings the interval into range,
      and from the fourth on it is 300 s. */
  lemma AnyStart(start: word32, k: nat)
    requires k >= 1
    ensures MIN_INTERVAL <= AfterFailures(start, k) <= MAX_INTERVAL
    ensures k >= 4 ==> AfterFailures(start, k) == MAX_INTERVAL
  {
    FirstFailure(start, k);
    Doubling(NextInterval(start), k - 1);
    if k >= 4 {
      PowerAtLeastEight(k - 1);
      AtLeast(NextInterval(start), Pow2(k - 1));
    }
  }

  lemma AtLeast(a: int, b: int)
    requires a >= 60_000 && b >= 8
    ensures a * b >= 480_000
  {
    assert a * b >= a * 8;
  }

  lemma {:induction false} PowerAtLeastEight(k: nat)
    requires k >= 3
    ensures Pow2(k) >= 8
  {
    if k > 3 {
      PowerAtLeastEight(k - 1);
    } else {
      assert Pow2(3) == 2 * Pow2(2) == 4 * Pow2(1) == 8 * Pow2(0);
    }
  }

  /** The waiting imposed by k failures in a row, each interval counted once. */
  function Total(start: word32, k: nat): nat {
    if k == 0 then 0 else Total(start, k - 1) + AfterFailures(start, k)
  }

  lemma FirstThree()
    ensures AfterFailures(0, 1) == 60_000 && AfterFailures(0, 2) == 120_000 && AfterFailures(0, 3) == 240_000
  {
    assert AfterFailures(0, 1) == NextInterval(AfterFailures(0, 0));
    assert AfterFailures(0, 2) == NextInterval(AfterFailures(0, 1));
    assert AfterFailures(0, 3) == NextInterval(AfterFailures(0, 2));
  }

  lemma {:induction false} TotalFromZero(k: nat)
    ensures Total(0, k) == if k == 0 then 0 else if k == 1 then 60_000 else if k == 2 then 180_000
                           else 420_000 + (k - 3) * 300_000
  {
    FirstThree();
    hide AfterFailures;
    if k > 0 {
      TotalFromZero(k - 1);
      if k >= 4 {
        AnyStart(0, k);
      }
    }
  }

  /** A query that was made: when it began and ended, and whether a listener answered. */
  datatype Visit = Visit(begin: nat, end: nat, found: bool)

  /** The interval left behind by a history of queries. */
  function IntervalAfter(start: word32, queries: seq<Visit>): word32 {
    if queries == [] then start
    else if queries[|queries| - 1].found then MIN_INTERVAL
    else NextInterval(IntervalAfter(start, queries[..|queries| - 1]))
  }

  function ActiveAfter(queries: seq<Visit>): bool { queries != [] && queries[|queries| - 1].found }

  function Wait(start: word32, queries: seq<Visit>): word32 {
    if ActiveAfter(queries) then MAX_INTERVAL else IntervalAfter(start, queries)
  }

  lemma OneMoreQuery(start: word32, queries: seq<Visit>, v: Visit)
    ensures ActiveAfter(queries + [v]) == v.found
    ensures IntervalAfter(start, queries + [v]) ==
            if v.found then MIN_INTERVAL else NextInterval(IntervalAfter(start, queries))
  {
    assert (queries + [v])[..|queries + [v]| - 1] == queries;
  }

  lemma {:induction false} IntervalOfFailures(start: word32, queries: seq<Visit>)
    requires forall i :: 0 <= i < |queries| ==> !queries[i].found
    ensures IntervalAfter(start, queries) == AfterFailures(start, |queries|)
  {
    if queries != [] {
      IntervalOfFailures(start, queries[..|queries| - 1]);
    }
  }

  lemma IntervalInRange(start: word32, queries: seq<Visit>)
    requires queries != []
    ensures MIN_INTERVAL <= IntervalAfter(start, queries) <= MAX_INTERVAL
    ensures MIN_INTERVAL <= Wait(start, queries) <= MAX_INTERVAL
  {
  }

  /** The calls of loop() or poll in a run: time does not go back. */
  ghost predicate InOrder(visits: seq<Visit>) {
    && (forall i :: 0 <= i < |visits| ==> visits[i].begin <= visits[i].end)
    && (forall i, j :: 0 <= i < j < |visits| ==> visits[i].end <= visits[j].begin)
  }

  /** From `from` on every query says whether there is a listener, which stays as it is. */
  ghost predicate Settled(visits: seq<Visit>, from: int, present: bool) {
    forall i :: 0 <= i < |visits| && visits[i].begin >= from ==> visits[i].found == present
  }

  ghost predicate Frequent(visits: seq<Visit>, gap: int) {
    forall i :: 0 < i < |visits| ==> visits[i].begin - visits[i - 1].begin <= gap
  }

  /** n calls, one every unit of time, that would find no listener. */
  function Ticks(from: nat, n: nat): seq<Visit> { seq(n, i requires 0 <= i < n => Visit(from + i, from + i, false)) }

  lemma OneTickMore(from: nat, n: nat)
    ensures Ticks(from, n + 1) == Ticks(from, n) + [Visit(from + n, from + n, false)]
  {
  }
}

/** Arduino's loop(): milliseconds in 32 bits, the clock read once before the query. */
module ArduinoDiscovery {
  import opened Words
  import opened Backoff

  const WRAP: int := 0x1_0000_0000

  function Millis(time: nat): word32 { time % WRAP }

  datatype Finder = Finder(active: bool, last: word32, interval: word32)

  const IDLE: Finder := Finder(false, 0, 0)

  predicate Due(f: Finder, now: word32) {
    (now - f.last) % WRAP >= if f.active then MAX_INTERVAL else f.interval
  }

  function Looked(f: Finder, now: word32, found: bool): Finder {
    Finder(found, now, if found then MIN_INTERVAL else NextInterval(f.interval))
  }

  function Loop(f: Finder, now: word32, found: bool): Finder {
    if Due(f, now) then Looked(f, now, found) else f
  }

  function Forced(f: Finder): Finder { f.(last := 0, interval := 0) }

  /** After forceDiscovery() the next loop() queries at once if and only if no listener is
      active or the clock shows at least 300 s: an active listener's interval is not reset. */
  lemma ForcedExact(f: Finder, now: word32)
    ensures Due(Forced(f), now) <==> !f.active || now >= MAX_INTERVAL
  {
  }

  /* ---- runs of loop() ---- */

  function After(visits: seq<Visit>): Finder {
    if visits == [] then IDLE
    else Loop(After(visits[..|visits| - 1]), Millis(visits[|visits| - 1].begin), visits[|visits| - 1].found)
  }

  /** The calls that made a query. */
  function Queries(visits: seq<Visit>): seq<Visit> {
    if visits == [] then []
    else
      var front, v := visits[..|visits| - 1], visits[|visits| - 1];
      if Due(After(front), Millis(v.begin)) then Queries(front) + [v] else Queries(front)
  }

  lemma FirstCallQueries(visits: seq<Visit>)
    requires |visits| == 1
    ensures Queries(visits) == visits
  {
    assert After(visits[..0]) == IDLE;
    assert Due(IDLE, Millis(visits[0].begin));
  }

  /** The state is what the history of queries says. */
  lemma {:induction false} StateOfHistory(visits: seq<Visit>)
    ensures var q := Queries(visits);
            && After(visits).active == ActiveAfter(q) && After(visits).interval == IntervalAfter(0, q)
            && After(visits).last == if q == [] then 0 else Millis(q[|q| - 1].begin)
    ensures visits != [] ==> Queries(visits) != []
  {
    if |visits| == 1 {
      FirstCallQueries(visits);
    }
    if visits != [] {
      StateOfHistory(visits[..|visits| - 1]);
      OneMoreQuery(0, Queries(visits[..|visits| - 1]), visits[|visits| - 1]);
      hide Due, Millis, NextInterval, IntervalAfter, ActiveAfter;
    }
  }

  lemma {:induction false} QueryIn(visits: seq<Visit>, k: nat) returns (i: nat)
    requires k < |Queries(visits)|
    ensures i < |visits| && Queries(visits)[k] == visits[i]
  {
    var front := visits[..|visits| - 1];
    if k < |Queries(front)| {
      i := QueryIn(front, k);
    } else {
      i := |visits| - 1;
    }
  }

  /** The 32-bit difference never exceeds the true one. */
  lemma WrappedDifference(a: nat, b: nat)
    requires a <= b
    ensures (Millis(b) - Millis(a)) % WRAP <= b - a
    ensures b - a < WRAP ==> (Millis(b) - Millis(a)) % WRAP == b - a
  {
    var d, k := b - a, b / WRAP - a / WRAP;
    assert b % WRAP - a % WRAP == d - WRAP * k;
    assert (d - WRAP * k) % WRAP == d % WRAP;
  }

  lemma WaitedInFull(f: Finder, s: nat, now: nat)
    requires f.last == Millis(s) && s <= now
    ensures Due(f, Millis(now)) ==> now - s >= if f.active then MAX_INTERVAL else f.interval
  {
    WrappedDifference(s, now);
    hide Millis;
  }

  /** In every run, across any number of wraps, a query never comes before the interval its
      predecessors left behind has passed in true time. */
  lemma {:induction false} NeverEarly(visits: seq<Visit>, k: nat)
    requires InOrder(visits) && 0 < k < |Queries(visits)|
    ensures var q := Queries(visits); q[k].begin - q[k - 1].begin >= Wait(0, q[..k])
  {
    var front, v := visits[..|visits| - 1], visits[|visits| - 1];
    var q := Queries(front);
    if k < |q| {
      NeverEarly(front, k);
      assert Queries(visits)[..k] == q[..k];
    } else {
      StateOfHistory(front);
      var i := QueryIn(front, k - 1);
      assert visits[i].end <= v.begin;
      WaitedInFull(After(front), q[k - 1].begin, v.begin);
      hide Due, Millis, After, IntervalAfter;
      assert Queries(visits) == q + [v] && (q + [v])[..k] == q;
    }
  }

  /** So while nobody answers, the k-th query after the first is no earlier than the sum of the
      intervals before it. */
  lemma {:induction false} NotBeforeTheSum(visits: seq<Visit>, k: nat)
    requires InOrder(visits) && k < |Queries(visits)|
    requires forall i :: 0 <= i < k ==> !Queries(visits)[i].found
    ensures Queries(visits)[k].begin >= Queries(visits)[0].begin + Total(0, k)
  {
    if k > 0 {
      NotBeforeTheSum(visits, k - 1);
      NeverEarly(visits, k);
      IntervalOfFailures(0, Queries(visits)[..k]);
    }
  }

  lemma NotDueYet(f: Finder, s: nat, now: nat)
    requires f.interval <= MAX_INTERVAL && f.last == Millis(s)
    requires !Due(f, Millis(now)) && 0 <= now - s < WRAP
    ensures now - s < MAX_INTERVAL
  {
    WrappedDifference(s, now);
  }

  /** After every call the last query is less than 300 s old. */
  lemma {:induction false} NeverLate(visits: seq<Visit>, gap: int)
    requires InOrder(visits) && Frequent(visits, gap) && gap <= WRAP - MAX_INTERVAL && visits != []
    ensures var q := Queries(visits);
            q != [] && q[|q| - 1] in visits
            && 0 <= visits[|visits| - 1].begin - q[|q| - 1].begin < MAX_INTERVAL
  {
    var front, v := visits[..|visits| - 1], visits[|visits| - 1];
    if front == [] {
      FirstCallQueries(visits);
    } else {
      NeverLate(front, gap);
      var s := Queries(front)[|Queries(front)| - 1];
      assert v.begin - front[|front| - 1].begin <= gap;
      if !Due(After(front), Millis(v.begin)) {
        StateOfHistory(front);
        IntervalInRange(0, Queries(front));
        NotDueYet(After(front), s.begin, v.begin);
      }
    }
  }

  /** A listener that appears or goes away at `from` and stays so is known after every call made
      299999 ms later or more, across wraps: within 300 s, one gap between calls and one query. */
  lemma LatencyBound(visits: seq<Visit>, gap: int, from: int, present: bool, n: nat)
    requires InOrder(visits) && Frequent(visits, gap) && gap <= WRAP - MAX_INTERVAL
    requires Settled(visits, from, present)
    requires n < |visits| && visits[n].begin >= from + MAX_INTERVAL - 1
    ensures After(visits[..n + 1]).active == present
  {
    var run := visits[..n + 1];
    NeverLate(run, gap);
    StateOfHistory(run);
  }

  predicate DueAt(f: Finder, time: nat) { Due(f, Millis(time)) }

  ghost predicate IdleFrom(f: Finder, from: nat, to: nat) {
    forall t: nat :: from <= t < to ==> !DueAt(f, t)
  }

  lemma {:induction false} TicksIdle(visits: seq<Visit>, from: nat, n: nat)
    requires IdleFrom(After(visits), from, from + n)
    ensures After(visits + Ticks(from, n)) == After(visits)
  {
    hide Due, Millis;
    if n == 0 {
      assert visits + Ticks(from, 0) == visits;
    } else {
      TicksIdle(visits, from, n - 1);
      OneTickMore(from, n - 1);
      var front, v := visits + Ticks(from, n - 1), Visit(from + n - 1, from + n - 1, false);
      assert !DueAt(After(visits), from + n - 1);
      assert visits + Ticks(from, n) == front + [v];
      assert (front + [v])[..|front|] == front;
    }
  }

  /** loop() is called every millisecond; right after a query the listener goes away. */
  function StaleVisits(from: nat): seq<Visit>
    requires from >= 1
  {
    [Visit(from - 1, from - 1, true)] + Ticks(from, MAX_INTERVAL - 1)
  }

  /** One millisecond less is too little, however often loop() is called: a listener that goes away
      right after a query is still taken for active 299998 ms later. */
  lemma StaleUntilThen(from: nat)
    requires from >= 1
    ensures var visits := StaleVisits(from);
            && InOrder(visits) && Frequent(visits, 1) && Settled(visits, from, false)
            && visits[|visits| - 1].begin == from + MAX_INTERVAL - 2 && After(visits).active
  {
    var first := Visit(from - 1, from - 1, true);
    FirstQuery(first);
    QuietAfterQuery(from - 1);
    TicksIdle([first], from, MAX_INTERVAL - 1);
  }

  /** After a query that found a listener no other is due for 300 s. */
  lemma QuietAfterQuery(s: nat)
    ensures IdleFrom(Finder(true, Millis(s), MIN_INTERVAL), s, s + MAX_INTERVAL)
  {
    forall t: nat | s <= t < s + MAX_INTERVAL
      ensures !DueAt(Finder(true, Millis(s), MIN_INTERVAL), t)
    {
      WrappedDifference(s, t);
    }
  }

  lemma FirstQuery(v: Visit)
    ensures After([v]) == Looked(IDLE, Millis(v.begin), v.found)
  {
    assert [v][..0] == [];
  }
}

/** ESP-IDF's poll: microseconds in 64 bits, the clock read again after the query. */
module IdfDiscovery {
  import opened Words
  import opened Backoff

  datatype Finder = Finder(active: bool, last: int, interval: word32)

  function Idle(interval: word32): Finder { Finder(false, 0, interval) }

  predicate Due(f: Finder, now: int) {
    f.last == 0 || now - f.last >= (if f.active then MAX_INTERVAL else f.interval) * 1000
  }

  function Poll(f: Finder, v: Visit): Finder {
    if Due(f, v.begin) then Finder(v.found, v.end, if v.found then MIN_INTERVAL else NextInterval(f.interval)) else f
  }

  function Forced(f: Finder): Finder { f.(last := 0, interval := MIN_INTERVAL) }

  function After(start: word32, visits: seq<Visit>): Finder {
    if visits == [] then Idle(start) else Poll(After(start, visits[..|visits| - 1]), visits[|visits| - 1])
  }

  function Queries(start: word32, visits: seq<Visit>): seq<Visit> {
    if visits == [] then []
    else
      var front, v := visits[..|visits| - 1], visits[|visits| - 1];
      if Due(After(start, front), v.begin) then Queries(start, front) + [v] else Queries(start, front)
  }

  lemma {:induction false} StateOfHistory(start: word32, visits: seq<Visit>)
    ensures var q := Queries(start, visits);
            && After(start, visits).active == ActiveAfter(q)
            && After(start, visits).interval == IntervalAfter(start, q)
            && After(start, visits).last == if q == [] then 0 else q[|q| - 1].end
    ensures visits != [] ==> Queries(start, visits) != []
  {
    if visits != [] {
      StateOfHistory(start, visits[..|visits| - 1]);
      OneMoreQuery(start, Queries(start, visits[..|visits| - 1]), visits[|visits| - 1]);
      assert visits[..0] == [];
    }
  }

  /** From the end of a query to the beginning of the next, the interval passes in full; the
      clock is past zero when a query ends. */
  lemma {:induction false} NeverEarly(start: word32, visits: seq<Visit>, k: nat)
    requires InOrder(visits) && 0 < k < |Queries(start, visits)|
    requires forall i :: 0 <= i < |visits| ==> visits[i].end > 0
    ensures var q := Queries(start, visits); q[k].begin - q[k - 1].end >= Wait(start, q[..k]) * 1000
  {
    var front, v := visits[..|visits| - 1], visits[|visits| - 1];
    var q := Queries(start, front);
    if k < |q| {
      NeverEarly(start, front, k);
      assert Queries(start, visits)[..k] == q[..k];
    } else {
      StateOfHistory(start, front);
      var i := QueryIn(start, front, k - 1);
      assert Queries(start, visits) == q + [v] && (q + [v])[..k] == q;
    }
  }

  lemma {:induction false} QueryIn(start: word32, visits: seq<Visit>, k: nat) returns (i: nat)
    requires k < |Queries(start, visits)|
    ensures i < |visits| && Queries(start, visits)[k] == visits[i]
  {
    var front := visits[..|visits| - 1];
    if k < |Queries(start, front)| {
      i := QueryIn(start, front, k);
    } else {
      i := |visits| - 1;
    }
  }

  lemma {:induction false} NotBeforeTheSum(start: word32, visits: seq<Visit>, k: nat)
    requires InOrder(visits) && k < |Queries(start, visits)|
    requires forall i :: 0 <= i < |visits| ==> visits[i].end > 0
    requires forall i :: 0 <= i < k ==> !Queries(start, visits)[i].found
    ensures Queries(start, visits)[k].begin >= Queries(start, visits)[0].begin + Total(start, k) * 1000
  {
    if k > 0 {
      NotBeforeTheSum(start, visits, k - 1);
      NeverEarly(start, visits, k);
      IntervalOfFailures(start, Queries(start, visits)[..k]);
      var i := QueryIn(start, visits, k - 1);
    }
  }

  /** After every call the last query ended less than 300 s before. */
  lemma {:induction false} NeverLate(start: word32, visits: seq<Visit>)
    requires InOrder(visits) && visits != []
    ensures var q := Queries(start, visits);
            q != [] && q[|q| - 1] in visits && visits[|visits| - 1].begin - q[|q| - 1].end < MAX_INTERVAL * 1000
  {
    var front, v := visits[..|visits| - 1], visits[|visits| - 1];
    StateOfHistory(start, visits);
    StateOfHistory(start, front);
    if front != [] {
      NeverLate(start, front);
      IntervalInRange(start, Queries(start, front));
    }
  }

  /** The same latency, with the query's own duration counted from its end. */
  lemma LatencyBound(start: word32, visits: seq<Visit>, query: int, from: int, present: bool, n: nat)
    requires InOrder(visits) && Settled(visits, from, present)
    requires forall i :: 0 <= i < |visits| ==> visits[i].end - visits[i].begin <= query
    requires n < |visits| && visits[n].begin >= from + query + MAX_INTERVAL * 1000
    ensures After(start, visits[..n + 1]).active == present
  {
    var run := visits[..n + 1];
    NeverLate(start, run);
    StateOfHistory(start, run);
  }
}

/** Runs of loop() with forced discoveries in between. */
module ForcedDiscovery {
  import opened Words
  import opened Backoff
  import opened ArduinoDiscovery

  datatype Call = Look(visit: Visit) | Force

  function Step(f: Finder, call: Call): Finder {
    match call
    case Look(v) => Loop(f, Millis(v.begin), v.found)
    case Force => Forced(f)
  }

  function AfterCalls(calls: seq<Call>): Finder {
    if calls == [] then IDLE else Step(AfterCalls(calls[..|calls| - 1]), calls[|calls| - 1])
  }

  /** The calls of loop(). */
  function Looks(calls: seq<Call>): seq<Visit> {
    if calls == [] then []
    else
      match calls[|calls| - 1]
      case Look(v) => Looks(calls[..|calls| - 1]) + [v]
      case Force => Looks(calls[..|calls| - 1])
  }

  function Unforced(visits: seq<Visit>): seq<Call> {
    seq(|visits|, i requires 0 <= i < |visits| => Look(visits[i]))
  }

  /** Without forced discoveries these are the runs above. */
  lemma {:induction false} UnforcedRuns(visits: seq<Visit>)
    ensures AfterCalls(Unforced(visits)) == After(visits) && Looks(Unforced(visits)) == visits
  {
    if visits != [] {
      var n := |visits| - 1;
      UnforcedRuns(visits[..n]);
      assert Unforced(visits)[..n] == Unforced(visits[..n]);
      assert visits == visits[..n] + [visits[n]];
      hide Loop;
    }
  }

  /** The state after a query begun at q, the last call of loop() being at v: either no discovery
      was forced since, or one was, and the clock's wrap it waits from is not long after q. */
  ghost predicate Waits(f: Finder, q: nat, v: nat, gap: int) {
    && q <= v && f.interval <= MAX_INTERVAL
    && (|| (f.last == Millis(q) && v - q < MAX_INTERVAL)
        || (f.last == 0 && f.interval == 0 && v - q < MAX_INTERVAL)
        || (f.last == 0 && f.interval == 0 && f.active && Millis(v) < MAX_INTERVAL
            && v - Millis(v) < q + MAX_INTERVAL + gap))
  }

  /** A later call either queries or leaves the same state. */
  lemma StillWaits(f: Finder, q: nat, v: nat, next: nat, gap: int)
    requires Waits(f, q, v, gap) && 0 <= next - v <= gap <= WRAP - MAX_INTERVAL && !Due(f, Millis(next))
    ensures Waits(f, q, next, gap)
  {
    if f.last == Millis(q) && v - q < MAX_INTERVAL {
      NotDueYet(f, q, next);
    } else if !(f.last == 0 && f.interval == 0 && v - q < MAX_INTERVAL) {
      SameWrap(v, next, gap);
    }
  }

  lemma SameWrap(v: nat, next: nat, gap: int)
    requires Millis(v) < MAX_INTERVAL && Millis(next) < MAX_INTERVAL && 0 <= next - v <= gap <= WRAP - MAX_INTERVAL
    ensures v - Millis(v) == next - Millis(next)
  {
    var a, b := v / WRAP, next / WRAP;
    assert v == a * WRAP + Millis(v) && next == b * WRAP + Millis(next);
    assert a <= b && (b - a) * WRAP < WRAP;
  }

  lemma ForceWaits(f: Finder, q: nat, v: nat, gap: int)
    requires Waits(f, q, v, gap)
    ensures Waits(Forced(f), q, v, gap)
  {
  }

  /** The state of a run: before the first call of loop() a query is due, and after it the last
      query q tells whether a listener is active. */
  lemma {:induction false} RunWaits(calls: seq<Call>, gap: int) returns (q: Visit)
    requires InOrder(Looks(calls)) && Frequent(Looks(calls), gap) && gap <= WRAP - MAX_INTERVAL
    ensures var f, looks := AfterCalls(calls), Looks(calls);
            if looks == [] then f == IDLE
            else q in looks && f.active == q.found && Waits(f, q.begin, looks[|looks| - 1].begin, gap)
  {
    q := Visit(0, 0, false);
    if calls != [] {
      var n := |calls| - 1;
      var looks := Looks(calls[..n]);
      match calls[n]
      case Force =>
        q := RunWaits(calls[..n], gap);
        if looks != [] {
          ForceWaits(AfterCalls(calls[..n]), q.begin, looks[|looks| - 1].begin, gap);
        }
      case Look(v) =>
        Shorter(looks, v, gap);
        q := RunWaits(calls[..n], gap);
        var f := AfterCalls(calls[..n]);
        assert Looks(calls) == looks + [v];
        if Due(f, Millis(v.begin)) {
          q := v;
        } else {
          assert looks != [];
          StillWaits(f, q.begin, looks[|looks| - 1].begin, v.begin, gap);
        }
        hide Due, Waits, InOrder, Frequent;
    }
  }

  lemma Shorter(looks: seq<Visit>, v: Visit, gap: int)
    requires InOrder(looks + [v]) && Frequent(looks + [v], gap)
    ensures InOrder(looks) && Frequent(looks, gap)
    ensures looks != [] ==> 0 <= v.begin - looks[|looks| - 1].begin <= gap
  {
    var more := looks + [v];
    assert forall i :: 0 <= i < |looks| ==> looks[i] == more[i];
    assert more[|looks|] == v;
    if looks != [] {
      assert more[|looks|].begin - more[|looks| - 1].begin <= gap;
      assert more[|looks| - 1].end <= more[|looks|].begin;
    }
  }

  lemma LastQueryYoung(f: Finder, q: nat, v: nat, gap: nat)
    requires Waits(f, q, v, gap)
    ensures v - q <= 2 * MAX_INTERVAL - 2 + gap
  {
  }

  /** With forced discoveries in the run a change is known after every call made 599998 ms and a
      gap between calls later: forcing with a listener active can put the next query off. */
  lemma LatencyBound(calls: seq<Call>, gap: nat, from: int, present: bool)
    requires InOrder(Looks(calls)) && Frequent(Looks(calls), gap) && gap <= WRAP - MAX_INTERVAL
    requires Settled(Looks(calls), from, present)
    requires Looks(calls) != [] && Looks(calls)[|Looks(calls)| - 1].begin >= from + 2 * MAX_INTERVAL - 2 + gap
    ensures AfterCalls(calls).active == present
  {
    var q := RunWaits(calls, gap);
    hide AfterCalls, Looks;
    var v := Looks(calls)[|Looks(calls)| - 1].begin;
    LastQueryYoung(AfterCalls(calls), q.begin, v, gap);
    var i :| 0 <= i < |Looks(calls)| && Looks(calls)[i] == q;
  }

  lemma {:induction false} CallsIdle(calls: seq<Call>, from: nat, n: nat)
    requires IdleFrom(AfterCalls(calls), from, from + n)
    ensures AfterCalls(calls + Unforced(Ticks(from, n))) == AfterCalls(calls)
  {
    hide Due, Millis;
    if n == 0 {
      assert calls + Unforced(Ticks(from, 0)) == calls;
    } else {
      CallsIdle(calls, from, n - 1);
      OneTickMore(from, n - 1);
      var front, look := calls + Unforced(Ticks(from, n - 1)), Look(Visit(from + n - 1, from + n - 1, false));
      assert !DueAt(AfterCalls(calls), from + n - 1);
      assert calls + Unforced(Ticks(from, n)) == front + [look];
      assert (front + [look])[..|front|] == front;
    }
  }

  lemma {:induction false} LooksConcat(a: seq<Call>, b: seq<Call>)
    ensures Looks(a + b) == Looks(a) + Looks(b)
    decreases |b|
  {
    if b == [] {
      assert a + b == a;
    } else {
      var n := |b| - 1;
      LooksConcat(a, b[..n]);
      assert (a + b)[..|a + b| - 1] == a + b[..n];
    }
  }

  /** loop() is called every millisecond; right after a query at s the listener goes away; 299999 ms
      later a discovery is forced, and after a pause of gap, which ends as the clock wraps, the calls
      go on. */
  function StaleCalls(s: nat, gap: nat): seq<Call> {
    [Look(Visit(s, s, true))] + Unforced(Ticks(s + 1, MAX_INTERVAL - 1)) + [Force]
    + Unforced(Ticks(s + MAX_INTERVAL - 1 + gap, MAX_INTERVAL))
  }

  /** And one millisecond less is too little, for every gap that loop() may leave: a listener goes
      away right after a query; a discovery forced shortly before the clock wraps, meant to find that
      out, puts it off by another 300 s. */
  lemma ForcingPutsOff(s: nat, gap: nat)
    requires 1 <= gap <= WRAP - MAX_INTERVAL && Millis(s + MAX_INTERVAL - 1 + gap) == 0
    ensures var calls, looks := StaleCalls(s, gap), Looks(StaleCalls(s, gap));
            && InOrder(looks) && Frequent(looks, gap) && Settled(looks, s + 1, false)
            && looks != [] && looks[|looks| - 1].begin == (s + 1) + 2 * MAX_INTERVAL - 3 + gap
            && AfterCalls(calls).active
  {
    StaleLooks(s, gap);
    StaleRun(s, gap);
    hide Looks, AfterCalls;
  }

  lemma StaleLooks(s: nat, gap: nat)
    ensures Looks(StaleCalls(s, gap)) ==
            [Visit(s, s, true)] + Ticks(s + 1, MAX_INTERVAL - 1) + Ticks(s + MAX_INTERVAL - 1 + gap, MAX_INTERVAL)
  {
    var first, idle := [Look(Visit(s, s, true))], Ticks(s + 1, MAX_INTERVAL - 1);
    var late := Ticks(s + MAX_INTERVAL - 1 + gap, MAX_INTERVAL);
    assert Looks([]) == [] && first[..0] == [] && [Force][..0] == [];
    assert Looks(first) == [Visit(s, s, true)] && Looks([Force]) == [];
    hide Looks;
    LooksConcat(first, Unforced(idle));
    LooksConcat(first + Unforced(idle), [Force]);
    LooksConcat(first + Unforced(idle) + [Force], Unforced(late));
    UnforcedRuns(idle);
    UnforcedRuns(late);
    hide Ticks;
    assert [Visit(s, s, true)] + idle + [] == [Visit(s, s, true)] + idle;
  }

  lemma StaleRun(s: nat, gap: nat)
    requires Millis(s + MAX_INTERVAL - 1 + gap) == 0
    ensures AfterCalls(StaleCalls(s, gap)) == Finder(true, 0, 0)
  {
    var first := [Look(Visit(s, s, true))];
    assert first[..0] == [] && AfterCalls([]) == IDLE;
    assert AfterCalls(first) == Finder(true, Millis(s), MIN_INTERVAL);
    QuietAfterQuery(s);
    CallsIdle(first, s + 1, MAX_INTERVAL - 1);
    var waiting := first + Unforced(Ticks(s + 1, MAX_INTERVAL - 1));
    assert (waiting + [Force])[..|waiting|] == waiting;
    var forced := waiting + [Force];
    assert AfterCalls(forced) == Finder(true, 0, 0);
    StaysPut(s + MAX_INTERVAL - 1 + gap);
    hide AfterCalls, Due, Millis;
    CallsIdle(forced, s + MAX_INTERVAL - 1 + gap, MAX_INTERVAL);
  }

  /** For 300 s from a wrap on, a forced discovery with an active listener is not due. */
  lemma StaysPut(wrap: nat)
    requires Millis(wrap) == 0
    ensures IdleFrom(Finder(true, 0, 0), wrap, wrap + MAX_INTERVAL)
  {
    forall t: nat | wrap <= t < wrap + MAX_INTERVAL
      ensures !DueAt(Finder(true, 0, 0), t)
    {
      WrappedDifference(wrap, t);
    }
  }
}

/** Polls of ESP-IDF with forced discoveries in between. */
module ForcedIdfDiscovery {
  import opened Words
  import opened Backoff
  import opened IdfDiscovery

  datatype Call = Look(visit: Visit) | Force

  function Step(f: Finder, call: Call): Finder {
    match call
    case Look(v) => Poll(f, v)
    case Force => Forced(f)
  }

  function AfterCalls(start: word32, calls: seq<Call>): Finder {
    if calls == [] then Idle(start) else Step(AfterCalls(start, calls[..|calls| - 1]), calls[|calls| - 1])
  }

  function Looks(calls: seq<Call>): seq<Visit> {
    if calls == [] then []
    else
      match calls[|calls| - 1]
      case Look(v) => Looks(calls[..|calls| - 1]) + [v]
      case Force => Looks(calls[..|calls| - 1])
  }

  /** A query ends no earlier than it begins, and no later than `query` after. */
  ghost predicate Proper(visits: seq<Visit>, query: int) {
    forall i :: 0 <= i < |visits| ==> 0 <= visits[i].end - visits[i].begin <= query
  }

  lemma {:induction false} RunWaits(start: word32, calls: seq<Call>, query: int) returns (q: Visit)
    requires Proper(Looks(calls), query)
    ensures var f, looks := AfterCalls(start, calls), Looks(calls);
            if looks == [] then f.last == 0
            else && q in looks && f.active == q.found && f.interval <= MAX_INTERVAL
                 && (f.last == 0 || f.last == q.end) && looks[|looks| - 1].begin - q.end < MAX_INTERVAL * 1000
  {
    q := Visit(0, 0, false);
    if calls != [] {
      var n := |calls| - 1;
      match calls[n]
      case Force => q := RunWaits(start, calls[..n], query);
      case Look(v) =>
        var looks := Looks(calls[..n]);
        assert Looks(calls) == looks + [v];
        assert forall i :: 0 <= i < |looks| ==> looks[i] == Looks(calls)[i];
        q := RunWaits(start, calls[..n], query);
        assert Looks(calls)[|looks|] == v;
        if Due(AfterCalls(start, calls[..n]), v.begin) {
          q := v;
        }
    }
  }

  /** Here forcing never delays: the bound is that of runs without it. */
  lemma LatencyBound(start: word32, calls: seq<Call>, query: int, from: int, present: bool)
    requires Settled(Looks(calls), from, present)
    requires Proper(Looks(calls), query)
    requires Looks(calls) != [] && Looks(calls)[|Looks(calls)| - 1].begin >= from + query + MAX_INTERVAL * 1000
    ensures AfterCalls(start, calls).active == present
  {
    var q := RunWaits(start, calls, query);
    var i :| 0 <= i < |Looks(calls)| && Looks(calls)[i] == q;
  }
}
