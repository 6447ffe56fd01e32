/**
  The Arduino class's limit of one hundred text logs a second, over runs. The clock is
  millis(), a 32-bit count of milliseconds that wraps; a call carries the true time, of which
  the limiter sees the remainder.
 */
module RateLimit {
  import opened Words

  const WRAP: int := 0x1_0000_0000
  const MAX_LOGS: int := 100

  datatype Limiter = Limiter(windowStart: word32, count: word16, dropped: word32)

  const FRESH: Limiter := Limiter(0, 0, 0)

  function Millis(time: nat): word32 { time % WRAP }

  /** A new window starts when millis() is in another second than the old window's start. */
  function Roll(l: Limiter, now: word32): Limiter {
    if now / 1000 != l.windowStart / 1000 then l.(windowStart := now, count := 0) else l
  }

  predicate Allows(l: Limiter, now: word32) { Roll(l, now).count < MAX_LOGS }

  function Attempted(l: Limiter, now: word32): Limiter {
    var r := Roll(l, now);
    if r.count >= MAX_LOGS then r.(dropped := Inc32(r.dropped)) else r.(count := r.count + 1)
  }

  /* ---- runs ---- */

  datatype Call = Attempt(time: nat) | Reset

  function StepOf(l: Limiter, call: Call): Limiter {
    match call
    case Attempt(t) => Attempted(l, Millis(t))
    case Reset => FRESH
  }

  function After(l: Limiter, calls: seq<Call>): Limiter {
    if calls == [] then l else StepOf(After(l, calls[..|calls| - 1]), calls[|calls| - 1])
  }

  predicate PassesAt(l: Limiter, call: Call) { call.Attempt? && Allows(l, Millis(call.time)) }

  /** How many of the calls get through. */
  function Passed(l: Limiter, calls: seq<Call>): nat {
    if calls == [] then 0
    else
      var front := calls[..|calls| - 1];
      Passed(l, front) + (if PassesAt(After(l, front), calls[|calls| - 1]) then 1 else 0)
  }

  function Resets(calls: seq<Call>): nat {
    if calls == [] then 0
    else Resets(calls[..|calls| - 1]) + (if calls[|calls| - 1].Reset? then 1 else 0)
  }

  /** Time does not go back, and every attempt lies between first and last. */
  ghost predicate Within(calls: seq<Call>, first: nat, last: nat) {
    && first <= last
    && (forall i :: 0 <= i < |calls| && calls[i].Attempt? ==> first <= calls[i].time <= last)
    && (forall i, j :: 0 <= i < j < |calls| && calls[i].Attempt? && calls[j].Attempt? ==> calls[i].time <= calls[j].time)
  }

  /** The clock's seconds counted through: 4294968 to a wrap, the last of them 296 ms long. */
  function Second(time: nat): nat { time / WRAP * 4_294_968 + time % WRAP / 1000 }

  lemma SecondMonotone(t: nat, later: nat)
    requires t <= later
    ensures Second(t) <= Second(later)
    ensures Second(t) == Second(later) ==> Millis(t) / 1000 == Millis(later) / 1000
  {
    SecondWithin(t);
    SecondWithin(later);
    if t / WRAP == later / WRAP {
      assert t % WRAP <= later % WRAP;
    } else {
      assert t / WRAP + 1 <= later / WRAP;
    }
  }

  lemma SecondWithin(t: nat)
    ensures t == t / WRAP * WRAP + t % WRAP && 0 <= t % WRAP / 1000 < 4_294_968
  {
  }

  /** From t to less than a second later the clock shows at most two seconds, or three if it
      wraps on the way. */
  lemma SecondsOfSpan(t: nat, later: nat)
    requires t <= later < t + 1000
    ensures Second(later) <= Second(t) + 2
    ensures t / WRAP == later / WRAP ==> Second(later) <= Second(t) + 1
  {
    SecondWithin(t);
    SecondWithin(later);
    if t / WRAP != later / WRAP {
      assert later / WRAP == t / WRAP + 1;
      assert later % WRAP < 1000 && t % WRAP > WRAP - 1000;
    }
  }

  predicate InWindow(l: Limiter, time: nat) { l.windowStart / 1000 == Millis(time) / 1000 }

  lemma {:induction false} CountBounded(l: Limiter, calls: seq<Call>)
    requires l.count <= MAX_LOGS
    ensures After(l, calls).count <= MAX_LOGS
  {
    if calls != [] {
      CountBounded(l, calls[..|calls| - 1]);
    }
  }

  lemma {:induction false} PassesAccountedFor(l: Limiter, calls: seq<Call>, first: nat, last: nat)
    requires l.count <= MAX_LOGS && Within(calls, first, last)
    ensures Passed(l, calls) <= MAX_LOGS * (Second(last) - Second(first) + Resets(calls))
                                + (if InWindow(After(l, calls), last) then After(l, calls).count else 0)
  {
    SecondMonotone(first, last);
    if calls != [] {
      var front, c := calls[..|calls| - 1], calls[|calls| - 1];
      CountBounded(l, front);
      if c.Attempt? {
        assert Within(front, first, c.time);
        PassesAccountedFor(l, front, first, c.time);
        SecondMonotone(first, c.time);
        SecondMonotone(c.time, last);
        hide Second;
      } else {
        PassesAccountedFor(l, front, first, last);
      }
    }
  }

  /** In any run, whatever went before, the calls made between two moments let at most one
      hundred logs through for each second the clock shows and one hundred for each reset. */
  lemma SpanBound(before: seq<Call>, during: seq<Call>, first: nat, last: nat)
    requires Within(during, first, last)
    ensures Passed(After(FRESH, before), during) <= MAX_LOGS * (Second(last) - Second(first) + 1 + Resets(during))
  {
    CountBounded(FRESH, before);
    PassesAccountedFor(After(FRESH, before), during, first, last);
    CountBounded(After(FRESH, before), during);
    hide Second, After, Passed, Resets;
  }

  /** One hundred per second of the clock. */
  lemma PerClockSecond(before: seq<Call>, during: seq<Call>, first: nat, last: nat)
    requires Within(during, first, last) && Second(first) == Second(last)
    ensures Passed(After(FRESH, before), during) <= MAX_LOGS * (1 + Resets(during))
  {
    SpanBound(before, during, first, last);
  }

  /** Two hundred in any 1000 ms, three hundred if the clock wraps in them. */
  lemma AnySecond(before: seq<Call>, during: seq<Call>, first: nat, last: nat)
    requires Within(during, first, last) && last < first + 1000
    ensures Passed(After(FRESH, before), during) <= MAX_LOGS * (3 + Resets(during))
    ensures first / WRAP == last / WRAP ==> Passed(After(FRESH, before), during) <= MAX_LOGS * (2 + Resets(during))
  {
    SpanBound(before, during, first, last);
    SecondsOfSpan(first, last);
    hide Second, After, Passed, Resets;
  }

  /* ---- nothing less is let through ---- */

  lemma {:induction false} Concatenated(l: Limiter, a: seq<Call>, b: seq<Call>)
    ensures After(l, a + b) == After(After(l, a), b)
    ensures Passed(l, a + b) == Passed(l, a) + Passed(After(l, a), b)
    ensures Resets(a + b) == Resets(a) + Resets(b)
    decreases |b|
  {
    if b == [] {
      assert a + b == a;
    } else {
      Concatenated(l, a, b[..|b| - 1]);
      assert (a + b)[..|a + b| - 1] == a + b[..|b| - 1];
    }
  }

  predicate AllInSecond(calls: seq<Call>, window: int) {
    forall i :: 0 <= i < |calls| ==> calls[i].Attempt? && Millis(calls[i].time) / 1000 == window
  }

  /** Of the attempts in a second that the limiter has not seen, the first hundred pass. */
  lemma {:induction false} FirstHundredPass(l: Limiter, calls: seq<Call>, window: int)
    requires AllInSecond(calls, window) && (l.windowStart / 1000 != window || l.count == 0)
    ensures Passed(l, calls) == if |calls| < MAX_LOGS then |calls| else MAX_LOGS
    ensures calls != [] ==> After(l, calls).windowStart / 1000 == window && After(l, calls).count == Passed(l, calls)
  {
    if calls != [] {
      FirstHundredPass(l, calls[..|calls| - 1], window);
    }
  }

  function Burst(time: nat): seq<Call> { seq(100, i => Attempt(time)) }

  lemma BurstPasses(l: Limiter, time: nat)
    requires l.windowStart / 1000 != Millis(time) / 1000 || l.count == 0
    ensures Passed(l, Burst(time)) == 100 && After(l, Burst(time)).windowStart / 1000 == Millis(time) / 1000
    ensures Resets(Burst(time)) == 0 && Within(Burst(time), time, time)
  {
    FirstHundredPass(l, Burst(time), Millis(time) / 1000);
    NoResets(Burst(time));
  }

  lemma {:induction false} NoResets(calls: seq<Call>)
    requires forall i :: 0 <= i < |calls| ==> calls[i].Attempt?
    ensures Resets(calls) == 0
  {
    if calls != [] {
      NoResets(calls[..|calls| - 1]);
    }
  }

  lemma OneAfterAnother(a: seq<Call>, b: seq<Call>, first: nat, mid: nat, next: nat, last: nat)
    requires mid <= next
    ensures Within(a, first, mid) && Within(b, next, last) ==> Within(a + b, first, last)
  {
  }

  /** Three hundred logs do pass within 298 ms around a wrap, without any reset. */
  lemma WrapLetsThreeHundredPass()
    ensures var during := Burst(WRAP - 297) + Burst(WRAP - 296) + Burst(WRAP);
            Within(during, WRAP - 297, WRAP) && Resets(during) == 0 && Passed(FRESH, during) == 300
  {
    var a, b, c := Burst(WRAP - 297), Burst(WRAP - 296), Burst(WRAP);
    hide Burst, Within, After, Passed, Resets;
    OneAfterAnother(a, b, WRAP - 297, WRAP - 297, WRAP - 296, WRAP - 296);
    OneAfterAnother(a + b, c, WRAP - 297, WRAP - 296, WRAP, WRAP);
    BurstPasses(FRESH, WRAP - 297);
    BurstPasses(After(FRESH, a), WRAP - 296);
    Concatenated(FRESH, a, b);
    BurstPasses(After(FRESH, a + b), WRAP);
    Concatenated(FRESH, a + b, c);
  }

  /** Two hundred pass within 2 ms around any other full second. */
  lemma SecondLetsTwoHundredPass(s: nat)
    requires 1 <= s < 4_294_968
    ensures var during := Burst(1000 * s - 1) + Burst(1000 * s);
            Within(during, 1000 * s - 1, 1000 * s) && Resets(during) == 0 && Passed(FRESH, during) == 200
  {
    hide Burst, Within, After, Passed, Resets;
    OneAfterAnother(Burst(1000 * s - 1), Burst(1000 * s), 1000 * s - 1, 1000 * s - 1, 1000 * s, 1000 * s);
    BurstPasses(FRESH, 1000 * s - 1);
    BurstPasses(After(FRESH, Burst(1000 * s - 1)), 1000 * s);
    Concatenated(FRESH, Burst(1000 * s - 1), Burst(1000 * s));
  }

  function BurstsWithResets(time: nat, n: nat): seq<Call> {
    if n == 0 then Burst(time) else BurstsWithResets(time, n - 1) + ([Reset] + Burst(time))
  }

  /** Each reset lets a hundred more pass, all in the same millisecond. */
  lemma {:induction false} EachResetLetsAHundredPass(time: nat, n: nat)
    ensures var during := BurstsWithResets(time, n);
            Within(during, time, time) && Resets(during) == n && Passed(FRESH, during) == MAX_LOGS * (1 + n)
  {
    if n == 0 {
      BurstPasses(FRESH, time);
    } else {
      EachResetLetsAHundredPass(time, n - 1);
      var again := [Reset] + Burst(time);
      assert Within(BurstsWithResets(time, n - 1) + again, time, time);
      hide Burst, Within, After, Passed, Resets;
      ResetThenBurst(After(FRESH, BurstsWithResets(time, n - 1)), time);
      Concatenated(FRESH, BurstsWithResets(time, n - 1), again);
    }
  }

  lemma ResetThenBurst(l: Limiter, time: nat)
    ensures Passed(l, [Reset] + Burst(time)) == 100 && Resets([Reset] + Burst(time)) == 1
  {
    Concatenated(l, [Reset], Burst(time));
    assert [Reset][..0] == [];
    assert After(l, [Reset]) == FRESH && Passed(l, [Reset]) == 0 && Resets([Reset]) == 1;
    BurstPasses(FRESH, time);
  }
}
