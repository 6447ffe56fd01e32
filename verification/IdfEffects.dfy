/**
  What each call of the ESP-IDF port does, in every run, in numbers, fields and bytes; and what a
  forced discovery brings about.
 */
module IdfEffects {
  import opened Words
  import opened Wire
  import opened Payloads
  import opened Receiver
  import opened Delivery
  import ListenerLease
  import Backoff
  import IdfDiscovery
  import EspIdf
  import opened IdfRuns

  /** The copies that a message leaves on the wire. */
  ghost predicate OnWire(c: EspIdf.Config, k: EspIdf.Core, k': EspIdf.Core, time: word32, logType: byte,
                         payload: seq<byte>)
  {
    var n := |k.wire|;
    && n <= |k'.wire| && k'.wire[..n] == k.wire
    && |k'.wire| == n + (if c.unicast then 1 else 0) + (if k.finder.active then 1 else 0)
    && (c.unicast ==> k'.wire[n].to == EspIdf.Unicast)
    && (k.finder.active ==> k'.wire[|k'.wire| - 1].to == EspIdf.Multicast)
    && (forall i :: n <= i < |k'.wire| ==> Carries(k'.wire[i].bytes, c.deviceId, time, logType, payload))
  }

  /** A message goes out as a unicast datagram if unicast is configured and as a multicast one if a
      listener is known, each its packet; it counts as sent if one of these two was taken whole, and
      otherwise as dropped. */
  ghost predicate MessageOut(c: EspIdf.Config, k: EspIdf.Core, k': EspIdf.Core, link: EspIdf.Link, logType: byte,
                             payload: seq<byte>)
  {
    var size := |payload| + 20;
    && k'.finder == k.finder
    && OnWire(c, k, k', link.clock / 1000 % 0x1_0000_0000, logType, payload)
    && if (c.unicast && link.unicastAccepted == size) || (k.finder.active && link.multicastAccepted == size)
       then k'.sent == (k.sent + 1) % 0x1_0000_0000 && k'.dropped == k.dropped
       else k'.sent == k.sent && k'.dropped == (k.dropped + 1) % 0x1_0000_0000
  }

  /** What the receiver shows of every datagram that has been added. */
  ghost predicate AllShown(k: EspIdf.Core, k': EspIdf.Core, id: word64, time: word32, parsed: Parsed) {
    forall i :: |k.wire| <= i < |k'.wire| ==>
      var m := Reading(k'.wire[i].bytes);
      m.Some? && m.value.header.deviceId == id && m.value.header.timestamp == time && m.value.parsed == parsed
  }

  predicate SomebodyListens(c: EspIdf.Config, k: EspIdf.Core) { c.initialised && (c.unicast || k.finder.active) }

  /** `send_message` itself; a message that nobody could receive, or of more than 1024 bytes, is
      dropped. */
  ghost predicate SendDone(c: EspIdf.Config, k: EspIdf.Core, k': EspIdf.Core, link: EspIdf.Link, logType: byte,
                           payload: seq<byte>)
  {
    if SomebodyListens(c, k) && |payload| <= 1004 then MessageOut(c, k, k', link, logType, payload)
    else k' == k.(dropped := (k.dropped + 1) % 0x1_0000_0000)
  }

  lemma SendExact(c: EspIdf.Config, k: EspIdf.Core, link: EspIdf.Link, logType: byte, payload: seq<byte>)
    ensures SendDone(c, k, EspIdf.Send(c, k, link, logType, payload), link, logType, payload)
  {
    hide Packet, MessageOut, EspIdf.Copies;
    if SomebodyListens(c, k) && |payload| <= 1004 {
      SendOpen(c, k, link, logType, payload);
      hide EspIdf.Send;
    }
  }

  lemma SendOpen(c: EspIdf.Config, k: EspIdf.Core, link: EspIdf.Link, logType: byte, payload: seq<byte>)
    requires SomebodyListens(c, k) && |payload| <= 1004
    ensures MessageOut(c, k, EspIdf.Send(c, k, link, logType, payload), link, logType, payload)
  {
    hide OnWire, Carries, Packet, EspIdf.Copies;
    var k', time := EspIdf.Send(c, k, link, logType, payload), EspIdf.Millis(link.clock);
    var packet := Packet(c.deviceId, time, logType, payload);
    assert k'.wire == k.wire + EspIdf.Copies(c, k, packet);
    PacketCarries(c.deviceId, time, logType, payload);
    CopiesLeave(c, k, k', packet, time, logType, payload);
  }

  lemma CopiesLeave(c: EspIdf.Config, k: EspIdf.Core, k': EspIdf.Core, packet: seq<byte>, time: word32, logType: byte,
                    payload: seq<byte>)
    requires Carries(packet, c.deviceId, time, logType, payload) && k'.wire == k.wire + EspIdf.Copies(c, k, packet)
    ensures OnWire(c, k, k', time, logType, payload)
  {
    hide Carries;
    var copies := EspIdf.Copies(c, k, packet);
    assert forall i :: 0 <= i < |copies| ==> copies[i].bytes == packet;
    assert forall i :: |k.wire| <= i < |k'.wire| ==> k'.wire[i] == copies[i - |k.wire|];
  }

  /** A search is made at the first poll, and then 300 s after the end of the last one if it found a
      listener, and otherwise after the interval: 60 s after an answer, twice the last without, at
      most 300 s and at least 60 s. */
  predicate Polled(f: IdfDiscovery.Finder, f': IdfDiscovery.Finder, visit: Backoff.Visit) {
    var twice := 2 * f.interval % 0x1_0000_0000;
    if f.last == 0 || visit.begin - f.last >= (if f.active then 300_000_000 else 1000 * f.interval) then
      && f'.active == visit.found && f'.last == visit.end
      && f'.interval == if visit.found || twice < 60_000 then 60_000 else if twice > 300_000 then 300_000 else twice
    else f' == f
  }

  ghost predicate Done(c: EspIdf.Config, k: EspIdf.Core, k': EspIdf.Core, op: Op) {
    match op
    case Text(level, text, link) =>
      if SomebodyListens(c, k) && level <= c.level then
        && MessageOut(c, k, k', link, 1, [level] + Cut(text, 500))
        && AllShown(k, k', c.deviceId, link.clock / 1000 % 0x1_0000_0000, Parsed.Text(level, Cut(text, 500)))
      else k' == k
    case IntegerMetric(name, number, link) =>
      if SomebodyListens(c, k) && name != [] then
        && MessageOut(c, k, k', link, 4, [|Cut(name, 255)|] + Cut(name, 255) + LittleEndian(4, number % 0x1_0000_0000))
        && AllShown(k, k', c.deviceId, link.clock / 1000 % 0x1_0000_0000, IntMetric(Cut(name, 255), number))
      else k' == k
    case StringMetric(name, value, link) =>
      if SomebodyListens(c, k) && name != [] then
        && MessageOut(c, k, k', link, 4,
                      [|Cut(name, 255)|] + Cut(name, 255) + [|Cut(value, 255)|] + Cut(value, 255))
        && (|value| >= 4 ==> AllShown(k, k', c.deviceId, link.clock / 1000 % 0x1_0000_0000,
                                      Parsed.StringMetric(Cut(name, 255), Cut(value, 255))))
      else k' == k
    case Polls(visit) =>
      if c.initialised && !c.disableMdns
      then Polled(k.finder, k'.finder, visit) && k' == k.(finder := k'.finder)
      else k' == k
    case Force => k' == k.(finder := k.finder.(last := 0, interval := 60_000))
  }

  lemma MessageShown(c: EspIdf.Config, k: EspIdf.Core, k': EspIdf.Core, link: EspIdf.Link, logType: byte,
                     payload: seq<byte>)
    requires MessageOut(c, k, k', link, logType, payload) && logType != 0xFF
    ensures AllShown(k, k', c.deviceId, link.clock / 1000 % 0x1_0000_0000, Parse(logType, payload))
  {
    var time := link.clock / 1000 % 0x1_0000_0000;
    forall i | |k.wire| <= i < |k'.wire|
      ensures var m := Reading(k'.wire[i].bytes);
              m.Some? && m.value.header.deviceId == c.deviceId && m.value.header.timestamp == time
              && m.value.parsed == Parse(logType, payload)
    {
      CarriedRead(k'.wire[i].bytes, c.deviceId, time, logType, payload);
      hide Carries, Reading, Parse;
    }
  }

  lemma TextDone(c: EspIdf.Config, k: EspIdf.Core, level: byte, text: seq<byte>, link: EspIdf.Link)
    ensures Done(c, k, Step(c, k, Op.Text(level, text, link)), Op.Text(level, text, link))
  {
    var payload := [level] + Cut(text, 500);
    assert payload == ListenerLease.TextPayload(level, text);
    SendExact(c, k, link, 1, payload);
    TextReadIff(payload, level, Cut(text, 500));
    assert Step(c, k, Op.Text(level, text, link)) ==
           if SomebodyListens(c, k) && level <= c.level then EspIdf.Send(c, k, link, 1, payload) else k by {
      hide EspIdf.Send;
    }
    hide EspIdf.Send, EspIdf.Log, Step, MessageOut, AllShown, Parse, Cut, SomebodyListens;
    if SomebodyListens(c, k) && level <= c.level {
      MessageShown(c, k, EspIdf.Send(c, k, link, 1, payload), link, 1, payload);
    }
  }

  lemma IntegerMetricDone(c: EspIdf.Config, k: EspIdf.Core, name: seq<byte>, number: int32, link: EspIdf.Link)
    ensures Done(c, k, Step(c, k, IntegerMetric(name, number, link)), IntegerMetric(name, number, link))
  {
    var payload := [|Cut(name, 255)|] + Cut(name, 255) + LittleEndian(4, number % 0x1_0000_0000);
    assert payload == IntMetricBytes(name, number);
    SendExact(c, k, link, 4, payload);
    IntMetricRoundTrip(name, number);
    hide EspIdf.Send, MessageOut, AllShown, Parse, Cut, LittleEndian, IntMetricBytes;
    if SomebodyListens(c, k) && name != [] {
      MessageShown(c, k, EspIdf.Send(c, k, link, 4, payload), link, 4, payload);
    }
  }

  lemma StringMetricDone(c: EspIdf.Config, k: EspIdf.Core, name: seq<byte>, value: seq<byte>, link: EspIdf.Link)
    ensures Done(c, k, Step(c, k, Op.StringMetric(name, value, link)), Op.StringMetric(name, value, link))
  {
    var payload := [|Cut(name, 255)|] + Cut(name, 255) + [|Cut(value, 255)|] + Cut(value, 255);
    assert payload == StringMetricBytes(name, value);
    SendExact(c, k, link, 4, payload);
    StringMetricRoundTripIff(name, value);
    hide EspIdf.Send, MessageOut, AllShown, Parse, Cut, StringMetricBytes;
    if SomebodyListens(c, k) && name != [] {
      MessageShown(c, k, EspIdf.Send(c, k, link, 4, payload), link, 4, payload);
    }
  }

  /** Every public call, at the end of every run, does exactly what is written out above. */
  lemma StepExact(c: EspIdf.Config, start: EspIdf.Core, ops: seq<Op>, op: Op)
    ensures Done(c, Run(c, start, ops), Run(c, start, ops + [op]), op)
  {
    assert (ops + [op])[..|ops|] == ops;
    var k := Run(c, start, ops);
    match op
    case Text(level, text, link) => TextDone(c, k, level, text, link); hide Done, Step;
    case IntegerMetric(name, number, link) => IntegerMetricDone(c, k, name, number, link); hide Done, Step;
    case StringMetric(name, value, link) => StringMetricDone(c, k, name, value, link); hide Done, Step;
    case Polls(visit) =>
    case Force =>
  }

  /** After a forced discovery the next poll always searches, whatever was known before and whatever
      is sent in between, and what is known then is what that search found. */
  lemma ForcedExact(c: EspIdf.Config, start: EspIdf.Core, ops: seq<Op>, between: seq<Op>, visit: Backoff.Visit)
    requires c.initialised && !c.disableMdns
    requires forall i :: 0 <= i < |between| ==> !between[i].Polls?
    ensures var f := Run(c, start, ops + [Force] + between + [Polls(visit)]).finder;
            f.active == visit.found && f.last == visit.end
            && f.interval == if visit.found then 60_000 else 120_000
  {
    StaysForced(c, start, ops + [Force], between);
    StepExact(c, start, ops, Force);
    StepExact(c, start, ops + [Force] + between, Polls(visit));
    hide Run;
  }

  lemma {:induction false} StaysForced(c: EspIdf.Config, start: EspIdf.Core, ops: seq<Op>, between: seq<Op>)
    requires Run(c, start, ops).finder.last == 0 && Run(c, start, ops).finder.interval == 60_000
    requires forall i :: 0 <= i < |between| ==> !between[i].Polls?
    ensures Run(c, start, ops + between).finder.last == 0 && Run(c, start, ops + between).finder.interval == 60_000
    decreases |between|
  {
    if between == [] {
      assert ops + between == ops;
    } else {
      var n := |between| - 1;
      assert ops + between == ops + between[..n] + [between[n]];
      StaysForced(c, start, ops, between[..n]);
      StepExact(c, start, ops + between[..n], between[n]);
      hide Run, OnWire, AllShown;
    }
  }
}
