/**
  The ESP-IDF port: its functional specification (module EspIdf), whole runs (module IdfRuns),
  and the C file as an object (module IdfDevice).
 */
module EspIdf {
  import opened Words
  import opened Wire
  import ListenerLease
  import Backoff
  import IdfDiscovery

  /** What one call of send_message reads: the microsecond clock and the two sendto results. */
  datatype Link = Link(clock: nat, unicastAccepted: int, multicastAccepted: int)

  datatype Destination = Unicast | Multicast

  datatype Datagram = Datagram(to: Destination, bytes: seq<byte>)

  datatype Config = Config(deviceId: word64, initialised: bool, level: byte, unicast: bool, disableMdns: bool)

  datatype Core = Core(finder: IdfDiscovery.Finder, sent: word32, dropped: word32, wire: seq<Datagram>)

  function Boot(interval: word32): Core { Core(IdfDiscovery.Idle(interval), 0, 0, []) }

  function ConfiguredInterval(interval: word32): word32 { if interval > 0 then interval else Backoff.MIN_INTERVAL }

  function Drop(k: Core): Core { k.(dropped := Inc32(k.dropped)) }

  /** Unicast needs no listener; multicast does. */
  predicate Open(c: Config, k: Core) { c.initialised && (k.finder.active || c.unicast) }

  function Copies(c: Config, k: Core, packet: seq<byte>): seq<Datagram> {
    (if c.unicast then [Datagram(Unicast, packet)] else []) + (if k.finder.active then [Datagram(Multicast, packet)] else [])
  }

  /** One of the configured paths took the packet whole. */
  predicate Taken(c: Config, k: Core, link: Link, size: int) {
    (c.unicast && link.unicastAccepted == size) || (k.finder.active && link.multicastAccepted == size)
  }

  function Millis(clock: nat): word32 { clock / 1000 % 0x1_0000_0000 }

  function Send(c: Config, k: Core, link: Link, logType: byte, payload: seq<byte>): Core {
    if !Open(c, k) || !ListenerLease.Fits(payload) then Drop(k)
    else
      var packet := Packet(c.deviceId, Millis(link.clock), logType, payload);
      var k' := k.(wire := k.wire + Copies(c, k, packet));
      if Taken(c, k, link, |packet|) then k'.(sent := Inc32(k.sent)) else Drop(k')
  }

  function Log(c: Config, k: Core, level: byte, text: seq<byte>, link: Link): Core {
    if level > c.level || !Open(c, k) then k else Send(c, k, link, TYPE_TEXT, ListenerLease.TextPayload(level, text))
  }

  function Metric(c: Config, k: Core, name: seq<byte>, payload: seq<byte>, link: Link): Core {
    if !Open(c, k) || name == [] then k else Send(c, k, link, TYPE_METRIC, payload)
  }

  function Poll(c: Config, k: Core, visit: Backoff.Visit): Core {
    if !c.initialised || c.disableMdns then k else k.(finder := IdfDiscovery.Poll(k.finder, visit))
  }
}

module IdfRuns {
  import opened Words
  import opened Wire
  import opened Payloads
  import ListenerLease
  import Backoff
  import IdfDiscovery
  import ForcedIdfDiscovery
  import opened EspIdf

  datatype Op =
    | Text(level: byte, text: seq<byte>, link: Link)
    | IntegerMetric(name: seq<byte>, number: int32, link: Link)
    | StringMetric(name: seq<byte>, value: seq<byte>, link: Link)
    | Polls(visit: Backoff.Visit)
    | Force

  function Step(c: Config, k: Core, op: Op): Core {
    match op
    case Text(level, text, link) => Log(c, k, level, text, link)
    case IntegerMetric(name, number, link) => Metric(c, k, name, IntMetricBytes(name, number), link)
    case StringMetric(name, value, link) => Metric(c, k, name, StringMetricBytes(name, value), link)
    case Polls(visit) => Poll(c, k, visit)
    case Force => k.(finder := IdfDiscovery.Forced(k.finder))
  }

  function Run(c: Config, k: Core, ops: seq<Op>): Core {
    if ops == [] then k else Step(c, Run(c, k, ops[..|ops| - 1]), ops[|ops| - 1])
  }

  function DiscoveryCalls(ops: seq<Op>): seq<ForcedIdfDiscovery.Call> {
    if ops == [] then []
    else
      var front := DiscoveryCalls(ops[..|ops| - 1]);
      match ops[|ops| - 1]
      case Polls(visit) => front + [ForcedIdfDiscovery.Look(visit)]
      case Force => front + [ForcedIdfDiscovery.Force]
      case _ => front
  }

  /** The theorems about runs of polls and forced discoveries hold of every run of the port. */
  lemma {:induction false} DiscoveryOfRun(c: Config, start: word32, ops: seq<Op>)
    requires c.initialised && !c.disableMdns
    ensures Run(c, Boot(start), ops).finder == ForcedIdfDiscovery.AfterCalls(start, DiscoveryCalls(ops))
  {
    if ops != [] {
      var front, op := ops[..|ops| - 1], ops[|ops| - 1];
      DiscoveryOfRun(c, start, front);
      if op.Polls? || op.Force? {
        hide Log, Metric, IdfDiscovery.Poll, IdfDiscovery.Forced;
        var calls := DiscoveryCalls(front);
        var call := if op.Force? then ForcedIdfDiscovery.Force else ForcedIdfDiscovery.Look(op.visit);
        assert (calls + [call])[..|calls + [call]| - 1] == calls;
      } else {
        MessagesKeepFinder(c, Run(c, Boot(start), front), op);
        hide Step;
      }
    }
  }

  lemma MessagesKeepFinder(c: Config, k: Core, op: Op)
    requires !op.Polls? && !op.Force?
    ensures Step(c, k, op).finder == k.finder
  {
    hide Wire.Packet, IntMetricBytes, StringMetricBytes, ListenerLease.TextPayload, Copies, Taken;
  }

  function PollVisits(ops: seq<Op>): seq<Backoff.Visit> { ForcedIdfDiscovery.Looks(DiscoveryCalls(ops)) }

  /** A listener that comes or goes at `from` and stays so is known after any run whose last poll is
      300 s and one query's duration later or more, forced discoveries or not. */
  lemma KnownInTime(c: Config, start: word32, ops: seq<Op>, query: int, from: int, present: bool)
    requires c.initialised && !c.disableMdns && PollVisits(ops) != []
    requires Backoff.Settled(PollVisits(ops), from, present) && ForcedIdfDiscovery.Proper(PollVisits(ops), query)
    requires PollVisits(ops)[|PollVisits(ops)| - 1].begin >= from + query + Backoff.MAX_INTERVAL * 1000
    ensures Run(c, Boot(start), ops).finder.active == present
  {
    DiscoveryOfRun(c, start, ops);
    ForcedIdfDiscovery.LatencyBound(start, DiscoveryCalls(ops), query, from, present);
    hide Run, DiscoveryCalls;
  }

  /** Without mDNS, or without an answer, nothing is ever multicast. */
  lemma {:induction false} NoMulticastWithoutListener(c: Config, start: word32, ops: seq<Op>)
    requires c.disableMdns || forall i :: 0 <= i < |ops| && ops[i].Polls? ==> !ops[i].visit.found
    ensures !Run(c, Boot(start), ops).finder.active
    ensures forall i :: 0 <= i < |Run(c, Boot(start), ops).wire| ==> Run(c, Boot(start), ops).wire[i].to == Unicast
  {
    hide Wire.Packet;
    if ops != [] {
      NoMulticastWithoutListener(c, start, ops[..|ops| - 1]);
    }
  }

  /** A run in which both paths take everything whole drops nothing: the size limit never
      refuses what the public calls build. */
  lemma {:induction false} NothingDropped(c: Config, start: word32, ops: seq<Op>)
    requires forall i :: 0 <= i < |ops| ==> Whole(c, ops[i])
    ensures Run(c, Boot(start), ops).dropped == 0
  {
    hide Wire.Packet;
    if ops != [] {
      NothingDropped(c, start, ops[..|ops| - 1]);
    }
  }

  predicate Whole(c: Config, op: Op) {
    match op
    case Text(level, text, link) => AllTaken(link, |ListenerLease.TextPayload(level, text)|)
    case IntegerMetric(name, number, link) => AllTaken(link, |IntMetricBytes(name, number)|)
    case StringMetric(name, value, link) => AllTaken(link, |StringMetricBytes(name, value)|)
    case _ => true
  }

  predicate AllTaken(link: Link, length: nat) {
    link.unicastAccepted == link.multicastAccepted == HEADER_SIZE + length + 2
  }
}

/** The C file's static state and functions. */
module IdfDevice {
  import opened Words
  import opened Wire
  import opened Payloads
  import ListenerLease
  import Backoff
  import IdfDiscovery
  import opened EspIdf

  class IotLog {
    var deviceId: word64
    var initialised: bool
    var listenerActive: bool
    var disableMdns: bool
    var level: byte
    var unicastActive: bool
    var lastDiscoveryUs: int
    var discoveryIntervalMs: word32
    var sentCount: word32
    var droppedCount: word32
    ghost var wire: seq<Datagram>

    ghost function Cfg(): Config
      reads this
    {
      Config(deviceId, initialised, level, unicastActive, disableMdns)
    }

    ghost function State(): Core
      reads this
    {
      Core(IdfDiscovery.Finder(listenerActive, lastDiscoveryUs, discoveryIntervalMs), sentCount, droppedCount, wire)
    }

    /** A successful `iot_log_init`. */
    constructor (id: word64, level: byte, unicast: bool, disableMdns: bool, interval: word32)
      ensures Cfg() == Config(id, true, level, unicast, disableMdns) && State() == Boot(ConfiguredInterval(interval))
      ensures State() == Core(IdfDiscovery.Finder(false, 0, if interval == 0 then 60_000 else interval), 0, 0, [])
    {
      deviceId, this.level, unicastActive, this.disableMdns := id, level, unicast, disableMdns;
      discoveryIntervalMs := if interval > 0 then interval else Backoff.MIN_INTERVAL;
      listenerActive, lastDiscoveryUs := false, 0;
      sentCount, droppedCount, wire := 0, 0, [];
      initialised := true;
    }

    method SendMessage(link: Link, logType: byte, payload: seq<byte>) returns (ok: bool)
      modifies `sentCount, `droppedCount, `wire
      ensures State() == Send(Cfg(), old(State()), link, logType, payload)
      ensures ok == (sentCount != old(sentCount))
    {
      hide Wire.Packet;
      if !initialised || (!listenerActive && !unicastActive) {
        droppedCount := Inc32(droppedCount);
        return false;
      }
      var totalSize := HEADER_SIZE + |payload| + 2;
      if totalSize > MAX_PACKET {
        droppedCount := Inc32(droppedCount);
        return false;
      }
      var packet, total := Serialise(deviceId, Millis(link.clock), logType, payload);
      ghost var before := wire;
      ok := false;
      if unicastActive {
        wire := wire + [Datagram(Unicast, packet[..total])];
        if link.unicastAccepted == total {
          ok := true;
        }
      }
      if listenerActive {
        wire := wire + [Datagram(Multicast, packet[..total])];
        if link.multicastAccepted == total {
          ok := true;
        }
      }
      assert wire == before + Copies(Cfg(), State(), packet[..total]);
      if ok {
        sentCount := Inc32(sentCount);
      } else {
        droppedCount := Inc32(droppedCount);
      }
    }

    /** `iot_log`, its message already formatted into the 512-byte buffer. */
    method Log(level: byte, message: seq<byte>, link: Link)
      modifies `sentCount, `droppedCount, `wire
      ensures State() == EspIdf.Log(Cfg(), old(State()), level, message, link)
    {
      if !initialised || level > this.level {
        return;
      }
      hide Send;
      if listenerActive || unicastActive {
        var length := |message|;
        if length > 500 {
          length := 500;
        }
        assert [level] + message[..length] == ListenerLease.TextPayload(level, message);
        var _ := SendMessage(link, TYPE_TEXT, [level] + message[..length]);
      }
    }

    method IntegerMetric(name: seq<byte>, value: int32, link: Link)
      modifies `sentCount, `droppedCount, `wire
      ensures State() == EspIdf.Metric(Cfg(), old(State()), name, IntMetricBytes(name, value), link)
    {
      if !initialised || (!listenerActive && !unicastActive) {
        return;
      }
      if name == [] {
        return;
      }
      hide Send;
      var payload, length := FillIntMetric(name, value);
      var _ := SendMessage(link, TYPE_METRIC, payload[..length]);
    }

    method StringMetric(name: seq<byte>, value: seq<byte>, link: Link)
      modifies `sentCount, `droppedCount, `wire
      ensures State() == EspIdf.Metric(Cfg(), old(State()), name, StringMetricBytes(name, value), link)
    {
      if !initialised || (!listenerActive && !unicastActive) {
        return;
      }
      if name == [] {
        return;
      }
      hide Send;
      var payload, length := FillStringMetric(name, value);
      var _ := SendMessage(link, TYPE_METRIC, payload[..length]);
    }

    method ForceDiscovery()
      modifies `lastDiscoveryUs, `discoveryIntervalMs
      ensures State() == old(State()).(finder := IdfDiscovery.Forced(old(State()).finder))
      ensures State() == old(State()).(finder := old(State()).finder.(last := 0, interval := 60_000))
    {
      lastDiscoveryUs := 0;
      discoveryIntervalMs := Backoff.MIN_INTERVAL;
    }

    method DiscoverListener(answered: bool) returns (found: bool)
      modifies `listenerActive
      ensures found == listenerActive == answered
    {
      found := answered;
      if found != listenerActive {
        listenerActive := found;
      }
    }

    method Poll(visit: Backoff.Visit)
      modifies `listenerActive, `lastDiscoveryUs, `discoveryIntervalMs
      ensures State() == EspIdf.Poll(Cfg(), old(State()), visit)
    {
      if !initialised {
        return;
      }
      if disableMdns {
        return;
      }
      var now := visit.begin;
      var effective := if listenerActive then Backoff.MAX_INTERVAL else discoveryIntervalMs;
      var elapsed := now - lastDiscoveryUs;
      if lastDiscoveryUs == 0 || elapsed >= effective * 1000 {
        var found := DiscoverListener(visit.found);
        lastDiscoveryUs := visit.end;
        if !found {
          discoveryIntervalMs := discoveryIntervalMs * 2 % 0x1_0000_0000;
          if discoveryIntervalMs > Backoff.MAX_INTERVAL {
            discoveryIntervalMs := Backoff.MAX_INTERVAL;
          }
          if discoveryIntervalMs < Backoff.MIN_INTERVAL {
            discoveryIntervalMs := Backoff.MIN_INTERVAL;
          }
        } else {
          discoveryIntervalMs := Backoff.MIN_INTERVAL;
        }
      }
    }
  }
}
