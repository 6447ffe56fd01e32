/**
  The queued messages over whole runs. In every run of phases the counters balance and every
  queued frame is waiting, gone or lost. Where log calls come between polls, nothing waits in the
  ring while nobody listens, nothing is lost but by the radio, and a message's text arrives at the
  receiver as it was queued; a message queued between a poll's drain and its expiry is stranded.
 */
module QueueTheorems {
  import opened Words
  import opened Wire
  import opened Payloads
  import opened Receiver
  import opened ByteRing
  import opened FrameQueue
  import opened ListenerLease
  import opened Backend
  import DeviceRuns
  import opened PollRuns

  /* ---- the text ---- */

  lemma {:induction false} CollectIsCut(text: seq<byte>, data: seq<byte>)
    requires |text| <= MAX_TEXT
    ensures Collect(text, data) == Cut(text + WithoutBreaks(data), MAX_TEXT)
    decreases |data|
  {
    if data == [] {
      assert text + WithoutBreaks(data) == text;
    } else if |text| < MAX_TEXT {
      var head := if LineBreak(data[0]) then [] else [data[0]];
      CollectIsCut(text + head, data[1..]);
      assert text + WithoutBreaks(data) == text + head + WithoutBreaks(data[1..]);
      assert text + [] == text;
    }
  }

  lemma {:induction false} WithoutBreaksConcat(a: seq<byte>, b: seq<byte>)
    ensures WithoutBreaks(a + b) == WithoutBreaks(a) + WithoutBreaks(b)
  {
    if a == [] {
      assert a + b == b;
    } else {
      assert (a + b)[1..] == a[1..] + b;
      WithoutBreaksConcat(a[1..], b);
    }
  }

  lemma CutTwice(a: seq<byte>, b: seq<byte>, limit: nat)
    ensures Cut(Cut(a, limit) + b, limit) == Cut(a + b, limit)
  {
  }

  lemma CutInTwo(text: seq<byte>, first: seq<byte>, rest: seq<byte>, limit: nat)
    ensures Cut(Cut(text + first, limit) + rest, limit) == Cut(text + (first + rest), limit)
  {
    CutTwice(text + first, rest, limit);
    hide Cut;
    assert text + first + rest == text + (first + rest);
  }

  lemma {:induction false} CollectAllIsCut(text: seq<byte>, chunks: seq<seq<byte>>)
    requires |text| <= MAX_TEXT
    ensures CollectAll(text, chunks) == Cut(text + WithoutBreaks(Joined(chunks)), MAX_TEXT)
    decreases |chunks|
  {
    if chunks == [] {
      assert text + WithoutBreaks(Joined(chunks)) == text;
    } else {
      hide WithoutBreaks, Collect, Cut;
      var first, rest := WithoutBreaks(chunks[0]), WithoutBreaks(Joined(chunks[1..]));
      CollectIsCut(text, chunks[0]);
      CollectAllIsCut(Cut(text + first, MAX_TEXT), chunks[1..]);
      CutInTwo(text, first, rest, MAX_TEXT);
      WithoutBreaksConcat(chunks[0], Joined(chunks[1..]));
    }
  }

  /** However the formatter cuts up its output, the text is the first 499 bytes of it that are
      neither CR nor LF. */
  lemma ChunkingIrrelevant(chunks: seq<seq<byte>>)
    ensures CollectAll([], chunks) == MessageText(chunks)
  {
    CollectAllIsCut([], chunks);
    assert [] + WithoutBreaks(Joined(chunks)) == WithoutBreaks(Joined(chunks));
  }

  /** The frame a log call queues, if it queues one. */
  function FrameOf(call: LogCall): (f: Frame)
    ensures |f.text| <= MAX_TEXT
  {
    Frame(MapLevel(call.level), MessageText(call.chunks))
  }

  /* ---- draining whole frames ---- */

  /** The packet one queued frame becomes, and what the history of its drain looks like. */
  function FramePacket(id: word64, link: Uplink, f: Frame): seq<byte>
    requires |f.text| <= MAX_TEXT
  {
    Packet(id, link.uptime % 0x1_0000_0000, TYPE_TEXT, [f.level] + f.text)
  }

  /** A frame's turn in a drain: its packet goes to the socket if the device is attached. */
  function Turn(id: word64, link: Uplink, f: Frame): seq<Event>
    requires |f.text| <= MAX_TEXT
  {
    if link.attached then [Sent(link, FramePacket(id, link, f), false)] else []
  }

  function FrameEvents(id: word64, links: nat -> Uplink, k: nat, frames: seq<Frame>): seq<Event>
    requires AllQueueable(frames)
    decreases |frames|
  {
    if frames == [] then []
    else Turn(id, links(k), frames[0]) + FrameEvents(id, links, k + 1, frames[1..])
  }

  predicate Gone(link: Uplink, f: Frame) {
    link.attached && link.accepted == HEADER_SIZE + 1 + |f.text| + 2
  }

  function SentOf(links: nat -> Uplink, k: nat, frames: seq<Frame>): nat
    decreases |frames|
  {
    if frames == [] then 0 else (if Gone(links(k), frames[0]) then 1 else 0) + SentOf(links, k + 1, frames[1..])
  }

  lemma FrontFrame(f: Frame, rest: seq<byte>)
    requires Queueable(f)
    ensures var ring := Encode(f) + rest;
            && WholeFrameIn(ring) && HeaderLength(ring) == |f.text| && ring[0] == f.level
            && ring[3..3 + |f.text|] == f.text && ring[3 + |f.text|..] == rest
  {
    var ring, h := Encode(f) + rest, FrameHeader(f.level, |f.text|);
    assert ring == h + (f.text + rest);
    HeaderRoundTrip(f.level, |f.text|, 0, 0);
    assert ring[0] == h[0] && ring[1] == h[1] && ring[2] == h[2];
  }

  /** d became e by passing on these frames, the first over links(k): every one, in order, was
      handed to the socket if attached at its turn, and counts as sent if taken whole. */
  ghost predicate PassedOn(d: Device, e: Device, id: word64, links: nat -> Uplink, k: nat, frames: seq<Frame>)
    requires AllQueueable(frames)
  {
    && e.counters == d.counters && e.core.lease == d.core.lease
    && e.core.log == d.core.log + FrameEvents(id, links, k, frames)
    && e.drainedSent == d.drainedSent + SentOf(links, k, frames)
    && e.drainedSent + e.drainedLost == d.drainedSent + d.drainedLost + |frames|
  }

  /** A frame queued by process() passes the drain, the raw send and the size check uncut. */
  lemma TakeFrame(d: Device, id: word64, links: nat -> Uplink, k: nat, f: Frame, rest: seq<byte>)
    requires Queueable(f) && d.ring == Encode(f) + rest && (d.core.lease.alwaysOn || d.core.lease.active)
    ensures WholeFrameIn(d.ring) && TakeOne(d, id, links(k)).ring == rest
    ensures PassedOn(d, TakeOne(d, id, links(k)), id, links, k, [f])
  {
    hide TakeOne, Encode, WholeFrameIn, ListenerLease.Send, ListenerLease.Delivered, FrameEvents, SentOf, Turn, Gone;
    TakenWhole(d, id, links(k), f, rest);
    OneFrame(id, links, k, f);
    SendFrame(d.core, id, links(k), f);
  }

  lemma TakenWhole(d: Device, id: word64, link: Uplink, f: Frame, rest: seq<byte>)
    requires Queueable(f) && d.ring == Encode(f) + rest
    ensures WholeFrameIn(d.ring)
    ensures var ok := Delivered(d.core, link, [f.level] + f.text, false);
            TakeOne(d, id, link) ==
            Device(Send(d.core, id, link, TYPE_TEXT, [f.level] + f.text, false), rest, d.counters,
                   if ok then d.drainedSent + 1 else d.drainedSent, if ok then d.drainedLost else d.drainedLost + 1)
  {
    FrontPayload(f, rest);
    hide Encode, HeaderLength, WholeFrameIn, ListenerLease.Send, ListenerLease.Delivered, ListenerLease.TextPayload;
  }

  lemma FrontPayload(f: Frame, rest: seq<byte>)
    requires Queueable(f)
    ensures var ring := Encode(f) + rest;
            && WholeFrameIn(ring) && HeaderLength(ring) == |f.text| && ring[3 + |f.text|..] == rest
            && TextPayload(ring[0], ring[3..3 + Least(HeaderLength(ring), DRAIN_BUFFER)]) == [f.level] + f.text
  {
    FrontFrame(f, rest);
    hide Encode, HeaderLength, WholeFrameIn;
  }

  lemma SendFrame(c: Core, id: word64, link: Uplink, f: Frame)
    requires Queueable(f) && (c.lease.alwaysOn || c.lease.active)
    ensures var d := Send(c, id, link, TYPE_TEXT, [f.level] + f.text, false);
            && d.lease == c.lease
            && d.log == c.log + Turn(id, link, f)
            && (Delivered(c, link, [f.level] + f.text, false) <==> Gone(link, f))
  {
    hide Wire.Packet;
    assert c.log + [] == c.log;
  }

  lemma OneFrame(id: word64, links: nat -> Uplink, k: nat, f: Frame)
    requires Queueable(f)
    ensures FrameEvents(id, links, k, [f]) == Turn(id, links(k), f)
    ensures SentOf(links, k, [f]) == if Gone(links(k), f) then 1 else 0
  {
    assert [f][1..] == [] && FrameEvents(id, links, k + 1, []) == [] && SentOf(links, k + 1, []) == 0;
    hide FramePacket;
  }

  lemma EventsSplit(id: word64, links: nat -> Uplink, k: nat, frames: seq<Frame>)
    requires frames != [] && AllQueueable(frames)
    ensures FrameEvents(id, links, k, frames) ==
            FrameEvents(id, links, k, [frames[0]]) + FrameEvents(id, links, k + 1, frames[1..])
    ensures SentOf(links, k, frames) == SentOf(links, k, [frames[0]]) + SentOf(links, k + 1, frames[1..])
  {
    OneFrame(id, links, k, frames[0]);
    hide FramePacket, Gone;
  }

  lemma PassedOnThenMore(d: Device, d1: Device, e: Device, id: word64, links: nat -> Uplink, k: nat, frames: seq<Frame>)
    requires frames != [] && AllQueueable(frames)
    requires PassedOn(d, d1, id, links, k, [frames[0]]) && PassedOn(d1, e, id, links, k + 1, frames[1..])
    ensures PassedOn(d, e, id, links, k, frames)
  {
    hide FramePacket, Gone, FrameEvents, SentOf;
    OneFrame(id, links, k, frames[0]);
    EventsSplit(id, links, k, frames);
    assert AllQueueable([frames[0]]) && AllQueueable(frames[1..]);
    hide AllQueueable;
    Grouped(d.core.log, FrameEvents(id, links, k, [frames[0]]), FrameEvents(id, links, k + 1, frames[1..]));
  }

  lemma Grouped(a: seq<Event>, b: seq<Event>, c: seq<Event>)
    ensures a + b + c == a + (b + c)
  {
  }

  lemma {:induction false} DrainFrames(d: Device, id: word64, links: nat -> Uplink, k: nat, frames: seq<Frame>)
    requires AllQueueable(frames) && d.ring == Flatten(frames)
    requires frames != [] ==> d.core.lease.alwaysOn || d.core.lease.active
    ensures Drain(d, id, links, k).ring == [] && PassedOn(d, Drain(d, id, links, k), id, links, k, frames)
    decreases |frames|
  {
    if frames == [] {
      assert d.core.log + [] == d.core.log;
    } else {
      TakeFrame(d, id, links, k, frames[0], Flatten(frames[1..]));
      var e := TakeOne(d, id, links(k));
      assert e.core.lease == d.core.lease;
      hide PassedOn, TakeOne, WholeFrameIn, Flatten, FrameEvents, SentOf;
      DrainFrames(e, id, links, k + 1, frames[1..]);
      PassedOnThenMore(d, e, Drain(e, id, links, k + 1), id, links, k, frames);
    }
  }

  /* ---- the device between its steps ---- */

  /** Every call of process() is counted off exactly once, modulo 2^32. */
  predicate Balanced(n: Counters) {
    n.calls == (n.inactive + n.self + n.noFormatter + n.zeroLength + n.ringFull + n.queued) % 0x1_0000_0000
  }

  /** frames is what waits in the ring; with what was drained, it is all that was ever queued. */
  ghost predicate Waiting(d: Device, frames: seq<Frame>) {
    && AllQueueable(frames) && d.ring == Flatten(frames)
    && d.counters.queued == (|frames| + d.drainedSent + d.drainedLost) % 0x1_0000_0000
  }

  ghost predicate Holds(d: Device, frames: seq<Frame>) {
    && Waiting(d, frames) && |d.ring| <= RING_SIZE && Balanced(d.counters)
    && (frames != [] ==> d.core.lease.alwaysOn || d.core.lease.active)
  }

  lemma CountOne(calls: word32, others: nat, one: word32)
    requires calls == (others + one) % 0x1_0000_0000
    ensures Inc32(calls) == (others + Inc32(one)) % 0x1_0000_0000
  {
  }

  lemma ProcessBalanced(d: Device, call: LogCall)
    requires Balanced(d.counters)
    ensures Balanced(Process(d, call).counters)
  {
    hide Inc32, CollectAll, TransportChatter, Encode;
    var n, text := d.counters, CollectAll([], call.chunks);
    CollectBounded([], call.chunks);
    var all := n.inactive + n.self + n.noFormatter + n.zeroLength + n.ringFull + n.queued;
    if !IsActive(d.core, call.attached) {
      CountOne(n.calls, all - n.inactive, n.inactive);
    } else if call.ownTransport || (call.formatter && text != [] && TransportChatter(text)) {
      CountOne(n.calls, all - n.self, n.self);
    } else if !call.formatter {
      CountOne(n.calls, all - n.noFormatter, n.noFormatter);
    } else if text == [] {
      CountOne(n.calls, all - n.zeroLength, n.zeroLength);
    } else if RING_SIZE - |d.ring| < |Encode(Frame(MapLevel(call.level), text))| {
      CountOne(n.calls, all - n.ringFull, n.ringFull);
    } else {
      CountOne(n.calls, all - n.queued, n.queued);
    }
  }

  /** Whether a log call ends up in the ring. */
  predicate Queues(d: Device, call: LogCall) {
    && IsActive(d.core, call.attached) && !call.ownTransport && call.formatter
    && MessageText(call.chunks) != [] && !TransportChatter(MessageText(call.chunks))
    && RING_SIZE - |d.ring| >= 3 + |MessageText(call.chunks)|
  }

  /** What a log call does to the ring and the queue counter. */
  lemma ProcessQueues(d: Device, call: LogCall)
    ensures var e, f := Process(d, call), FrameOf(call);
            && e.core == d.core && e.drainedSent == d.drainedSent && e.drainedLost == d.drainedLost
            && (Queues(d, call) ==> Queueable(f) && e.ring == d.ring + Encode(f) && e.counters.queued == Inc32(d.counters.queued))
            && (!Queues(d, call) ==> e.ring == d.ring && e.counters.queued == d.counters.queued)
  {
    ChunkingIrrelevant(call.chunks);
    CollectBounded([], call.chunks);
    hide Collect, CollectAll, MessageText, TransportChatter, MapLevel, Inc32;
  }

  lemma ProcessHolds(d: Device, call: LogCall, frames: seq<Frame>)
    requires Holds(d, frames)
    ensures Process(d, call).core == d.core
    ensures Holds(Process(d, call),
                  if Queues(d, call) then frames + [FrameOf(call)] else frames)
  {
    ProcessBalanced(d, call);
    ProcessQueues(d, call);
    hide Process, MessageText, TransportChatter, MapLevel, Balanced;
    if Queues(d, call) {
      FlattenAppend(frames, FrameOf(call));
      CountOne(d.counters.queued, |frames| + d.drainedSent + d.drainedLost, 0);
      hide Flatten;
    }
  }

  lemma StaysActive(c: Core, env: PollEnv)
    ensures var d := CheckBeacons(Join(c, env), env.pending).lease;
            (d.alwaysOn == c.lease.alwaysOn) && (c.lease.active ==> d.active)
  {
    HearAllStaysActive(Join(c, env), BeforeEmpty(env.pending));
  }

  lemma {:induction false} HearAllStaysActive(c: Core, heard: seq<Heard>)
    ensures HearAll(c, heard).lease.alwaysOn == c.lease.alwaysOn
    ensures c.lease.active ==> HearAll(c, heard).lease.active
  {
    if heard != [] {
      HearAllStaysActive(c, heard[..|heard| - 1]);
    }
  }

  function HeardBy(d: Device, env: PollEnv): Device { DeviceRuns.HeardBy(d, env) }

  /** The device of a poll after its drain. */
  function DrainedBy(d: Device, id: word64, env: PollEnv): Device {
    Drain(HeardBy(d, env), id, env.drainLinks, 0)
  }

  lemma PollEnds(d: Device, id: word64, env: PollEnv)
    ensures var e, p := DrainedBy(d, id, env), Poll(d, id, env);
            && p.ring == e.ring && p.counters == e.counters && e.core.log <= p.core.log
            && p.drainedSent == e.drainedSent && p.drainedLost == e.drainedLost
  {
    LogGrows(DrainedBy(d, id, env).core, id, env);
    hide ListenerLease.Join, ListenerLease.CheckBeacons, ListenerLease.Expire, ListenerLease.Refresh, Backend.Drain;
  }

  /** A poll empties the ring before it considers expiry: in order, every waiting frame is handed
      to the socket if the device is attached at that moment, and gone if the socket takes it
      whole; nothing else can keep it back. */
  lemma PollPassesOn(d: Device, id: word64, env: PollEnv, frames: seq<Frame>)
    requires Holds(d, frames)
    ensures Poll(d, id, env).ring == []
    ensures PassedOn(HeardBy(d, env), DrainedBy(d, id, env), id, env.drainLinks, 0, frames)
  {
    StaysActive(d.core, env);
    DrainFrames(HeardBy(d, env), id, env.drainLinks, 0, frames);
    PollEnds(d, id, env);
    hide ListenerLease.Join, ListenerLease.CheckBeacons, Backend.Drain, Backend.Poll, Flatten, Balanced, PassedOn;
  }

  lemma PollHolds(d: Device, id: word64, env: PollEnv, frames: seq<Frame>)
    requires Holds(d, frames)
    ensures Holds(Poll(d, id, env), [])
    ensures Poll(d, id, env).drainedSent == d.drainedSent + SentOf(env.drainLinks, 0, frames)
    ensures CheckBeacons(Join(d.core, env), env.pending).log + FrameEvents(id, env.drainLinks, 0, frames)
            <= Poll(d, id, env).core.log
  {
    PollPassesOn(d, id, env, frames);
    PollEnds(d, id, env);
    assert Flatten([]) == [];
    hide ListenerLease.Join, ListenerLease.CheckBeacons, Backend.Poll, DrainedBy, Flatten, Balanced, SentOf, FrameEvents;
  }

  lemma LostOf(d: Device, e: Device, id: word64, links: nat -> Uplink, frames: seq<Frame>)
    requires AllQueueable(frames) && PassedOn(d, e, id, links, 0, frames)
    ensures e.drainedLost == d.drainedLost + |frames| - SentOf(links, 0, frames)
  {
    hide SentOf, FrameEvents, AllQueueable;
  }

  /** A waiting frame is lost only to a detached moment or a socket that does not take it. */
  lemma LostOnlyByRadio(d: Device, id: word64, env: PollEnv, frames: seq<Frame>)
    requires Holds(d, frames)
    ensures Poll(d, id, env).drainedLost == d.drainedLost + |frames| - SentOf(env.drainLinks, 0, frames)
    ensures Poll(d, id, env).drainedLost == d.drainedLost <==> AllGone(env.drainLinks, 0, frames)
  {
    PollPassesOn(d, id, env, frames);
    PollEnds(d, id, env);
    assert HeardBy(d, env).drainedLost == d.drainedLost && HeardBy(d, env).drainedSent == d.drainedSent;
    LostOf(HeardBy(d, env), DrainedBy(d, id, env), id, env.drainLinks, frames);
    hide HeardBy, DrainedBy, Backend.Poll, SentOf, FrameEvents, Gone, Holds, PassedOn;
    AllGoneIff(env.drainLinks, 0, frames);
  }

  /** Every frame, the first of them at link k, finds an attached moment and an accepting socket. */
  predicate AllGone(links: nat -> Uplink, k: nat, frames: seq<Frame>)
    decreases |frames|
  {
    frames == [] || (Gone(links(k), frames[0]) && AllGone(links, k + 1, frames[1..]))
  }

  lemma {:induction false} AllGoneIff(links: nat -> Uplink, k: nat, frames: seq<Frame>)
    ensures SentOf(links, k, frames) <= |frames|
    ensures SentOf(links, k, frames) == |frames| <==> AllGone(links, k, frames)
    decreases |frames|
  {
    hide Gone;
    if frames != [] {
      AllGoneIff(links, k + 1, frames[1..]);
    }
  }

  lemma LogGrows(c: Core, id: word64, env: PollEnv)
    ensures c.log <= Refresh(Expire(c, id, env), id, env).log
  {
    hide Wire.Packet, ListenerLease.TextPayload;
  }

  lemma {:induction false} RunHolds(alwaysOn: bool, id: word64, ops: seq<Op>) returns (frames: seq<Frame>)
    ensures Holds(Run(BootDevice(alwaysOn), id, ops), frames)
  {
    if ops == [] {
      frames := [];
    } else {
      var n := |ops| - 1;
      frames := RunHolds(alwaysOn, id, ops[..n]);
      var d := Run(BootDevice(alwaysOn), id, ops[..n]);
      match ops[n]
      case Polls(env) =>
        PollHolds(d, id, env, frames);
        frames := [];
      case Logs(call) =>
        ProcessHolds(d, call, frames);
        if Queues(d, call) {
          frames := frames + [FrameOf(call)];
        }
      case Sends(link, logType, payload) =>
        SendKeepsQueue(d, id, link, logType, payload, frames);
    }
  }

  lemma HoldsMeans(d: Device, frames: seq<Frame>)
    requires Holds(d, frames)
    ensures Waiting(d, frames) && Balanced(d.counters)
    ensures d.ring != [] ==> d.core.lease.alwaysOn || d.core.lease.active
  {
    assert Flatten([]) == [];
  }

  /** With log calls between polls only, a message waits in the ring only while a listener is
      assumed or the device always sends: every poll drains before it considers expiry. */
  lemma DrainedBeforeExpiry(alwaysOn: bool, id: word64, ops: seq<Op>)
    ensures var d := Run(BootDevice(alwaysOn), id, ops);
            d.ring != [] ==> d.core.lease.alwaysOn || d.core.lease.active
  {
    var frames := RunHolds(alwaysOn, id, ops);
    hide Run, BootDevice;
    HoldsMeans(Run(BootDevice(alwaysOn), id, ops), frames);
    hide Holds, Waiting;
  }

  /* ---- runs of phases ---- */

  /** One turn of a drain takes the front frame off, whether or not it can be sent. */
  lemma TakeAny(d: Device, id: word64, link: Uplink, frames: seq<Frame>)
    requires Waiting(d, frames) && WholeFrameIn(d.ring)
    ensures frames != [] && Waiting(TakeOne(d, id, link), frames[1..])
    ensures TakeOne(d, id, link).counters == d.counters
  {
    if frames != [] {
      TakenWhole(d, id, link, frames[0], Flatten(frames[1..]));
      hide TakeOne, WholeFrameIn, ListenerLease.Send, ListenerLease.Delivered, Encode, Flatten;
    }
  }

  lemma ProcessWaits(d: Device, call: LogCall, frames: seq<Frame>)
    requires Waiting(d, frames) && Balanced(d.counters)
    ensures Balanced(Process(d, call).counters)
    ensures Waiting(Process(d, call),
                    if Queues(d, call) then frames + [FrameOf(call)] else frames)
  {
    ProcessBalanced(d, call);
    ProcessQueues(d, call);
    hide Process, MessageText, TransportChatter, MapLevel, Balanced;
    if Queues(d, call) {
      FlattenAppend(frames, FrameOf(call));
      CountOne(d.counters.queued, |frames| + d.drainedSent + d.drainedLost, 0);
      hide Flatten;
    }
  }

  lemma ApplyWaits(d: Device, id: word64, op: DeviceRuns.Op, frames: seq<Frame>) returns (after: seq<Frame>)
    requires Waiting(d, frames) && Balanced(d.counters)
    ensures Waiting(DeviceRuns.Apply(d, id, op), after) && Balanced(DeviceRuns.Apply(d, id, op).counters)
    ensures frames + (if op.Logs? then Put(d, op.call) else []) == Taken(d, op) + after
  {
    after := frames;
    match op
    case Takes(link) =>
      TakenFront(d, op, frames);
      if WholeFrameIn(d.ring) {
        TakeAny(d, id, link, frames);
        after := frames[1..];
      }
      hide TakeOne, Flatten, Balanced, WholeFrameIn, HeaderLength;
    case Logs(call) =>
      ProcessWaits(d, call, frames);
      after := frames + Put(d, call);
      assert frames + [] == frames;
      hide Process, Waiting, Balanced, Queues, FrameOf;
    case _ => hide Join, HearOne, Expire, Refresh, ListenerLease.Send, Flatten, Balanced;
  }

  /** In every state of every run of phases: the ring holds whole frames; and, modulo 2^32, every
      call of process() is accounted for once, and every queued frame is waiting, gone or lost. */
  lemma QueueConserved(alwaysOn: bool, id: word64, ops: seq<DeviceRuns.Op>)
    ensures var d := DeviceRuns.Run(BootDevice(alwaysOn), id, ops);
            var n := d.counters;
            && n.calls == (n.inactive + n.self + n.noFormatter + n.zeroLength + n.ringFull + n.queued) % 0x1_0000_0000
            && (exists frames :: Waiting(d, frames))
  {
    var frames := FirstInFirstOut(alwaysOn, id, ops);
    hide DeviceRuns.Run, BootDevice, Waiting;
  }

  /** The frames put into the ring in a run of phases, and those taken out of it, in order. */
  function PutIn(d: Device, id: word64, ops: seq<DeviceRuns.Op>): seq<Frame> {
    if ops == [] then []
    else
      var front := ops[..|ops| - 1];
      match ops[|ops| - 1]
      case Logs(call) => PutIn(d, id, front) + Put(DeviceRuns.Run(d, id, front), call)
      case _ => PutIn(d, id, front)
  }

  function Put(d: Device, call: LogCall): seq<Frame> { if Queues(d, call) then [FrameOf(call)] else [] }

  function TakenOut(d: Device, id: word64, ops: seq<DeviceRuns.Op>): seq<Frame> {
    if ops == [] then []
    else
      var front := ops[..|ops| - 1];
      TakenOut(d, id, front) + Taken(DeviceRuns.Run(d, id, front), ops[|ops| - 1])
  }

  /** The frame at the front of the ring, if the operation takes one. */
  function Taken(d: Device, op: DeviceRuns.Op): seq<Frame> {
    if op.Takes? && WholeFrameIn(d.ring)
    then [Frame(d.ring[0], d.ring[3..3 + HeaderLength(d.ring)])] else []
  }

  lemma TakenFront(d: Device, op: DeviceRuns.Op, frames: seq<Frame>)
    requires Waiting(d, frames)
    ensures op.Takes? && WholeFrameIn(d.ring) ==> frames != [] && Taken(d, op) == [frames[0]]
    ensures op.Takes? && frames != [] ==> WholeFrameIn(d.ring)
  {
    if frames != [] {
      FrontFrame(frames[0], Flatten(frames[1..]));
    }
  }

  /** The ring is first in, first out, in every run of phases: what was put in is what was taken out
      followed by what waits. */
  lemma {:induction false} FirstInFirstOut(alwaysOn: bool, id: word64, ops: seq<DeviceRuns.Op>)
    returns (waiting: seq<Frame>)
    ensures Waiting(DeviceRuns.Run(BootDevice(alwaysOn), id, ops), waiting)
    ensures Balanced(DeviceRuns.Run(BootDevice(alwaysOn), id, ops).counters)
    ensures PutIn(BootDevice(alwaysOn), id, ops) == TakenOut(BootDevice(alwaysOn), id, ops) + waiting
  {
    var d0 := BootDevice(alwaysOn);
    if ops == [] {
      waiting := [];
    } else {
      var front, op := ops[..|ops| - 1], ops[|ops| - 1];
      var before := FirstInFirstOut(alwaysOn, id, front);
      var d := DeviceRuns.Run(d0, id, front);
      TakenFront(d, op, before);
      hide DeviceRuns.Run, Waiting, Balanced, Taken, Put, BootDevice, WholeFrameIn;
      waiting := ApplyWaits(d, id, op, before);
      PartsMove(PutIn(d0, id, front), TakenOut(d0, id, front), before, waiting,
                if op.Logs? then Put(d, op.call) else [], Taken(d, op));
    }
  }

  /** One operation puts frames on the end of those waiting or takes the first of them. */
  lemma PartsMove(put: seq<Frame>, taken: seq<Frame>, before: seq<Frame>, after: seq<Frame>,
                  more: seq<Frame>, less: seq<Frame>)
    requires put == taken + before && before + more == less + after
    ensures put + more == taken + less + after
  {
    assert put + more == taken + (before + more);
    assert taken + less + after == taken + (less + after);
  }

  /** What a frame's turn does, in every run of phases. The k-th turn is that of the k-th frame put in;
      with the gate open and the device attached, its packet goes to the socket, and otherwise
      nothing; it counts as sent if and only if the gate is open and it is gone, and else as lost. */
  lemma EachTakesItsTurn(alwaysOn: bool, id: word64, ops: seq<DeviceRuns.Op>, link: Uplink)
    requires WholeFrameIn(DeviceRuns.Run(BootDevice(alwaysOn), id, ops).ring)
    ensures var d := DeviceRuns.Run(BootDevice(alwaysOn), id, ops);
            var put, k := PutIn(BootDevice(alwaysOn), id, ops), |TakenOut(BootDevice(alwaysOn), id, ops)|;
            && k < |put| && Queueable(put[k])
            && TakenOut(BootDevice(alwaysOn), id, ops + [DeviceRuns.Takes(link)]) == put[..k + 1]
            && TurnTaken(d, DeviceRuns.Run(BootDevice(alwaysOn), id, ops + [DeviceRuns.Takes(link)]), id, link, put[k])
  {
    hide BootDevice, WholeFrameIn, TurnTaken;
    var d0 := BootDevice(alwaysOn);
    var waiting := FirstInFirstOut(alwaysOn, id, ops);
    var d := DeviceRuns.Run(d0, id, ops);
    OneTurnMore(d0, id, ops, link, waiting);
    FrontTurn(d, id, link, waiting);
    hide DeviceRuns.Run, TakenOut, PutIn, Waiting, Balanced, TakeOne;
    NextInLine(PutIn(d0, id, ops), TakenOut(d0, id, ops), waiting);
  }

  lemma NextInLine(put: seq<Frame>, taken: seq<Frame>, waiting: seq<Frame>)
    requires put == taken + waiting && waiting != []
    ensures put[|taken|] == waiting[0] && put[..|taken| + 1] == taken + [waiting[0]]
  {
  }

  lemma OneTurnMore(d0: Device, id: word64, ops: seq<DeviceRuns.Op>, link: Uplink, waiting: seq<Frame>)
    requires Waiting(DeviceRuns.Run(d0, id, ops), waiting) && WholeFrameIn(DeviceRuns.Run(d0, id, ops).ring)
    ensures waiting != []
    ensures TakenOut(d0, id, ops + [DeviceRuns.Takes(link)]) == TakenOut(d0, id, ops) + [waiting[0]]
    ensures DeviceRuns.Run(d0, id, ops + [DeviceRuns.Takes(link)]) == TakeOne(DeviceRuns.Run(d0, id, ops), id, link)
  {
    var take := DeviceRuns.Takes(link);
    assert (ops + [take])[..|ops|] == ops;
    TakenFront(DeviceRuns.Run(d0, id, ops), take, waiting);
    hide Taken, Waiting, TakeOne, WholeFrameIn;
  }

  ghost predicate TurnTaken(d: Device, e: Device, id: word64, link: Uplink, f: Frame)
    requires Queueable(f)
  {
    var open := GateOpen(d.core, false);
    && e.core.lease == d.core.lease && e.counters == d.counters
    && e.core.log == d.core.log + (if open then Turn(id, link, f) else [])
    && (if open && Gone(link, f) then e.drainedSent == d.drainedSent + 1 && e.drainedLost == d.drainedLost
        else e.drainedSent == d.drainedSent && e.drainedLost == d.drainedLost + 1)
  }

  lemma FrontTurn(d: Device, id: word64, link: Uplink, frames: seq<Frame>)
    requires Waiting(d, frames) && WholeFrameIn(d.ring)
    ensures frames != [] && Queueable(frames[0])
    ensures TurnTaken(d, TakeOne(d, id, link), id, link, frames[0])
  {
    TakenFront(d, DeviceRuns.Takes(link), frames);
    var f := frames[0];
    TakenWhole(d, id, link, f, Flatten(frames[1..]));
    if GateOpen(d.core, false) {
      SendFrame(d.core, id, link, f);
      hide TakeOne, ListenerLease.Send, ListenerLease.Delivered, Turn, Gone, Flatten, WholeFrameIn;
    } else {
      ShutGateTake(d, id, link);
      ShutGateCounts(d, id, link);
      hide TakeOne, Turn, Gone, Flatten, WholeFrameIn;
    }
  }

  lemma ShutGateCounts(d: Device, id: word64, link: Uplink)
    requires WholeFrameIn(d.ring)
    ensures TakeOne(d, id, link).counters == d.counters
  {
    hide ListenerLease.Send, ListenerLease.Delivered, ListenerLease.TextPayload;
  }

  /** A drain with the gate shut throws every waiting frame away: nothing is handed to the socket. */
  lemma {:induction false} ShutGateDrops(d: Device, id: word64, links: nat -> Uplink, k: nat, frames: seq<Frame>)
    requires Waiting(d, frames) && !d.core.lease.alwaysOn && !d.core.lease.active
    ensures var e := Drain(d, id, links, k);
            && e.ring == [] && e.core.log == d.core.log && e.core.lease == d.core.lease
            && e.drainedSent == d.drainedSent && e.drainedLost == d.drainedLost + |frames|
    decreases |frames|
  {
    if frames == [] {
      assert !WholeFrameIn(d.ring);
    } else {
      FrontFrame(frames[0], Flatten(frames[1..]));
      TakeAny(d, id, links(k), frames);
      ShutGateTake(d, id, links(k));
      hide Waiting, TakeOne;
      ShutGateDrops(TakeOne(d, id, links(k)), id, links, k + 1, frames[1..]);
    }
  }

  lemma ShutGateTake(d: Device, id: word64, link: Uplink)
    requires WholeFrameIn(d.ring) && !d.core.lease.alwaysOn && !d.core.lease.active
    ensures var e := TakeOne(d, id, link);
            && e.core.log == d.core.log && e.core.lease == d.core.lease
            && e.drainedSent == d.drainedSent && e.drainedLost == d.drainedLost + 1
  {
    hide Wire.Packet, ListenerLease.TextPayload, HeaderLength;
  }

  ghost predicate NoBeacon(heard: seq<Heard>) {
    forall i :: 0 <= i < |heard| ==> !IsBeacon(heard[i].datagram)
  }

  lemma {:induction false} HearNothing(c: Core, heard: seq<Heard>)
    requires NoBeacon(heard)
    ensures HearAll(c, heard) == c
  {
    hide IsBeacon;
    if heard != [] {
      HearNothing(c, heard[..|heard| - 1]);
    }
  }

  /** What happens to a message queued between a poll's drain and its expiry: the poll's expiry
      finds the lease run out with the message still in the ring, and unless a beacon comes first
      the next poll throws it away. */
  lemma Stranded(d: Device, id: word64, call: LogCall, env: PollEnv, next: PollEnv)
    requires Waiting(d, []) && Queues(d, call) && d.core.lease.joined && !d.core.lease.alwaysOn
    requires TimesOut(d.core.lease, env.checkTime)
    requires env.silentTime > 0 && env.refreshTime - env.silentTime < MLR_REFRESH
    requires NoBeacon(BeforeEmpty(next.pending))
    ensures var frame := FrameOf(call);
            var e := DeviceRuns.Run(d, id, [DeviceRuns.Logs(call), DeviceRuns.Expires(env), DeviceRuns.Refreshes(env)]);
            var f := DrainedBy(e, id, next);
            && Waiting(e, [frame]) && !e.core.lease.active
            && f.ring == [] && f.core.log == e.core.log
            && f.drainedSent == d.drainedSent && f.drainedLost == d.drainedLost + 1
  {
    var p, frame := Process(d, call), FrameOf(call);
    var x := p.(core := Expire(p.core, id, env));
    var e := x.(core := Refresh(x.core, id, env));
    ThreePhases(d, id, call, env);
    ProcessQueues(d, call);
    QueuedAlone(d, call);
    NoRefreshYet(p.core, id, env);
    assert Waiting(e, [frame]) by {
      hide Process, MessageText, Expire, Refresh, Queues, Flatten;
    }
    hide Process, MessageText, Expire, Refresh, Queues, Waiting, DeviceRuns.Run;
    HearNothing(e.core, BeforeEmpty(next.pending));
    assert HeardBy(e, next) == e;
    ShutGateDrops(e, id, next.drainLinks, 0, [frame]);
  }

  lemma QueuedAlone(d: Device, call: LogCall)
    requires Waiting(d, []) && Queues(d, call)
    ensures Waiting(Process(d, call), [FrameOf(call)])
  {
    ProcessQueues(d, call);
    var f := FrameOf(call);
    hide Process, MessageText, MapLevel, Queues;
    assert Flatten([f]) == Encode(f) + Flatten([f][1..]) && Flatten([f][1..]) == [] && Flatten([]) == [];
    CountOne(d.counters.queued, d.drainedSent + d.drainedLost, 0);
  }

  lemma NoRefreshYet(c: Core, id: word64, env: PollEnv)
    requires c.lease.joined && !c.lease.alwaysOn && TimesOut(c.lease, env.checkTime)
    requires env.silentTime > 0 && env.refreshTime - env.silentTime < MLR_REFRESH
    ensures var d := Refresh(Expire(c, id, env), id, env);
            !d.lease.active && !d.lease.alwaysOn && d.lease.joined
  {
    hide ListenerLease.Send, ListenerLease.TextPayload;
  }

  lemma ThreePhases(d: Device, id: word64, call: LogCall, env: PollEnv)
    ensures var x := Process(d, call);
            var y := x.(core := Expire(x.core, id, env));
            DeviceRuns.Run(d, id, [DeviceRuns.Logs(call), DeviceRuns.Expires(env), DeviceRuns.Refreshes(env)])
            == y.(core := Refresh(y.core, id, env))
  {
    var a, b, c := DeviceRuns.Logs(call), DeviceRuns.Expires(env), DeviceRuns.Refreshes(env);
    hide Process, Expire, Refresh;
    assert [] + [a] == [a] && [a] + [b] == [a, b] && [a, b] + [c] == [a, b, c] && DeviceRuns.Run(d, id, []) == d;
    DeviceRuns.RunOne(d, id, [], a);
    DeviceRuns.RunOne(d, id, [a], b);
    DeviceRuns.RunOne(d, id, [a, b], c);
  }

  /* ---- end to end ---- */

  /** Until the next poll the ring only grows at its end. */
  lemma {:induction false} HoldsAlong(d: Device, id: word64, between: seq<Op>, frames: seq<Frame>)
    returns (more: seq<Frame>)
    requires Holds(d, frames) && forall i :: 0 <= i < |between| ==> !between[i].Polls?
    ensures Holds(Run(d, id, between), frames + more)
  {
    if between == [] {
      more := [];
      assert frames + more == frames;
    } else {
      var n := |between| - 1;
      more := HoldsAlong(d, id, between[..n], frames);
      var e := Run(d, id, between[..n]);
      match between[n]
      case Logs(call) =>
        ProcessHolds(e, call, frames + more);
        if Queues(e, call) {
          var f := FrameOf(call);
          assert frames + more + [f] == frames + (more + [f]);
          more := more + [f];
        }
      case Sends(link, logType, payload) =>
        SendKeepsQueue(e, id, link, logType, payload, frames + more);
    }
  }

  lemma SendKeepsQueue(d: Device, id: word64, link: Uplink, logType: byte, payload: seq<byte>, frames: seq<Frame>)
    requires Holds(d, frames)
    ensures Holds(d.(core := Send(d.core, id, link, logType, payload, false)), frames)
  {
    hide Wire.Packet, Flatten, Balanced;
  }

  /** What the receiver makes of a frame's packet. */
  lemma FrameRead(id: word64, link: Uplink, f: Frame) returns (m: LogMessage)
    requires Queueable(f)
    ensures Reading(FramePacket(id, link, f)) == Some(m)
    ensures m.header == SenderHeader(id, link.uptime % 0x1_0000_0000, TYPE_TEXT, 1 + |f.text|)
    ensures m.parsed == Text(f.level, f.text)
  {
    var payload := [f.level] + f.text;
    EveryPacketRead(id, link.uptime % 0x1_0000_0000, TYPE_TEXT, payload);
    hide Wire.Packet, Reading;
    assert payload[1..] == f.text;
    m := LogMessage(SenderHeader(id, link.uptime % 0x1_0000_0000, TYPE_TEXT, |payload|), payload, Text(f.level, f.text));
  }

  lemma EventsStep(id: word64, links: nat -> Uplink, k: nat, frames: seq<Frame>)
    requires frames != [] && AllQueueable(frames)
    ensures AllQueueable(frames[1..])
    ensures FrameEvents(id, links, k, frames) == Turn(id, links(k), frames[0]) + FrameEvents(id, links, k + 1, frames[1..])
    ensures SentOf(links, k, frames) == (if Gone(links(k), frames[0]) then 1 else 0) + SentOf(links, k + 1, frames[1..])
  {
    hide Turn, Gone;
  }

  lemma {:induction false} SentConcat(links: nat -> Uplink, k: nat, a: seq<Frame>, b: seq<Frame>)
    ensures SentOf(links, k, a + b) == SentOf(links, k, a) + SentOf(links, k + |a|, b)
    decreases |a|
  {
    hide Gone;
    if a == [] {
      assert a + b == b;
    } else {
      SentConcat(links, k + 1, a[1..], b);
      assert (a + b)[1..] == a[1..] + b;
    }
  }

  lemma EventsNone(id: word64, links: nat -> Uplink, k: nat)
    ensures FrameEvents(id, links, k, []) == []
  {
  }

  lemma {:induction false} EventsConcat(id: word64, links: nat -> Uplink, k: nat, a: seq<Frame>, b: seq<Frame>)
    requires AllQueueable(a) && AllQueueable(b) && AllQueueable(a + b)
    ensures FrameEvents(id, links, k, a + b) == FrameEvents(id, links, k, a) + FrameEvents(id, links, k + |a|, b)
    decreases |a|
  {
    hide Turn, FrameEvents;
    if a == [] {
      assert a + b == b;
      EventsNone(id, links, k);
    } else {
      EventsStep(id, links, k, a);
      EventsStep(id, links, k, a + b);
      assert (a + b)[1..] == a[1..] + b && (a + b)[0] == a[0];
      assert AllQueueable(a[1..]);
      hide AllQueueable;
      EventsConcat(id, links, k + 1, a[1..], b);
      Grouped(Turn(id, links(k), a[0]), FrameEvents(id, links, k + 1, a[1..]), FrameEvents(id, links, k + |a|, b));
    }
  }

  /** The history of a drain of earlier, f and later, around f's turn. */
  lemma EventsAround(id: word64, links: nat -> Uplink, earlier: seq<Frame>, f: Frame, later: seq<Frame>)
    requires AllQueueable(earlier) && Queueable(f) && AllQueueable(later)
    ensures AllQueueable(earlier + [f] + later)
    ensures FrameEvents(id, links, 0, earlier + [f] + later) ==
            FrameEvents(id, links, 0, earlier) + Turn(id, links(|earlier|), f) + FrameEvents(id, links, |earlier| + 1, later)
    ensures SentOf(links, 0, earlier + [f] + later) ==
            SentOf(links, 0, earlier) + (if Gone(links(|earlier|), f) then 1 else 0) + SentOf(links, |earlier| + 1, later)
  {
    hide FrameEvents, SentOf, Turn, Gone;
    EventsConcat(id, links, 0, earlier, [f]);
    EventsConcat(id, links, 0, earlier + [f], later);
    SentConcat(links, 0, earlier, [f]);
    SentConcat(links, 0, earlier + [f], later);
    OneFrame(id, links, |earlier|, f);
  }

  /** Whatever waits in a state of a run waits there in the strong sense. */
  lemma WaitingHolds(alwaysOn: bool, id: word64, ops: seq<Op>, frames: seq<Frame>)
    requires Waiting(Run(BootDevice(alwaysOn), id, ops), frames)
    ensures Holds(Run(BootDevice(alwaysOn), id, ops), frames)
  {
    var some := RunHolds(alwaysOn, id, ops);
    var d := Run(BootDevice(alwaysOn), id, ops);
    hide Run, BootDevice;
    HoldsMeans(d, some);
    if frames != [] {
      assert Flatten(frames) == Encode(frames[0]) + Flatten(frames[1..]);
      assert d.ring != [];
    }
  }

  /** A poll takes f after the earlier frames and before the later ones: that is the order in the
      history, and f counts as sent exactly if it is gone. */
  ghost predicate TakenInTurn(before: Device, after: Device, id: word64, env: PollEnv,
                              earlier: seq<Frame>, f: Frame, later: seq<Frame>)
    requires AllQueueable(earlier) && Queueable(f) && AllQueueable(later)
  {
    var k, links := |earlier|, env.drainLinks;
    && after.ring == []
    && HeardBy(before, env).core.log
       + (FrameEvents(id, links, 0, earlier) + Turn(id, links(k), f) + FrameEvents(id, links, k + 1, later))
       <= after.core.log
    && after.drainedSent == before.drainedSent + SentOf(links, 0, earlier)
                            + (if Gone(links(k), f) then 1 else 0) + SentOf(links, k + 1, later)
  }

  lemma PollTakesInTurn(d: Device, id: word64, env: PollEnv, earlier: seq<Frame>, f: Frame, later: seq<Frame>)
    requires Holds(d, earlier + [f] + later)
    ensures AllQueueable(earlier) && Queueable(f) && AllQueueable(later)
    ensures TakenInTurn(d, Poll(d, id, env), id, env, earlier, f, later)
  {
    PartsQueueable(earlier, f, later);
    PollPassesOn(d, id, env, earlier + [f] + later);
    PollHolds(d, id, env, earlier + [f] + later);
    EventsAround(id, env.drainLinks, earlier, f, later);
    hide Holds, Poll, PassedOn, FrameEvents, SentOf, Turn, Gone, DrainedBy, AllQueueable;
  }

  /** A message queued at any point of any run, behind the frames waiting there, is taken by the
      next poll at its turn, link number |frames|. That turn is in the history after those of the
      frames before it and before those of the frames queued later: if the device is attached then,
      the message's packet is handed to the socket, and if not, nothing. The message counts as sent
      if and only if the socket takes the packet whole. From the packet the receiver reads exactly
      the message's level and the first 499 bytes of its text, line breaks left out. */
  lemma EndToEnd(alwaysOn: bool, id: word64, ops: seq<Op>, call: LogCall, between: seq<Op>, env: PollEnv,
                 frames: seq<Frame>)
    returns (later: seq<Frame>)
    requires Waiting(Run(BootDevice(alwaysOn), id, ops), frames) && Queues(Run(BootDevice(alwaysOn), id, ops), call)
    requires forall i :: 0 <= i < |between| ==> !between[i].Polls?
    ensures Queueable(FrameOf(call)) && AllQueueable(frames) && AllQueueable(later)
    ensures Waiting(Run(BootDevice(alwaysOn), id, ops + [Logs(call)] + between), frames + [FrameOf(call)] + later)
    ensures TakenInTurn(Run(BootDevice(alwaysOn), id, ops + [Logs(call)] + between),
                        Run(BootDevice(alwaysOn), id, ops + [Logs(call)] + between + [Polls(env)]),
                        id, env, frames, FrameOf(call), later)
    ensures var link := env.drainLinks(|frames|);
            var m := Reading(FramePacket(id, link, FrameOf(call)));
            && m.Some? && m.value.header.deviceId == id && m.value.header.timestamp == link.uptime % 0x1_0000_0000
            && m.value.parsed == Text(if 1 <= call.level <= 4 then call.level else 5,
                                      Cut(WithoutBreaks(Joined(call.chunks)), 499))
  {
    WaitingHolds(alwaysOn, id, ops, frames);
    later := WaitsForPoll(alwaysOn, id, ops, call, between, frames);
    RunOne(BootDevice(alwaysOn), id, ops + [Logs(call)] + between, Polls(env));
    assert Apply(Run(BootDevice(alwaysOn), id, ops + [Logs(call)] + between), id, Polls(env))
           == Poll(Run(BootDevice(alwaysOn), id, ops + [Logs(call)] + between), id, env);
    hide Run, Poll, TakenInTurn, Apply, FrameOf, FramePacket, Reading, BootDevice;
    PollTakesInTurn(Run(BootDevice(alwaysOn), id, ops + [Logs(call)] + between), id, env, frames, FrameOf(call), later);
    ReadBack(id, env.drainLinks(|frames|), call);
  }

  lemma ReadBack(id: word64, link: Uplink, call: LogCall)
    requires Queueable(FrameOf(call))
    ensures var m := Reading(FramePacket(id, link, FrameOf(call)));
            && m.Some? && m.value.header.deviceId == id && m.value.header.timestamp == link.uptime % 0x1_0000_0000
            && m.value.parsed == Text(if 1 <= call.level <= 4 then call.level else 5,
                                      Cut(WithoutBreaks(Joined(call.chunks)), 499))
  {
    var m := FrameRead(id, link, FrameOf(call));
  }

  lemma PartsQueueable(a: seq<Frame>, f: Frame, b: seq<Frame>)
    requires AllQueueable(a + [f] + b)
    ensures AllQueueable(a) && Queueable(f) && AllQueueable(b)
  {
    var all := a + [f] + b;
    assert forall i :: 0 <= i < |a| ==> a[i] == all[i];
    assert all[|a|] == f;
    assert forall i :: 0 <= i < |b| ==> b[i] == all[|a| + 1 + i];
  }

  /** The message keeps its place until the next poll. */
  lemma WaitsForPoll(alwaysOn: bool, id: word64, ops: seq<Op>, call: LogCall, between: seq<Op>, frames: seq<Frame>)
    returns (more: seq<Frame>)
    requires Holds(Run(BootDevice(alwaysOn), id, ops), frames) && Queues(Run(BootDevice(alwaysOn), id, ops), call)
    requires forall i :: 0 <= i < |between| ==> !between[i].Polls?
    ensures Holds(Run(BootDevice(alwaysOn), id, ops + [Logs(call)] + between),
                  frames + [FrameOf(call)] + more)
  {
    var d0, d := BootDevice(alwaysOn), Run(BootDevice(alwaysOn), id, ops);
    ProcessHolds(d, call, frames);
    RunOne(d0, id, ops, Logs(call));
    RunTwice(d0, id, ops + [Logs(call)], between);
    hide Run, Process, Queues, MessageText, MapLevel, Holds;
    more := HoldsAlong(Process(d, call), id, between, frames + [FrameOf(call)]);
  }
}
