/**
  The Zephyr log backend and the device as a whole, as functions: what `process()` queues,
  what a drain sends, and a poll as the sequence of its phases.
 */
module Backend {
  import opened Words
  import opened Wire
  import opened Payloads
  import opened ByteRing
  import opened FrameQueue
  import opened ListenerLease

  /* ---- collecting the formatter's output ---- */

  predicate LineBreak(b: byte) { b == 10 || b == 13 }

  /** One call of `char_out`: bytes other than CR and LF are kept while there is room. */
  function Collect(text: seq<byte>, data: seq<byte>): seq<byte>
    decreases |data|
  {
    if data == [] || |text| >= MAX_TEXT then text
    else Collect(if LineBreak(data[0]) then text else text + [data[0]], data[1..])
  }

  function CollectAll(text: seq<byte>, chunks: seq<seq<byte>>): seq<byte>
    decreases |chunks|
  {
    if chunks == [] then text else CollectAll(Collect(text, chunks[0]), chunks[1..])
  }

  function WithoutBreaks(data: seq<byte>): seq<byte> {
    if data == [] then []
    else (if LineBreak(data[0]) then [] else [data[0]]) + WithoutBreaks(data[1..])
  }

  function Joined(chunks: seq<seq<byte>>): seq<byte> {
    if chunks == [] then [] else chunks[0] + Joined(chunks[1..])
  }

  /** The first 499 bytes of the message that are neither CR nor LF. */
  function MessageText(chunks: seq<seq<byte>>): seq<byte> {
    Cut(WithoutBreaks(Joined(chunks)), MAX_TEXT)
  }

  /* ---- process() ---- */

  /** One call of `process()`: the attachment reading, whether the source is the transport's
      own, whether a text formatter exists, the formatter's output calls and the level. */
  datatype LogCall = LogCall(attached: bool, ownTransport: bool, formatter: bool,
                             chunks: seq<seq<byte>>, level: nat)

  datatype Counters = Counters(calls: word32, inactive: word32, noFormatter: word32, zeroLength: word32,
                               queued: word32, ringFull: word32, self: word32)

  /** drainedSent and drainedLost are history: frames a drain passed on with success or not. */
  datatype Device = Device(core: Core, ring: seq<byte>, counters: Counters, drainedSent: nat, drainedLost: nat)

  function MapLevel(zephyrLevel: nat): byte {
    if 1 <= zephyrLevel <= 4 then zephyrLevel else 5
  }

  const MAC: seq<byte> := [77, 97, 99]
  const MESH_FORWARDER: seq<byte> := [77, 101, 115, 104, 70, 111, 114, 119, 97, 114, 100, 101, 114]

  /** OpenThread's "[x] Mac…" and "[x] MeshForwarder…" lines. */
  predicate TransportChatter(text: seq<byte>) {
    |text| > 4 && text[0] == 91 && text[2] == 93 && text[3] == 32
    && (MAC <= text[4..] || MESH_FORWARDER <= text[4..])
  }

  predicate IsActive(c: Core, attached: bool) {
    attached && (c.lease.alwaysOn || c.lease.active)
  }

  /** What happens to a formatted message: counted off, or framed and queued if it fits. */
  function Admit(d: Device, text: seq<byte>, level: byte): Device
    requires |text| <= MAX_TEXT
  {
    var n := d.counters;
    if text == [] then d.(counters := n.(zeroLength := Inc32(n.zeroLength)))
    else if TransportChatter(text) then d.(counters := n.(self := Inc32(n.self)))
    else
      var frame := Encode(Frame(level, text));
      if RING_SIZE - |d.ring| >= |frame| then
        d.(ring := d.ring + frame, counters := n.(queued := Inc32(n.queued)))
      else d.(counters := n.(ringFull := Inc32(n.ringFull)))
  }

  function Process(d: Device, call: LogCall): Device {
    var n := d.counters.(calls := Inc32(d.counters.calls));
    if !IsActive(d.core, call.attached) then d.(counters := n.(inactive := Inc32(n.inactive)))
    else if call.ownTransport then d.(counters := n.(self := Inc32(n.self)))
    else if !call.formatter then d.(counters := n.(noFormatter := Inc32(n.noFormatter)))
    else
      CollectBounded([], call.chunks);
      Admit(d.(counters := n), CollectAll([], call.chunks), MapLevel(call.level))
  }

  lemma {:induction false} CollectBounded(text: seq<byte>, chunks: seq<seq<byte>>)
    requires |text| <= MAX_TEXT
    ensures |CollectAll(text, chunks)| <= MAX_TEXT
    decreases |chunks|
  {
    if chunks != [] {
      CollectOneBounded(text, chunks[0]);
      CollectBounded(Collect(text, chunks[0]), chunks[1..]);
    }
  }

  lemma {:induction false} CollectOneBounded(text: seq<byte>, data: seq<byte>)
    requires |text| <= MAX_TEXT
    ensures |Collect(text, data)| <= MAX_TEXT
    decreases |data|
  {
    if data != [] && |text| < MAX_TEXT {
      CollectOneBounded(if LineBreak(data[0]) then text else text + [data[0]], data[1..]);
    }
  }

  /* ---- draining ---- */

  /** The ring starts with a header and all the text it announces. */
  predicate WholeFrameIn(ring: seq<byte>) {
    |ring| >= 3 && |ring| >= 3 + HeaderLength(ring)
  }

  function TakeOne(d: Device, id: word64, link: Uplink): Device
    requires WholeFrameIn(d.ring)
  {
    var length := HeaderLength(d.ring);
    var payload := TextPayload(d.ring[0], d.ring[3..3 + Least(length, DRAIN_BUFFER)]);
    var ok := Delivered(d.core, link, payload, false);
    Device(Send(d.core, id, link, TYPE_TEXT, payload, false), d.ring[3 + length..], d.counters,
           if ok then d.drainedSent + 1 else d.drainedSent, if ok then d.drainedLost else d.drainedLost + 1)
  }

  /** A drain of whatever the ring holds; the k-th frame it takes is sent over links(k). */
  function Drain(d: Device, id: word64, links: nat -> Uplink, k: nat): Device
    decreases |d.ring|
  {
    if !WholeFrameIn(d.ring) then d else Drain(TakeOne(d, id, links(k)), id, links, k + 1)
  }

  function Poll(d: Device, id: word64, env: PollEnv): Device {
    var heard := d.(core := CheckBeacons(Join(d.core, env), env.pending));
    var drained := Drain(heard, id, env.drainLinks, 0);
    drained.(core := Refresh(Expire(drained.core, id, env), id, env))
  }

  function BootDevice(alwaysOn: bool): Device {
    Device(Boot(alwaysOn), [], Counters(0, 0, 0, 0, 0, 0, 0), 0, 0)
  }
}
