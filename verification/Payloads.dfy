/**
  Text and metric payloads: what the senders put inside a packet and what the receiver's
  `_parse_payload` makes of it.
 */
module Payloads {
  import opened Words
  import opened Wire

  const TYPE_TELEMETRY: byte := 2
  const TYPE_EXCEPTION: byte := 3
  const TELEMETRY_SIZE: nat := 22
  const CRASH_SIZE: nat := 85

  type int32 = x: int | -0x8000_0000 <= x < 0x8000_0000

  /** The receiver's parsed payload; telemetry and crash records stay undecoded. */
  datatype Parsed =
    | Unparsed
    | Text(level: byte, message: seq<byte>)
    | Telemetry(record: seq<byte>)
    | Crash(record: seq<byte>)
    | IntMetric(name: seq<byte>, number: int32)
    | StringMetric(name: seq<byte>, text: seq<byte>)

  /** The longest prefix that is not over the limit. */
  function Cut(s: seq<byte>, limit: nat): (r: seq<byte>)
    ensures |r| == if |s| > limit then limit else |s|
  {
    if |s| > limit then s[..limit] else s
  }

  lemma CutIsPrefix(s: seq<byte>, limit: nat)
    ensures Cut(s, limit) <= s && |Cut(s, limit)| <= limit
    ensures |Cut(s, limit)| < limit ==> Cut(s, limit) == s
  {
  }

  /** `struct.unpack('<i', …)` */
  function SignedLittleEndian(s: seq<byte>): int32
    requires |s| == 4
  {
    var v := Word32(s);
    if v >= 0x8000_0000 then v - 0x1_0000_0000 else v
  }

  function Parse(logType: byte, payload: seq<byte>): Parsed {
    if logType == TYPE_TEXT then
      if |payload| >= 1 then Text(payload[0], payload[1..]) else Unparsed
    else if logType == TYPE_TELEMETRY then
      if |payload| >= TELEMETRY_SIZE then Telemetry(payload) else Unparsed
    else if logType == TYPE_EXCEPTION then
      if |payload| >= CRASH_SIZE then Crash(payload[..CRASH_SIZE]) else Unparsed
    else if logType == TYPE_METRIC then ParseMetric(payload)
    else Unparsed
  }

  function ParseMetric(payload: seq<byte>): Parsed {
    if |payload| < 1 then Unparsed
    else
      var n: nat := payload[0];
      if |payload| < 1 + n + 4 then Unparsed
      else if |payload| == 1 + n + 4 then
        IntMetric(payload[1..1 + n], SignedLittleEndian(payload[1 + n..1 + n + 4]))
      else
        var valueLength: nat := payload[1 + n];
        var end := if 2 + n + valueLength > |payload| then |payload| else 2 + n + valueLength;
        StringMetric(payload[1..1 + n], payload[2 + n..end])
  }

  /** Which payloads read as what: a text is its level and the rest. */
  lemma TextReadIff(payload: seq<byte>, level: byte, message: seq<byte>)
    ensures Parse(1, payload) == Text(level, message) <==> payload == [level] + message
  {
    if Parse(1, payload) == Text(level, message) {
      assert payload == [payload[0]] + payload[1..];
    }
  }

  /** An integer metric is a name with its length in a byte, and exactly four bytes, the number in
      two's complement with the low byte first. */
  lemma IntMetricReadIff(payload: seq<byte>, name: seq<byte>, number: int32)
    ensures Parse(4, payload) == IntMetric(name, number) <==>
            |name| < 256 && payload == [|name|] + name + LittleEndian(4, number % 0x1_0000_0000)
  {
    if Parse(4, payload) == IntMetric(name, number) {
      IntMetricParts(payload);
      hide LittleEndian, SignedLittleEndian;
    }
    if |name| < 256 && payload == [|name|] + name + LittleEndian(4, number % 0x1_0000_0000) {
      NameAndFour(name, LittleEndian(4, number % 0x1_0000_0000));
      SignedRoundTrip(number);
      hide LittleEndian, SignedLittleEndian;
    }
  }

  lemma IntMetricParts(payload: seq<byte>)
    requires Parse(4, payload).IntMetric?
    ensures var m := Parse(4, payload);
            |m.name| < 256 && payload == [|m.name|] + m.name + LittleEndian(4, m.number % 0x1_0000_0000)
  {
    hide LittleEndian, SignedLittleEndian;
    var n: nat := payload[0];
    SignedOnto(payload[1 + n..1 + n + 4]);
    assert payload == [payload[0]] + payload[1..1 + n] + payload[1 + n..1 + n + 4];
  }

  lemma NameAndFour(name: seq<byte>, four: seq<byte>)
    requires |name| < 256 && |four| == 4
    ensures Parse(4, [|name|] + name + four) == IntMetric(name, SignedLittleEndian(four))
  {
    hide SignedLittleEndian;
    var n, p := |name|, [|name|] + name + four;
    assert p[1..1 + n] == name && p[1 + n..1 + n + 4] == four;
  }

  /** A string metric is such a name, a length byte and at least four more bytes, of which the string
      is as many as the length byte says, or all there are. */
  lemma StringMetricReadIff(payload: seq<byte>, name: seq<byte>, text: seq<byte>)
    ensures Parse(4, payload) == StringMetric(name, text) <==>
            |name| < 256 && |payload| >= |name| + 6 && payload[0] == |name| && payload[1..1 + |name|] == name
            && text == Cut(payload[2 + |name|..], payload[1 + |name|])
  {
    var n := |name|;
    if |payload| >= n + 6 && payload[0] == n {
      var length, rest := payload[1 + n], payload[2 + n..];
      var end := if 2 + n + length > |payload| then |payload| else 2 + n + length;
      assert payload[2 + n..end] == rest[..end - 2 - n];
    }
  }

  /** Records are taken by their size alone, and nothing else is read. */
  lemma RecordReadIff(logType: byte, payload: seq<byte>, record: seq<byte>)
    ensures Parse(logType, payload) == Telemetry(record) <==> logType == 2 && record == payload && |payload| >= 22
    ensures Parse(logType, payload) == Crash(record) <==> logType == 3 && |payload| >= 85 && record == payload[..85]
    ensures logType !in [1, 2, 3, 4] ==> Parse(logType, payload) == Unparsed
  {
  }

  /* ---- the senders' payloads ---- */

  function IntMetricBytes(name: seq<byte>, value: int32): (s: seq<byte>)
    ensures |s| == 1 + |Cut(name, 255)| + 4
  {
    [|Cut(name, 255)|] + Cut(name, 255) + LittleEndian(4, value % 0x1_0000_0000)
  }

  function StringMetricBytes(name: seq<byte>, value: seq<byte>): (s: seq<byte>)
    ensures |s| == 2 + |Cut(name, 255)| + |Cut(value, 255)|
  {
    [|Cut(name, 255)|] + Cut(name, 255) + [|Cut(value, 255)|] + Cut(value, 255)
  }

  method FillIntMetric(name: seq<byte>, value: int32) returns (payload: array<byte>, length: nat)
    ensures fresh(payload) && length <= payload.Length
    ensures payload[..length] == IntMetricBytes(name, value)
  {
    var nameLength := |name|;
    if nameLength > 255 {
      nameLength := 255;
    }
    payload := new byte[260](_ => 0);
    payload[0] := nameLength;
    CopyInto(payload, 1, name[..nameLength]);
    assert payload[..1 + nameLength] == [nameLength] + Cut(name, 255);
    PutValue(payload, 1 + nameLength, value);
    length := 1 + nameLength + 4;
  }

  /** `payload[…] = (uint8_t)(value >> 8 * i)`; the shift of a negative value is arithmetic,
      which is division rounding down. */
  method PutValue(payload: array<byte>, pos: nat, value: int32)
    requires pos + 4 <= payload.Length
    modifies payload
    ensures payload[..pos + 4] == old(payload[..pos]) + LittleEndian(4, value % 0x1_0000_0000)
  {
    hide LittleEndian;
    FourShifts(value);
    payload[pos] := value % 256;
    payload[pos + 1] := value / 0x100 % 256;
    payload[pos + 2] := value / 0x1_0000 % 256;
    payload[pos + 3] := value / 0x100_0000 % 256;
  }

  /** Dividing by 256 commutes with reading a negative number as its unsigned image. */
  lemma ShiftByte(v: int, u: int, wrap: int)
    requires u == v || u == v + 256 * wrap
    ensures v % 256 == u % 256 && (u / 256 == v / 256 || u / 256 == v / 256 + wrap)
  {
  }

  lemma FourBytes(v: nat, v1: nat, v2: nat, v3: nat)
    requires v1 == v / 256 && v2 == v1 / 256 && v3 == v2 / 256
    ensures LittleEndian(4, v) == [v % 256, v1 % 256, v2 % 256, v3 % 256]
  {
    assert LittleEndian(1, v3) == [v3 % 256] + LittleEndian(0, v3 / 256) == [v3 % 256];
    assert LittleEndian(2, v2) == [v2 % 256] + LittleEndian(1, v3);
    assert LittleEndian(3, v1) == [v1 % 256] + LittleEndian(2, v2);
    assert LittleEndian(4, v) == [v % 256] + LittleEndian(3, v1);
  }

  lemma FourShifts(value: int32)
    ensures LittleEndian(4, value % 0x1_0000_0000) ==
            [value % 256, value / 0x100 % 256, value / 0x1_0000 % 256, value / 0x100_0000 % 256]
  {
    var u: nat := value % 0x1_0000_0000;
    FourBytes(u, u / 256, u / 256 / 256, u / 256 / 256 / 256);
    ShiftByte(value, u, 0x100_0000);
    ShiftByte(value / 256, u / 256, 0x1_0000);
    ShiftByte(value / 256 / 256, u / 256 / 256, 0x100);
    ShiftByte(value / 256 / 256 / 256, u / 256 / 256 / 256, 1);
    NestedDivision(value);
  }

  lemma NestedDivision(v: int)
    ensures v / 256 / 256 == v / 0x1_0000 && v / 256 / 256 / 256 == v / 0x100_0000
  {
  }

  method FillStringMetric(name: seq<byte>, value: seq<byte>) returns (payload: array<byte>, length: nat)
    ensures fresh(payload) && length <= payload.Length
    ensures payload[..length] == StringMetricBytes(name, value)
  {
    var nameLength, valueLength := |name|, |value|;
    if nameLength > 255 {
      nameLength := 255;
    }
    if valueLength > 255 {
      valueLength := 255;
    }
    payload := new byte[512](_ => 0);
    payload[0] := nameLength;
    CopyInto(payload, 1, name[..nameLength]);
    payload[1 + nameLength] := valueLength;
    assert payload[..2 + nameLength] == [nameLength] + Cut(name, 255) + [valueLength];
    CopyInto(payload, 2 + nameLength, value[..valueLength]);
    length := 2 + nameLength + valueLength;
  }

  /* ---- what comes back ---- */

  lemma SignedRoundTrip(value: int32)
    ensures SignedLittleEndian(LittleEndian(4, value % 0x1_0000_0000)) == value
  {
    WordsBack(0, value % 0x1_0000_0000, 0);
    hide LittleEndian, Word32;
  }

  /** Every integer metric comes back as itself, under its name cut to 255 bytes. */
  lemma IntMetricRoundTrip(name: seq<byte>, value: int32)
    ensures Parse(TYPE_METRIC, IntMetricBytes(name, value)) == IntMetric(Cut(name, 255), value)
  {
    var p, n := IntMetricBytes(name, value), |Cut(name, 255)|;
    assert p[1..1 + n] == Cut(name, 255);
    assert p[1 + n..1 + n + 4] == LittleEndian(4, value % 0x1_0000_0000);
    SignedRoundTrip(value);
  }

  lemma StringFields(name: seq<byte>, value: seq<byte>)
    ensures var p, n, stored := StringMetricBytes(name, value), |Cut(name, 255)|, Cut(value, 255);
            && p[0] == n && p[1..1 + n] == Cut(name, 255)
            && p[1 + n] == |stored| && p[2 + n..2 + n + |stored|] == stored
            && (|stored| == 3 ==> p[1 + n..1 + n + 4] == [3] + stored)
  {
    var p, n, stored := StringMetricBytes(name, value), |Cut(name, 255)|, Cut(value, 255);
    var front := [n] + Cut(name, 255);
    var back := [|stored|] + stored;
    assert p == front + back && |front| == 1 + n;
    hide Cut, StringMetricBytes;
    assert p[1 + n..1 + n + |back|] == back;
    assert p[2 + n..2 + n + |stored|] == back[1..];
  }

  /** What the receiver makes of a string metric depends on the length of the stored value:
      from four bytes on it is the string; a three-byte string comes out as an integer, and a
      shorter one as a payload the receiver cannot read. */
  lemma StringMetricReading(name: seq<byte>, value: seq<byte>)
    ensures var stored := Cut(value, 255);
            Parse(TYPE_METRIC, StringMetricBytes(name, value)) ==
            if |stored| >= 4 then StringMetric(Cut(name, 255), stored)
            else if |stored| == 3 then IntMetric(Cut(name, 255), SignedLittleEndian([3] + stored))
            else Unparsed
  {
    StringFields(name, value);
  }

  /** So the metric API round-trips a string exactly from four bytes on. */
  lemma StringMetricRoundTripIff(name: seq<byte>, value: seq<byte>)
    ensures Parse(TYPE_METRIC, StringMetricBytes(name, value)) == StringMetric(Cut(name, 255), Cut(value, 255))
       <==> |value| >= 4
  {
    StringMetricReading(name, value);
  }

  /** An integer and a string metric are the same bytes on the wire exactly when the names
      agree as stored and the string is three bytes whose length prefix and contents spell the
      integer; its low byte is then 3. */
  lemma MetricsCollideIff(name1: seq<byte>, number: int32, name2: seq<byte>, text: seq<byte>)
    ensures IntMetricBytes(name1, number) == StringMetricBytes(name2, text)
       <==> Cut(name1, 255) == Cut(name2, 255) && |text| == 3 && number == SignedLittleEndian([3] + text)
  {
    if IntMetricBytes(name1, number) == StringMetricBytes(name2, text) {
      IntMetricRoundTrip(name1, number);
      StringMetricReading(name2, text);
    }
    if Cut(name1, 255) == Cut(name2, 255) && |text| == 3 && number == SignedLittleEndian([3] + text) {
      SignedOnto([3] + text);
      assert [3] + text == [|Cut(text, 255)|] + Cut(text, 255);
    }
  }

  lemma SignedOnto(s: seq<byte>)
    requires |s| == 4
    ensures LittleEndian(4, SignedLittleEndian(s) % 0x1_0000_0000) == s
  {
    hide LittleEndian, Word32;
  }
}

/** The Python receiver's message handling. */
module Receiver {
  import opened Words
  import opened Wire
  import opened Payloads

  datatype LogMessage = LogMessage(header: Header, payload: seq<byte>, parsed: Parsed)

  function Reading(datagram: seq<byte>): Option<LogMessage> {
    match Accept(Received(datagram))
    case None => None
    case Some((h, payload)) => Some(LogMessage(h, payload, Parse(h.logType, payload)))
  }

  /** A datagram is shown if and only if its first 1024 bytes hold a header with the magic number and
      another type than the beacon's, the payload whose length it states, and two bytes more. */
  lemma ReadingIff(datagram: seq<byte>, m: LogMessage)
    ensures Reading(datagram) == Some(m) <==>
            var h, end := m.header, 18 + |m.payload|;
            && h.magic == 0xE510 && h.logType != 0xFF && h.length == |m.payload| && m.parsed == Parse(h.logType, m.payload)
            && end + 2 <= 1024 && end + 2 <= |datagram| && datagram[..end] == HeaderBytes(h) + m.payload
  {
    AcceptIff(Received(datagram), m.header, m.payload);
    var end := 18 + |m.payload|;
    if end + 2 <= 1024 && end + 2 <= |datagram| {
      assert Received(datagram)[..end] == datagram[..end];
    }
    hide Accept, HeaderBytes, Parse;
  }

  /** What is shown of the datagrams one select() found; a receive that raises is None. */
  function Readings(received: seq<Option<seq<byte>>>): seq<LogMessage> {
    if received == [] then []
    else
      var shown := Readings(received[..|received| - 1]);
      match received[|received| - 1]
      case None => shown
      case Some(datagram) => (match Reading(datagram) case None => shown case Some(m) => shown + [m])
  }

  function Senders(messages: seq<LogMessage>): set<word64> {
    set m | m in messages :: m.header.deviceId
  }

  lemma SendersMore(seen: set<word64>, messages: seq<LogMessage>, m: LogMessage)
    ensures seen + Senders(messages) + {m.header.deviceId} == seen + Senders(messages + [m])
  {
  }

  lemma ReadingsMore(received: seq<Option<seq<byte>>>, i: nat)
    requires i < |received|
    ensures Readings(received[..i + 1]) ==
            match received[i]
            case None => Readings(received[..i])
            case Some(datagram) =>
              match Reading(datagram) case None => Readings(received[..i]) case Some(m) => Readings(received[..i]) + [m]
  {
    hide Reading;
    assert received[..i + 1][..i] == received[..i];
  }

  /** Seconds, like `time.time()`. */
  const BEACON_INTERVAL: real := 30.0
  const IGMP_REFRESH_INTERVAL: real := 60.0

  /** `_send_beacon6` sends unless the last beacon is less than 30 s old. */
  predicate BeaconDueAt(last: real, now: real) { now - last >= BEACON_INTERVAL }

  class LogReceiver {
    const beaconPacket: seq<byte>
    var messageCount: nat
    var devicesSeen: set<word64>
    var lastBeacon6: real
    var lastIgmpJoin: real

    constructor (beacon: seq<byte>, joined: real)
      ensures messageCount == 0 && devicesSeen == {} && lastBeacon6 == 0.0 && lastIgmpJoin == joined
      ensures beaconPacket == beacon
    {
      beaconPacket, messageCount, devicesSeen, lastBeacon6, lastIgmpJoin := beacon, 0, {}, 0.0, joined;
    }

    method HandleMessage(datagram: seq<byte>) returns (shown: Option<LogMessage>)
      modifies `messageCount, `devicesSeen
      ensures shown == Reading(datagram)
      ensures shown.None? ==> messageCount == old(messageCount) && devicesSeen == old(devicesSeen)
      ensures shown.Some? ==> messageCount == old(messageCount) + 1
                              && devicesSeen == old(devicesSeen) + {shown.value.header.deviceId}
    {
      var data := if |datagram| > MAX_PACKET then datagram[..MAX_PACKET] else datagram;
      if |data| < HEADER_SIZE {
        return None;
      }
      var header := UnpackHeader(data);
      if header.magic != MAGIC {
        return None;
      }
      if header.logType == BEACON_TYPE {
        return None;
      }
      var payloadEnd := HEADER_SIZE + header.length;
      if |data| < payloadEnd + 2 {
        return None;
      }
      var payload := data[HEADER_SIZE..payloadEnd];
      messageCount := messageCount + 1;
      devicesSeen := devicesSeen + {header.deviceId};
      shown := Some(LogMessage(header, payload, Parse(header.logType, payload)));
    }

    /** A send that raises leaves the time of the last beacon as it was, so the next turn of the
        loop tries again. */
    method SendBeacon6(socket6: bool, now: real, accepted: bool) returns (handed: Option<seq<byte>>)
      modifies `lastBeacon6
      ensures handed == if socket6 && now - old(lastBeacon6) >= 30.0 then Some(beaconPacket) else None
      ensures lastBeacon6 == if handed.Some? && accepted then now else old(lastBeacon6)
    {
      if !socket6 {
        return None;
      }
      if now - lastBeacon6 < BEACON_INTERVAL {
        return None;
      }
      handed := Some(beaconPacket);
      if accepted {
        lastBeacon6 := now;
      }
    }

    /** The clock after re-joining the group, or before if it was not time; the socket calls that do
        the re-joining may fail without effect on it. */
    method RefreshIgmp(joinable: bool, now: real, again: real)
      modifies `lastIgmpJoin
      ensures lastIgmpJoin == if joinable && now - old(lastIgmpJoin) > 60.0 then again else old(lastIgmpJoin)
    {
      if joinable && now - lastIgmpJoin > IGMP_REFRESH_INTERVAL {
        lastIgmpJoin := again;
      }
    }

    method ShowAll(readable: seq<Option<seq<byte>>>) returns (shown: seq<LogMessage>)
      modifies `messageCount, `devicesSeen
      ensures shown == Readings(readable)
      ensures messageCount == old(messageCount) + |shown| && devicesSeen == old(devicesSeen) + Senders(shown)
    {
      shown := [];
      assert Senders([]) == {};
      assert Readings([]) == [] && readable[..0] == [];
      hide Reading, Readings, Senders;
      for i := 0 to |readable|
        invariant shown == Readings(readable[..i])
        invariant messageCount == old(messageCount) + |shown| && devicesSeen == old(devicesSeen) + Senders(shown)
      {
        ReadingsMore(readable, i);
        if readable[i].Some? {
          var m := HandleMessage(readable[i].value);
          if m.Some? {
            SendersMore(old(devicesSeen), shown, m.value);
            shown := shown + [m.value];
          }
        }
      }
      assert readable[..|readable|] == readable;
    }

    /** One turn of `listen` up to the beacon: what select() found, the group, the beacon. If select()
        raises, there is nothing else to the turn. */
    method ListenTurn(selected: Option<seq<Option<seq<byte>>>>, joinable: bool, checked: real, again: real,
                      socket6: bool, now: real, accepted: bool)
      returns (shown: seq<LogMessage>, handed: Option<seq<byte>>)
      modifies this
      ensures shown == if selected.Some? then Readings(selected.value) else []
      ensures messageCount == old(messageCount) + |shown| && devicesSeen == old(devicesSeen) + Senders(shown)
      ensures lastIgmpJoin == if selected.Some? && joinable && checked - old(lastIgmpJoin) > 60.0
                              then again else old(lastIgmpJoin)
      ensures handed == if selected.Some? && socket6 && now - old(lastBeacon6) >= 30.0 then Some(beaconPacket)
                        else None
      ensures lastBeacon6 == if handed.Some? && accepted then now else old(lastBeacon6)
    {
      shown, handed := [], None;
      assert Senders([]) == {};
      if selected.None? {
        return;
      }
      hide Readings, Senders;
      shown := ShowAll(selected.value);
      RefreshIgmp(joinable, checked, again);
      handed := SendBeacon6(socket6, now, accepted);
    }
  }

  /** Whatever a sender may send, the receiver shows, with every field as sent. */
  lemma EveryPacketRead(deviceId: word64, timestamp: word32, logType: byte, payload: seq<byte>)
    requires HEADER_SIZE + |payload| + 2 <= MAX_PACKET && logType != BEACON_TYPE
    ensures Reading(Packet(deviceId, timestamp, logType, payload)) ==
            Some(LogMessage(SenderHeader(deviceId, timestamp, logType, |payload|), payload, Parse(logType, payload)))
  {
    var p := Packet(deviceId, timestamp, logType, payload);
    RoundTrip(deviceId, timestamp, logType, payload, []);
    assert p + [] == p;
  }
}
