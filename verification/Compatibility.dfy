/** The three senders on one wire, and the one receiver. */
module Compatibility {
  import opened Words
  import opened Wire
  import opened Payloads
  import opened Receiver
  import opened ListenerLease
  import Arduino
  import EspIdf

  /** Packets determine what they carry: two of them are the same bytes only if sender, time,
      type and payload agree. */
  lemma PacketInjective(id1: word64, time1: word32, type1: byte, payload1: seq<byte>,
                        id2: word64, time2: word32, type2: byte, payload2: seq<byte>)
    requires |payload1| < 0x1_0000 && |payload2| < 0x1_0000
    ensures Packet(id1, time1, type1, payload1) == Packet(id2, time2, type2, payload2)
       <==> id1 == id2 && time1 == time2 && type1 == type2 && payload1 == payload2
  {
    if Packet(id1, time1, type1, payload1) == Packet(id2, time2, type2, payload2) {
      var h1, h2 := SenderHeader(id1, time1, type1, |payload1|), SenderHeader(id2, time2, type2, |payload2|);
      var p := Packet(id1, time1, type1, payload1);
      assert p[..HEADER_SIZE + |payload1|] == HeaderBytes(h1) + payload1;
      assert p[..HEADER_SIZE + |payload2|] == HeaderBytes(h2) + payload2;
      UnpackOfHeaderBytes(h1, payload1);
      UnpackOfHeaderBytes(h2, payload2);
      assert HeaderBytes(h1) + payload1 == HeaderBytes(h2) + payload2;
      hide HeaderBytes, UnpackHeader, Packet;
      assert payload1 == (HeaderBytes(h1) + payload1)[HEADER_SIZE..];
      assert payload2 == (HeaderBytes(h2) + payload2)[HEADER_SIZE..];
    }
  }

  /** What the Arduino class and the two C ports send for the same log call, made at the same
      time on the same device, is the same packet exactly for the texts Arduino does not cut. */
  lemma TextPacketsAgreeIff(c: Arduino.Config, time: word32, level: Arduino.Level, text: seq<byte>)
    ensures Packet(c.deviceId, time, TYPE_TEXT, Arduino.TextOf(c, level, text))
            == Packet(c.deviceId, time, TYPE_TEXT, TextPayload(level, text))
       <==> |text| < Arduino.MaxMessage(c.platform)
  {
    var a, b := Arduino.TextOf(c, level, text), TextPayload(level, text);
    PacketInjective(c.deviceId, time, TYPE_TEXT, a, c.deviceId, time, TYPE_TEXT, b);
    hide Packet;
  }

  /** No public call builds more than 532 bytes, telemetry and crash records included, so no sender
      refuses a message for its size and the receiver's buffer cuts none. */
  lemma PublicPayloadsFit(c: Arduino.Config, level: Arduino.Level, text: seq<byte>,
                          name: seq<byte>, value: seq<byte>, number: int32, record: Arduino.Record)
    ensures forall p :: p in [TextPayload(level, text), Arduino.TextOf(c, level, text), record,
                              IntMetricBytes(name, number), StringMetricBytes(name, value)] ==>
                          HEADER_SIZE + |p| + 2 <= 532 <= MAX_PACKET
  {
  }

  /** A telemetry or crash record arrives whole and is long enough to be decoded; of a telemetry
      record the extended half is not, for it would have to be 98 bytes long. */
  lemma RecordRead(id: word64, time: word32, record: Arduino.Record)
    ensures var t := Reading(Packet(id, time, TYPE_TELEMETRY, record));
            t.Some? && t.value.parsed == Telemetry(record) && |record| < 98
    ensures var x := Reading(Packet(id, time, TYPE_EXCEPTION, record));
            x.Some? && x.value.parsed == Crash(record)
  {
    EveryPacketRead(id, time, TYPE_TELEMETRY, record);
    EveryPacketRead(id, time, TYPE_EXCEPTION, record);
    hide Packet, Reading;
    assert record[..CRASH_SIZE] == record;
  }

  /** What a listener shows of an Arduino sketch's log call. */
  lemma ArduinoTextRead(c: Arduino.Config, time: word32, level: Arduino.Level, text: seq<byte>)
    ensures var m := Reading(Packet(c.deviceId, time, TYPE_TEXT, Arduino.TextOf(c, level, text)));
            && m.Some? && m.value.header.deviceId == c.deviceId && m.value.header.timestamp == time
            && m.value.parsed == Text(level, Cut(text, Arduino.MaxMessage(c.platform) - 1))
  {
    var payload := Arduino.TextOf(c, level, text);
    EveryPacketRead(c.deviceId, time, TYPE_TEXT, payload);
    assert payload[1..] == Cut(text, Arduino.MaxMessage(c.platform) - 1);
    hide Packet, Reading;
  }

  /** And of an integer metric from any of the three. */
  lemma IntMetricRead(id: word64, time: word32, name: seq<byte>, number: int32)
    ensures var m := Reading(Packet(id, time, TYPE_METRIC, IntMetricBytes(name, number)));
            && m.Some? && m.value.header.deviceId == id && m.value.header.timestamp == time
            && m.value.parsed == IntMetric(Cut(name, 255), number)
  {
    EveryPacketRead(id, time, TYPE_METRIC, IntMetricBytes(name, number));
    IntMetricRoundTrip(name, number);
    hide Packet, Reading, Parse, IntMetricBytes;
  }

  /** The unicast and the multicast copy of an ESP-IDF message read the same. */
  lemma CopiesReadAlike(c: EspIdf.Config, k: EspIdf.Core, link: EspIdf.Link, logType: byte, payload: seq<byte>)
    ensures var more := EspIdf.Send(c, k, link, logType, payload).wire;
            && k.wire <= more && |more| <= |k.wire| + 2
            && forall i, j :: |k.wire| <= i < j < |more| ==>
                 more[i].to != more[j].to && Reading(more[i].bytes) == Reading(more[j].bytes)
  {
    hide Packet, Reading;
  }
}
