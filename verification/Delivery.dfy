/** What a packet on the wire says, without reference to how a sender builds it. */
module Delivery {
  import opened Words
  import opened Crc
  import opened Wire
  import opened Payloads
  import opened Receiver

  /** The bytes are a packet with this content: the header fields the receiver unpacks, the payload
      behind them, and the checksum of both, low byte first. */
  predicate Carries(packet: seq<byte>, id: word64, time: word32, logType: byte, payload: seq<byte>) {
    && |payload| <= 1004 && |packet| == |payload| + 20
    && UnpackHeader(packet) == Header(0xE510, 1, id, time, logType, |payload|)
    && packet[18..18 + |payload|] == payload
    && packet[18 + |payload|] == Checksum(packet[..18 + |payload|]) % 256
    && packet[19 + |payload|] == Checksum(packet[..18 + |payload|]) / 256
  }

  lemma PacketCarries(id: word64, time: word32, logType: byte, payload: seq<byte>)
    requires |payload| <= 1004
    ensures Carries(Packet(id, time, logType, payload), id, time, logType, payload)
  {
    PacketLayout(id, time, logType, payload);
    PacketUnpacks(id, time, logType, payload);
    hide Packet, HeaderBytes, UnpackHeader, ByteOf, Checksum;
  }

  lemma PacketUnpacks(id: word64, time: word32, logType: byte, payload: seq<byte>)
    requires |payload| < 0x1_0000
    ensures UnpackHeader(Packet(id, time, logType, payload)) == SenderHeader(id, time, logType, |payload|)
  {
    var h := SenderHeader(id, time, logType, |payload|);
    var front, crc := HeaderBytes(h), LittleEndian(2, Checksum(Body(id, time, logType, payload)));
    assert Packet(id, time, logType, payload) == front + payload + crc;
    hide Packet, HeaderBytes, UnpackHeader, Checksum, LittleEndian;
    assert front + payload + crc == front + (payload + crc);
    UnpackOfHeaderBytes(h, payload + crc);
  }

  /** From such a packet, a beacon's apart, the receiver shows exactly that. */
  lemma CarriedRead(packet: seq<byte>, id: word64, time: word32, logType: byte, payload: seq<byte>)
    requires Carries(packet, id, time, logType, payload) && logType != 0xFF
    ensures Reading(packet) ==
            Some(LogMessage(Header(0xE510, 1, id, time, logType, |payload|), payload, Parse(logType, payload)))
  {
    hide UnpackHeader, Parse, Checksum;
  }

  /** An info or any other text: its level and what it says. */
  lemma TextCarried(packet: seq<byte>, id: word64, time: word32, level: byte, text: seq<byte>)
    requires Carries(packet, id, time, 1, [level] + text)
    ensures var m := Reading(packet);
            m.Some? && m.value.header.deviceId == id && m.value.header.timestamp == time
            && m.value.parsed == Text(level, text)
  {
    CarriedRead(packet, id, time, 1, [level] + text);
    TextReadIff([level] + text, level, text);
    hide Carries, Parse, Reading;
  }
}
