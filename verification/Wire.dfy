/**
  The binary packet: an 18-byte little-endian header, the payload and a two-byte checksum,
  as the senders build it and as the Python receiver takes it apart.
 */
module Wire {
  import opened Words
  import opened Crc

  const MAGIC: word16 := 0xE510
  const PROTOCOL_VERSION: byte := 1
  const BEACON_TYPE: byte := 0xFF
  const TYPE_TEXT: byte := 1
  const TYPE_METRIC: byte := 4
  const HEADER_SIZE: nat := 18
  const MAX_PACKET: nat := 1024

  datatype Option<+T> = None | Some(value: T)

  datatype Header = Header(magic: word16, version: byte, deviceId: word64, timestamp: word32,
                           logType: byte, length: word16)

  function HeaderBytes(h: Header): (s: seq<byte>)
    ensures |s| == HEADER_SIZE
  {
    LittleEndian(2, h.magic) + [h.version] + LittleEndian(8, h.deviceId) + LittleEndian(4, h.timestamp)
    + [h.logType] + LittleEndian(2, h.length)
  }

  function SenderHeader(deviceId: word64, timestamp: word32, logType: byte, length: word16): Header {
    Header(MAGIC, PROTOCOL_VERSION, deviceId, timestamp, logType, length)
  }

  function Body(deviceId: word64, timestamp: word32, logType: byte, payload: seq<byte>): (s: seq<byte>)
    requires |payload| < 0x1_0000
    ensures |s| == HEADER_SIZE + |payload|
  {
    HeaderBytes(SenderHeader(deviceId, timestamp, logType, |payload|)) + payload
  }

  /** The packet every sender must put on the wire. */
  function Packet(deviceId: word64, timestamp: word32, logType: byte, payload: seq<byte>): (s: seq<byte>)
    requires |payload| < 0x1_0000
    ensures |s| == HEADER_SIZE + |payload| + 2
  {
    var body := Body(deviceId, timestamp, logType, payload);
    body + LittleEndian(2, Checksum(body))
  }

  /* ---- the senders' byte-by-byte serialisation ---- */

  lemma NextByte(target: seq<byte>, i: nat, rest: nat)
    requires i < |target| && target[i..] == LittleEndian(|target| - i, rest)
    ensures target[i] == rest % 256 && target[i + 1..] == LittleEndian(|target| - (i + 1), rest / 256)
  {
    assert target[i] == target[i..][0];
    assert target[i + 1..] == target[i..][1..];
  }

  /** `packet[pos++] = v & 0xFF; v >>= 8`, n times. */
  method PutLittleEndian(packet: array<byte>, pos: nat, n: nat, v: nat) returns (next: nat)
    requires pos + n <= packet.Length
    modifies packet
    ensures next == pos + n
    ensures packet[..] == old(packet[..pos]) + LittleEndian(n, v) + old(packet[pos + n..])
  {
    hide LittleEndian;
    next := pos;
    var rest := v;
    ghost var target := LittleEndian(n, v);
    assert target[0..] == target;
    for i := 0 to n
      invariant next == pos + i
      invariant forall k :: 0 <= k < pos || next <= k < packet.Length ==> packet[k] == old(packet[k])
      invariant forall k :: 0 <= k < i ==> packet[pos + k] == target[k]
      invariant target[i..] == LittleEndian(n - i, rest)
    {
      NextByte(target, i, rest);
      packet[next] := rest % 256;
      next := next + 1;
      rest := rest / 256;
    }
  }

  /** The header fields in the order all three senders write them. */
  method PutHeader(packet: array<byte>, deviceId: word64, timestamp: word32, logType: byte, length: word16)
    returns (pos: nat)
    requires packet.Length == MAX_PACKET
    modifies packet
    ensures pos == HEADER_SIZE
    ensures packet[..pos] == HeaderBytes(SenderHeader(deviceId, timestamp, logType, length))
  {
    pos := PutLittleEndian(packet, 0, 2, MAGIC);
    packet[pos] := PROTOCOL_VERSION;
    pos := pos + 1;
    assert packet[..3] == LittleEndian(2, MAGIC) + [PROTOCOL_VERSION];
    pos := PutLittleEndian(packet, pos, 8, deviceId);
    assert packet[..11] == LittleEndian(2, MAGIC) + [PROTOCOL_VERSION] + LittleEndian(8, deviceId);
    pos := PutLittleEndian(packet, pos, 4, timestamp);
    assert packet[..15] == LittleEndian(2, MAGIC) + [PROTOCOL_VERSION] + LittleEndian(8, deviceId)
                           + LittleEndian(4, timestamp);
    packet[pos] := logType;
    pos := pos + 1;
    assert packet[..16] == LittleEndian(2, MAGIC) + [PROTOCOL_VERSION] + LittleEndian(8, deviceId)
                           + LittleEndian(4, timestamp) + [logType];
    pos := PutLittleEndian(packet, pos, 2, length);
    assert packet[..18] == LittleEndian(2, MAGIC) + [PROTOCOL_VERSION] + LittleEndian(8, deviceId)
                           + LittleEndian(4, timestamp) + [logType] + LittleEndian(2, length);
  }

  /** memcpy */
  method CopyInto(packet: array<byte>, pos: nat, data: seq<byte>)
    requires pos + |data| <= packet.Length
    modifies packet
    ensures packet[..] == old(packet[..pos]) + data + old(packet[pos + |data|..])
  {
    ghost var before := packet[..];
    for i := 0 to |data|
      invariant packet[..pos] == before[..pos] && packet[pos + i..] == before[pos + i..]
      invariant packet[pos..pos + i] == data[..i]
    {
      packet[pos + i] := data[i];
      assert packet[pos..pos + i + 1] == data[..i] + [data[i]];
    }
    assert packet[..] == packet[..pos] + packet[pos..pos + |data|] + packet[pos + |data|..];
  }

  method PutBody(packet: array<byte>, deviceId: word64, timestamp: word32, logType: byte, payload: seq<byte>)
    returns (end: nat)
    requires packet.Length == MAX_PACKET && HEADER_SIZE + |payload| + 2 <= MAX_PACKET
    modifies packet
    ensures end == HEADER_SIZE + |payload|
    ensures packet[..end] == Body(deviceId, timestamp, logType, payload)
  {
    var pos := PutHeader(packet, deviceId, timestamp, logType, |payload|);
    if |payload| > 0 {
      CopyInto(packet, pos, payload);
    }
    end := HEADER_SIZE + |payload|;
  }

  method PutChecksum(packet: array<byte>, end: nat, crc: word16)
    requires end + 2 <= packet.Length
    modifies packet
    ensures packet[..end + 2] == old(packet[..end]) + LittleEndian(2, crc)
  {
    packet[end] := crc % 256;
    packet[end + 1] := crc / 256 % 256;
    TwoBytesLittleEndian(crc);
  }

  lemma TwoBytesLittleEndian(v: word16)
    ensures LittleEndian(2, v) == [v % 256, v / 256 % 256]
  {
    assert LittleEndian(1, v / 256) == [v / 256 % 256] + LittleEndian(0, v / 256 / 256);
  }

  /** What the two C ports do once the gates are passed: the checksum's low and high byte are
      written by hand. */
  method Serialise(deviceId: word64, timestamp: word32, logType: byte, payload: seq<byte>)
    returns (packet: array<byte>, total: nat)
    requires HEADER_SIZE + |payload| + 2 <= MAX_PACKET
    ensures fresh(packet) && total == HEADER_SIZE + |payload| + 2 <= packet.Length
    ensures packet[..total] == Packet(deviceId, timestamp, logType, payload)
  {
    packet := new byte[MAX_PACKET](_ => 0);
    var end := PutBody(packet, deviceId, timestamp, logType, payload);
    var crc := Crc16Ccitt(packet, end);
    PutChecksum(packet, end, crc);
    total := end + 2;
  }

  /** What the Arduino class does instead: the checksum goes in with a memcpy of the
      uint16_t, whose bytes lie little-endian in memory. */
  method SerialiseArduino(deviceId: word64, timestamp: word32, logType: byte, payload: seq<byte>)
    returns (packet: array<byte>, total: nat)
    requires HEADER_SIZE + |payload| + 2 <= MAX_PACKET
    ensures fresh(packet) && total == HEADER_SIZE + |payload| + 2 <= packet.Length
    ensures packet[..total] == Packet(deviceId, timestamp, logType, payload)
  {
    packet := new byte[MAX_PACKET](_ => 0);
    var end := PutBody(packet, deviceId, timestamp, logType, payload);
    var checksum := Crc16Ccitt(packet, end);
    ghost var body := packet[..end];
    CopyInto(packet, end, LittleEndian(2, checksum));
    total := end + 2;
    assert packet[..total] == body + LittleEndian(2, checksum);
  }

  /* ---- the receiver's side ---- */

  /** `struct.unpack('<HBQIBH', data[:18])` */
  function UnpackHeader(data: seq<byte>): Header
    requires |data| >= HEADER_SIZE
  {
    Header(Word16(data[..2]), data[2], Word64(data[3..11]), Word32(data[11..15]), data[15], Word16(data[16..18]))
  }

  /** The checks of `_handle_message` up to the payload: what it makes of one datagram. */
  function Accept(data: seq<byte>): Option<(Header, seq<byte>)> {
    if |data| < HEADER_SIZE then None
    else
      var h := UnpackHeader(data);
      if h.magic != MAGIC then None
      else if h.logType == BEACON_TYPE then None
      else if |data| < HEADER_SIZE + h.length + 2 then None
      else Some((h, data[HEADER_SIZE..HEADER_SIZE + h.length]))
  }

  lemma UnpackOfHeaderBytes(h: Header, rest: seq<byte>)
    ensures UnpackHeader(HeaderBytes(h) + rest) == h
  {
    var data := HeaderBytes(h) + rest;
    WordsBack(h.magic, h.timestamp, h.deviceId);
    WordsBack(h.length, h.timestamp, h.deviceId);
    hide LittleEndian, Word16, Word32, Word64;
    assert data[..2] == LittleEndian(2, h.magic);
    assert data[3..11] == LittleEndian(8, h.deviceId);
    assert data[11..15] == LittleEndian(4, h.timestamp);
    assert data[16..18] == LittleEndian(2, h.length);
  }

  lemma HeaderBytesOfUnpack(data: seq<byte>)
    requires |data| >= HEADER_SIZE
    ensures HeaderBytes(UnpackHeader(data)) == data[..HEADER_SIZE]
  {
    hide LittleEndian, Word16, Word32, Word64;
    assert data[..HEADER_SIZE] ==
           data[..2] + [data[2]] + data[3..11] + data[11..15] + [data[15]] + data[16..18];
  }

  /** The datagrams the receiver takes are exactly these: a header with the magic number and a
      type other than the beacon's, the payload whose length it states, any two bytes where the
      checksum goes, and anything at all after that. */
  lemma AcceptIff(data: seq<byte>, h: Header, payload: seq<byte>)
    ensures Accept(data) == Some((h, payload)) <==>
            (&& h.magic == MAGIC && h.logType != BEACON_TYPE && h.length == |payload|
             && |data| >= HEADER_SIZE + |payload| + 2
             && data[..HEADER_SIZE + |payload|] == HeaderBytes(h) + payload)
  {
    if Accept(data) == Some((h, payload)) {
      HeaderBytesOfUnpack(data);
      assert data[..HEADER_SIZE + |payload|] == data[..HEADER_SIZE] + data[HEADER_SIZE..HEADER_SIZE + |payload|];
    }
    if |data| >= HEADER_SIZE + |payload| + 2 && data[..HEADER_SIZE + |payload|] == HeaderBytes(h) + payload {
      assert data == HeaderBytes(h) + (payload + data[HEADER_SIZE + |payload|..]);
      UnpackOfHeaderBytes(h, payload + data[HEADER_SIZE + |payload|..]);
      assert data[HEADER_SIZE..HEADER_SIZE + |payload|] == payload;
    }
  }

  /** The receiver recovers every header field and the payload from what a sender built,
      whatever trails it. */
  lemma RoundTrip(deviceId: word64, timestamp: word32, logType: byte, payload: seq<byte>, trailing: seq<byte>)
    requires |payload| < 0x1_0000 && logType != BEACON_TYPE
    ensures Accept(Packet(deviceId, timestamp, logType, payload) + trailing) ==
            Some((SenderHeader(deviceId, timestamp, logType, |payload|), payload))
  {
    var h := SenderHeader(deviceId, timestamp, logType, |payload|);
    var p := Packet(deviceId, timestamp, logType, payload);
    assert (p + trailing)[..HEADER_SIZE + |payload|] == HeaderBytes(h) + payload;
    AcceptIff(p + trailing, h, payload);
  }

  /** The i-th byte of v, counting from the lowest. */
  function ByteOf(v: nat, i: nat): byte { if i == 0 then v % 256 else ByteOf(v / 256, i - 1) }

  lemma {:induction false} LittleEndianAt(n: nat, v: nat, i: nat)
    requires i < n
    ensures LittleEndian(n, v)[i] == ByteOf(v, i)
  {
    if i > 0 {
      LittleEndianAt(n - 1, v / 256, i - 1);
    }
  }

  /** Where each byte of a packet lies. */
  lemma PacketLayout(deviceId: word64, timestamp: word32, logType: byte, payload: seq<byte>)
    requires |payload| < 0x1_0000
    ensures var p := Packet(deviceId, timestamp, logType, payload);
            && |p| == 20 + |payload| && p[0] == 0x10 && p[1] == 0xE5 && p[2] == 1
            && (forall i: nat :: i < 8 ==> p[3 + i] == ByteOf(deviceId, i))
            && (forall i: nat :: i < 4 ==> p[11 + i] == ByteOf(timestamp, i))
            && p[15] == logType && p[16] == |payload| % 256 && p[17] == |payload| / 256
            && p[18..18 + |payload|] == payload
            && p[18 + |payload|] == Checksum(p[..18 + |payload|]) % 256
            && p[19 + |payload|] == Checksum(p[..18 + |payload|]) / 256
  {
    var p, n := Packet(deviceId, timestamp, logType, payload), |payload|;
    var h := SenderHeader(deviceId, timestamp, logType, n);
    HeaderLayout(h);
    hide HeaderBytes;
    var body := Body(deviceId, timestamp, logType, payload);
    assert p[..18 + n] == body && p[..18] == HeaderBytes(h);
    TwoBytesLittleEndian(Checksum(body));
    hide LittleEndian, ByteOf, Checksum;
    assert forall i: nat :: i < 18 ==> p[i] == HeaderBytes(h)[i];
  }

  lemma HeaderLayout(h: Header)
    ensures var b := HeaderBytes(h);
            && b[0] == h.magic % 256 && b[1] == h.magic / 256 && b[2] == h.version
            && (forall i: nat :: i < 8 ==> b[3 + i] == ByteOf(h.deviceId, i))
            && (forall i: nat :: i < 4 ==> b[11 + i] == ByteOf(h.timestamp, i))
            && b[15] == h.logType && b[16] == h.length % 256 && b[17] == h.length / 256
  {
    TwoBytesLittleEndian(h.magic);
    TwoBytesLittleEndian(h.length);
    BytesOf(8, h.deviceId);
    BytesOf(4, h.timestamp);
    hide LittleEndian, ByteOf;
  }

  lemma BytesOf(n: nat, v: nat)
    ensures forall i: nat :: i < n ==> LittleEndian(n, v)[i] == ByteOf(v, i)
  {
    forall i: nat | i < n
      ensures LittleEndian(n, v)[i] == ByteOf(v, i)
    {
      LittleEndianAt(n, v, i);
    }
  }

  /** `recvfrom(1024)` cuts a datagram at 1024 bytes; no packet of a permitted size is cut. */
  function Received(datagram: seq<byte>): seq<byte> {
    if |datagram| > MAX_PACKET then datagram[..MAX_PACKET] else datagram
  }

  /* ---- beacons ---- */

  /** The device's test on one datagram read into its 32-byte buffer. */
  predicate IsBeacon(datagram: seq<byte>) {
    var buf := if |datagram| > 32 then datagram[..32] else datagram;
    |buf| >= 20 && (buf[0] as int) + 256 * (buf[1] as int) == MAGIC && buf[15] == BEACON_TYPE
  }

  /** The Python receiver's beacon. */
  method BuildBeaconPacket(seconds: nat) returns (packet: seq<byte>)
    ensures packet == Packet(0, seconds % 0x1_0000_0000, BEACON_TYPE, [])
  {
    var header := HeaderBytes(SenderHeader(0, seconds % 0x1_0000_0000, BEACON_TYPE, 0));
    var crc := PythonCrc(header);
    packet := header + LittleEndian(2, crc);
    assert header + [] == header;
  }

  /** A device takes a packet for a beacon exactly when its type says so, so no device is kept
      active by another device's logs, and every beacon the receiver builds is recognised. */
  lemma BeaconRecognised(deviceId: word64, timestamp: word32, logType: byte, payload: seq<byte>)
    requires |payload| < 0x1_0000
    ensures IsBeacon(Packet(deviceId, timestamp, logType, payload)) <==> logType == BEACON_TYPE
  {
    var p := Packet(deviceId, timestamp, logType, payload);
    TwoBytesLittleEndian(MAGIC);
    assert p[0] == 0x10 && p[1] == 0xE5 && p[15] == logType;
  }
}
