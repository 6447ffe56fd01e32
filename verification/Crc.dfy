/**
  The packet checksum (generator x^16 + x^12 + x^5 + 1, preset 0xFFFF, most significant
  bit first, no final exclusive or), as a 16-stage bit-serial register, with the
  byte-wise C and Python loops proved to compute it.
 */
module Crc {
  import opened Words

  /** x^12 + x^5 + 1, the generator without its leading term: 0x1021. */
  const FEEDBACK: seq<bool> :=
    [false, false, false, true, false, false, false, false, false, false, true, false, false, false, false, true]

  type Register = r: seq<bool> | |r| == 16 witness Zeros(16)

  /** One clock of the register with one message bit. */
  function Step(r: Register, bit: bool): Register {
    Plus(r[1..] + [false], if r[0] != bit then FEEDBACK else Zeros(16))
  }

  function Feed(r: Register, bits: seq<bool>): Register
    decreases |bits|
  {
    if bits == [] then r else Feed(Step(r, bits[0]), bits[1..])
  }

  function MessageBits(m: seq<byte>): (s: seq<bool>)
    ensures |s| == 8 * |m|
  {
    if m == [] then [] else MessageBits(m[..|m| - 1]) + Bits(8, m[|m| - 1])
  }

  function Checksum(m: seq<byte>): word16 {
    Widths();
    Value(Feed(Ones(16), MessageBits(m)))
  }

  lemma {:induction false} FeedConcat(r: Register, a: seq<bool>, b: seq<bool>)
    ensures Feed(r, a + b) == Feed(Feed(r, a), b)
    decreases |a|
  {
    if a == [] {
      assert a + b == b;
    } else {
      assert (a + b)[1..] == a[1..] + b;
      FeedConcat(Step(r, a[0]), a[1..], b);
    }
  }

  lemma FeedOne(r: Register, a: seq<bool>, bit: bool)
    ensures Feed(r, a + [bit]) == Step(Feed(r, a), bit)
  {
    FeedConcat(r, a, [bit]);
    assert Feed(Step(Feed(r, a), bit), []) == Step(Feed(r, a), bit);
  }

  /* ---- the C loop ---- */

  /** One turn of the inner loop on the uint16_t. */
  function Shift(crc: word16): word16 {
    var doubled := crc * 2 % 0x1_0000;
    if crc >= 0x8000 then
      Widths();
      XorBound(16, doubled, 0x1021);
      Xor(doubled, 0x1021)
    else doubled
  }

  function Digit(bit: bool): nat { if bit then 1 else 0 }

  lemma Horner(s: seq<bool>, k: nat)
    requires k < |s|
    ensures Value(s[..k + 1]) == 2 * Value(s[..k]) + Digit(s[k])
  {
    assert s[..k + 1][..k] == s[..k];
  }

  lemma HornerNibble(s: seq<bool>, k: nat, q: nat, v: nat)
    requires k + 4 <= |s| && Value(s[..k]) == q
    requires v == 16 * q + 8 * Digit(s[k]) + 4 * Digit(s[k + 1]) + 2 * Digit(s[k + 2]) + Digit(s[k + 3])
    ensures Value(s[..k + 4]) == v
  {
    Horner(s, k);
    Horner(s, k + 1);
    Horner(s, k + 2);
    Horner(s, k + 3);
  }

  lemma HornerByte(s: seq<bool>, k: nat, q: nat, u: nat, v: nat)
    requires k + 8 <= |s| && Value(s[..k]) == q
    requires u == 16 * q + 8 * Digit(s[k]) + 4 * Digit(s[k + 1]) + 2 * Digit(s[k + 2]) + Digit(s[k + 3])
    requires v == 16 * u + 8 * Digit(s[k + 4]) + 4 * Digit(s[k + 5]) + 2 * Digit(s[k + 6]) + Digit(s[k + 7])
    ensures Value(s[..k + 8]) == v
  {
    HornerNibble(s, k, q, u);
    HornerNibble(s, k + 4, u, v);
  }

  /** The word whose hexadecimal digits are built up as a, b, c, v. */
  lemma FourNibbles(s: seq<bool>, a: nat, b: nat, c: nat, v: nat)
    requires |s| == 16
    requires a == 8 * Digit(s[0]) + 4 * Digit(s[1]) + 2 * Digit(s[2]) + Digit(s[3])
    requires b == 16 * a + 8 * Digit(s[4]) + 4 * Digit(s[5]) + 2 * Digit(s[6]) + Digit(s[7])
    requires c == 16 * b + 8 * Digit(s[8]) + 4 * Digit(s[9]) + 2 * Digit(s[10]) + Digit(s[11])
    requires v == 16 * c + 8 * Digit(s[12]) + 4 * Digit(s[13]) + 2 * Digit(s[14]) + Digit(s[15])
    ensures Bits(16, v) == s
  {
    HornerByte(s, 0, 0, a, b);
    HornerByte(s, 8, b, c, v);
    Whole(s, 16, v);
  }

  lemma Whole(s: seq<bool>, n: nat, v: nat)
    requires |s| == n && Value(s[..n]) == v
    ensures Bits(n, v) == s
  {
    assert s[..n] == s;
    BitsOfValue(s);
  }

  lemma FeedbackBits()
    ensures Bits(16, 0x1021) == FEEDBACK
  {
    FourNibbles(FEEDBACK, 0x1, 0x10, 0x102, 0x1021);
  }

  lemma PresetBits()
    ensures Bits(16, 0xFFFF) == Ones(16)
  {
    FourNibbles(Ones(16), 0xF, 0xFF, 0xFFF, 0xFFFF);
  }

  /** The shift is the register clocked with whatever was exclusive-or'ed into its top bit. */
  lemma ShiftIsStep(crc: word16)
    ensures Bits(16, Shift(crc)) == Step(Bits(16, crc), false)
  {
    Widths();
    TopBit(15, crc);
    var low := if crc >= 0x8000 then crc - 0x8000 else crc;
    var doubled := crc * 2 % 0x1_0000;
    assert doubled == 2 * low;
    assert Bits(16, doubled) == Bits(15, low) + [false];
    assert Bits(16, crc)[1..] == Bits(15, low);
    if crc >= 0x8000 {
      XorIsPlus(16, doubled, 0x1021);
      FeedbackBits();
    } else {
      assert Plus(Bits(16, doubled), Zeros(16)) == Bits(16, doubled);
    }
  }

  /** The register after the byte loop has already exclusive-or'ed the byte's remaining
      bits into the top: what is left to be clocked in sits above the true register. */
  function Pending(r: Register, rest: seq<bool>): Register
    requires |rest| <= 16
  {
    Plus(r, rest + Zeros(16 - |rest|))
  }

  lemma PendingStep(r: Register, rest: seq<bool>)
    requires 0 < |rest| <= 8
    ensures Step(Pending(r, rest), false) == Pending(Step(r, rest[0]), rest[1..])
  {
    var x := Step(Pending(r, rest), false);
    var y := Pending(Step(r, rest[0]), rest[1..]);
    var fb := if r[0] != rest[0] then FEEDBACK else Zeros(16);
    forall i | 0 <= i < 16
      ensures x[i] == y[i]
    {
      var padded := rest + Zeros(16 - |rest|);
      var padded' := rest[1..] + Zeros(16 - (|rest| - 1));
      assert x[i] == (((Pending(r, rest)[1..] + [false])[i]) != fb[i]);
      assert Step(r, rest[0])[i] == ((r[1..] + [false])[i] != fb[i]);
      if i < 15 {
        assert padded'[i] == padded[i + 1];
      }
    }
  }

  /** `crc ^= data << 8` exclusive-ors the byte's bits into the top of the register. */
  lemma ByteIn(crc: word16, b: byte)
    ensures Xor(crc, b * 256) < 0x1_0000
    ensures Bits(16, Xor(crc, b * 256)) == Pending(Bits(16, crc), Bits(8, b))
  {
    Widths();
    XorBound(16, crc, b * 256);
    XorIsPlus(16, crc, b * 256);
    ShiftLeft(8, 8, b);
  }

  /** Part way through a message: the whole bytes m and the first j bits of b are clocked
      in, and the rest of b is exclusive-or'ed into the top of the register. */
  ghost predicate Midway(crc: nat, m: seq<byte>, b: byte, j: nat) {
    j <= 8 && Bits(16, crc) == Pending(Feed(Feed(Ones(16), MessageBits(m)), Bits(8, b)[..j]), Bits(8, b)[j..])
  }

  ghost predicate AtByte(crc: nat, m: seq<byte>) {
    crc < 0x1_0000 && Bits(16, crc) == Feed(Ones(16), MessageBits(m))
  }

  lemma EnterByte(crc: word16, m: seq<byte>, b: byte)
    requires AtByte(crc, m)
    ensures Xor(crc, b * 256) < 0x1_0000 && Midway(Xor(crc, b * 256), m, b, 0)
  {
    ByteIn(crc, b);
    assert Bits(8, b)[..0] == [] && Bits(8, b)[0..] == Bits(8, b);
  }

  lemma PendingAdvance(r: Register, bits: seq<bool>, j: nat)
    requires |bits| == 8 && j < 8
    ensures Step(Pending(Feed(r, bits[..j]), bits[j..]), false) == Pending(Feed(r, bits[..j + 1]), bits[j + 1..])
  {
    hide Feed, Step, Pending;
    var r' := Feed(r, bits[..j]);
    PendingStep(r', bits[j..]);
    FeedOne(r, bits[..j], bits[j]);
    assert bits[j..][0] == bits[j] && bits[j..][1..] == bits[j + 1..] && bits[..j + 1] == bits[..j] + [bits[j]];
  }

  lemma ShiftOneBit(crc: word16, m: seq<byte>, b: byte, j: nat)
    requires j < 8 && Midway(crc, m, b, j)
    ensures Midway(Shift(crc), m, b, j + 1)
  {
    ShiftIsStep(crc);
    PendingAdvance(Feed(Ones(16), MessageBits(m)), Bits(8, b), j);
  }

  lemma PendingNothing(r: Register, bits: seq<bool>)
    requires |bits| == 8
    ensures Pending(Feed(r, bits[..8]), bits[8..]) == Feed(r, bits)
  {
    assert bits[..8] == bits && bits[8..] == [];
  }

  lemma AppendByte(m: seq<byte>, b: byte)
    ensures MessageBits(m + [b]) == MessageBits(m) + Bits(8, b)
  {
    assert (m + [b])[..|m|] == m;
  }

  lemma LeaveByte(crc: word16, m: seq<byte>, b: byte)
    requires Midway(crc, m, b, 8)
    ensures AtByte(crc, m + [b])
  {
    PendingNothing(Feed(Ones(16), MessageBits(m)), Bits(8, b));
    FeedConcat(Ones(16), MessageBits(m), Bits(8, b));
    AppendByte(m, b);
  }

  lemma ChecksumFromBits(crc: nat, m: seq<byte>)
    requires AtByte(crc, m)
    ensures crc == Checksum(m)
  {
    Widths();
    ValueOfBits(16, crc);
  }

  lemma AtStart()
    ensures AtByte(0xFFFF, [])
  {
    PresetBits();
  }

  /** The C loop: uint16_t register, eight shifts a byte. */
  method Crc16Ccitt(data: array<byte>, length: nat) returns (crc: word16)
    requires length <= data.Length
    ensures crc == Checksum(data[..length])
  {
    hide AtByte, Midway, Checksum;
    crc := 0xFFFF;
    AtStart();
    for i := 0 to length
      invariant AtByte(crc, data[..i])
    {
      var b: int := data[i];
      EnterByte(crc, data[..i], b);
      crc := Xor(crc, b * 256);
      for j := 0 to 8
        invariant Midway(crc, data[..i], b, j)
      {
        ShiftOneBit(crc, data[..i], b, j);
        crc := Shift(crc);
      }
      LeaveByte(crc, data[..i], b);
      assert data[..i + 1] == data[..i] + [b];
    }
    ChecksumFromBits(crc, data[..length]);
  }

  /** The Python loop in the beacon builder: an unbounded integer, masked after every shift. */
  function MaskedShift(crc: nat): nat {
    (if crc / 0x8000 % 2 == 1 then Xor(crc * 2, 0x1021) else crc * 2) % 0x1_0000
  }

  lemma CarryOut(x: nat, low: nat, g: nat)
    requires x == 0x1_0000 + low && low < 0x1_0000 && g < 0x1_0000
    ensures Xor(x, g) % 0x1_0000 == Xor(low, g) && x % 0x1_0000 == low
  {
    Widths();
    XorHighBit(16, low, g);
    XorBound(16, low, g);
  }

  lemma Doubled(crc: word16)
    requires crc >= 0x8000
    ensures crc / 0x8000 % 2 == 1 && crc * 2 % 0x1_0000 == crc * 2 - 0x1_0000
  {
  }

  lemma MaskedShiftIsShift(crc: word16)
    ensures MaskedShift(crc) == Shift(crc)
  {
    if crc >= 0x8000 {
      Doubled(crc);
      CarryOut(crc * 2, crc * 2 - 0x1_0000, 0x1021);
      hide Xor;
    } else {
      hide Xor;
      assert crc / 0x8000 == 0 && crc * 2 % 0x1_0000 == crc * 2;
    }
  }

  method PythonCrc(data: seq<byte>) returns (crc: nat)
    ensures crc == Checksum(data)
  {
    hide AtByte, Midway, Checksum;
    crc := 0xFFFF;
    AtStart();
    for i := 0 to |data|
      invariant crc < 0x1_0000 && AtByte(crc, data[..i])
    {
      var b: int := data[i];
      EnterByte(crc, data[..i], b);
      crc := Xor(crc, b * 256);
      for j := 0 to 8
        invariant crc < 0x1_0000 && Midway(crc, data[..i], b, j)
      {
        ShiftOneBit(crc, data[..i], b, j);
        MaskedShiftIsShift(crc);
        crc := MaskedShift(crc);
      }
      LeaveByte(crc, data[..i], b);
      assert data[..i + 1] == data[..i] + [b];
    }
    assert data[..|data|] == data;
    ChecksumFromBits(crc, data);
  }
}
