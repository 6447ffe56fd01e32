/**
  Machine words as integers. The C code works on fixed-width unsigned words; here a
  word is an integer with its range written out, `Xor` is the bitwise operator, and
  `Bits` is the word's bit string, most significant bit first.
 */
module Words {
  type byte = x: int | 0 <= x < 0x100
  type word16 = x: int | 0 <= x < 0x1_0000
  type word32 = x: int | 0 <= x < 0x1_0000_0000
  type word64 = x: int | 0 <= x < 0x1_0000_0000_0000_0000

  /** A uint32_t counter's increment, wrapping. */
  function Inc32(n: word32): word32 { (n + 1) % 0x1_0000_0000 }

  function Pow2(w: nat): (p: nat)
    ensures p >= 1
  {
    if w == 0 then 1 else 2 * Pow2(w - 1)
  }

  function Bits(w: nat, v: nat): (s: seq<bool>)
    ensures |s| == w
  {
    if w == 0 then [] else Bits(w - 1, v / 2) + [v % 2 == 1]
  }

  function Value(s: seq<bool>): (v: nat)
    ensures v < Pow2(|s|)
  {
    if s == [] then 0 else 2 * Value(s[..|s| - 1]) + (if s[|s| - 1] then 1 else 0)
  }

  lemma {:induction false} BitsOfValue(s: seq<bool>)
    ensures Bits(|s|, Value(s)) == s
  {
    if s != [] {
      BitsOfValue(s[..|s| - 1]);
    }
  }

  lemma {:induction false} ValueOfBits(w: nat, v: nat)
    requires v < Pow2(w)
    ensures Value(Bits(w, v)) == v
  {
    if w > 0 {
      ValueOfBits(w - 1, v / 2);
      assert Bits(w, v)[..w - 1] == Bits(w - 1, v / 2);
    }
  }

  function Zeros(n: nat): (s: seq<bool>)
    ensures |s| == n && forall i :: 0 <= i < n ==> !s[i]
  {
    seq(n, _ => false)
  }

  function Ones(n: nat): (s: seq<bool>)
    ensures |s| == n && forall i :: 0 <= i < n ==> s[i]
  {
    seq(n, _ => true)
  }

  /** Sum of two polynomials over GF(2), i.e. exclusive or of two bit strings. */
  function Plus(a: seq<bool>, b: seq<bool>): (s: seq<bool>)
    requires |a| == |b|
    ensures |s| == |a| && forall i :: 0 <= i < |a| ==> s[i] == (a[i] != b[i])
  {
    seq(|a|, i requires 0 <= i < |a| => a[i] != b[i])
  }

  function Xor(a: nat, b: nat): nat
    decreases a + b
  {
    if a == 0 && b == 0 then 0
    else 2 * Xor(a / 2, b / 2) + (a % 2 + b % 2) % 2
  }

  lemma {:induction false} XorBound(w: nat, a: nat, b: nat)
    requires a < Pow2(w) && b < Pow2(w)
    ensures Xor(a, b) < Pow2(w)
  {
    if w > 0 {
      XorBound(w - 1, a / 2, b / 2);
    }
  }

  lemma {:induction false} XorIsPlus(w: nat, a: nat, b: nat)
    ensures Bits(w, Xor(a, b)) == Plus(Bits(w, a), Bits(w, b))
  {
    if w > 0 {
      XorIsPlus(w - 1, a / 2, b / 2);
      assert Xor(a, b) / 2 == Xor(a / 2, b / 2);
      assert Xor(a, b) % 2 == (a % 2 + b % 2) % 2;
    }
  }

  /** A bit above both operands' width passes through Xor untouched. */
  lemma {:induction false} XorHighBit(w: nat, a: nat, b: nat)
    requires a < Pow2(w) && b < Pow2(w)
    ensures Xor(Pow2(w) + a, b) == Pow2(w) + Xor(a, b)
  {
    if w > 0 {
      XorHighBit(w - 1, a / 2, b / 2);
      assert (Pow2(w) + a) / 2 == Pow2(w - 1) + a / 2;
    } else {
      assert Xor(1, 0) == 2 * Xor(0, 0) + 1;
    }
  }

  lemma {:induction false} TopBit(w: nat, v: nat)
    requires v < 2 * Pow2(w)
    ensures Bits(w + 1, v) == [v >= Pow2(w)] + Bits(w, if v >= Pow2(w) then v - Pow2(w) else v)
  {
    var low := if v >= Pow2(w) then v - Pow2(w) else v;
    if w > 0 {
      TopBit(w - 1, v / 2);
      var lowHalf := if v / 2 >= Pow2(w - 1) then v / 2 - Pow2(w - 1) else v / 2;
      assert low / 2 == lowHalf && low % 2 == v % 2;
    } else {
      assert Bits(0, v / 2) == [] && Bits(0, low) == [];
    }
  }

  /** Shifting left appends a zero at the low end. */
  lemma ShiftLeft(w: nat, k: nat, v: nat)
    ensures Bits(w + k, v * Pow2(k)) == Bits(w, v) + Zeros(k)
  {
    if k > 0 {
      assert v * Pow2(k) == 2 * (v * Pow2(k - 1));
      ShiftLeft(w, k - 1, v);
      assert Bits(w + k, v * Pow2(k)) == Bits(w + k - 1, v * Pow2(k - 1)) + [false];
      assert Zeros(k) == Zeros(k - 1) + [false];
    }
  }

  /** The n low bytes of v, least significant first: the loop
      `packet[pos++] = v & 0xFF; v >>= 8` run n times. */
  function LittleEndian(n: nat, v: nat): (s: seq<byte>)
    ensures |s| == n
  {
    if n == 0 then [] else [v % 256] + LittleEndian(n - 1, v / 256)
  }

  function FromLittleEndian(s: seq<byte>): nat
  {
    if s == [] then 0 else s[0] + 256 * FromLittleEndian(s[1..])
  }

  lemma {:induction false} LittleEndianRoundTrip(n: nat, v: nat)
    requires v < Pow2(8 * n)
    ensures FromLittleEndian(LittleEndian(n, v)) == v
  {
    if n > 0 {
      Pow2Byte(n);
      LittleEndianRoundTrip(n - 1, v / 256);
      assert LittleEndian(n, v)[1..] == LittleEndian(n - 1, v / 256);
    }
  }

  lemma {:induction false} LittleEndianOnto(s: seq<byte>)
    ensures FromLittleEndian(s) < Pow2(8 * |s|)
    ensures LittleEndian(|s|, FromLittleEndian(s)) == s
  {
    if s != [] {
      LittleEndianOnto(s[1..]);
      Pow2Byte(|s|);
    }
  }

  lemma Pow2Byte(n: nat)
    requires n > 0
    ensures Pow2(8 * n) == 256 * Pow2(8 * (n - 1))
  {
    PowerOfEight(8 * (n - 1));
  }

  lemma PowerOfEight(k: nat)
    ensures Pow2(k + 8) == 256 * Pow2(k)
  {
    assert Pow2(k + 1) == 2 * Pow2(k);
    assert Pow2(k + 2) == 2 * Pow2(k + 1);
    assert Pow2(k + 3) == 2 * Pow2(k + 2);
    assert Pow2(k + 4) == 2 * Pow2(k + 3);
    assert Pow2(k + 5) == 2 * Pow2(k + 4);
    assert Pow2(k + 6) == 2 * Pow2(k + 5);
    assert Pow2(k + 7) == 2 * Pow2(k + 6);
    assert Pow2(k + 8) == 2 * Pow2(k + 7);
  }

  /** The widths the program uses. */
  lemma Widths()
    ensures Pow2(8) == 0x100 && Pow2(15) == 0x8000 && Pow2(16) == 0x1_0000
  {
    Pow2Byte(1); Pow2Byte(2);
    assert Pow2(16) == 2 * Pow2(15);
  }

  lemma WideWidths()
    ensures Pow2(32) == 0x1_0000_0000 && Pow2(64) == 0x1_0000_0000_0000_0000
  {
    Widths();
    Pow2Byte(3); Pow2Byte(4);
    Pow2Byte(5); Pow2Byte(6); Pow2Byte(7); Pow2Byte(8);
  }

  /* ---- words read from memory ---- */

  function Word16(s: seq<byte>): (v: word16)
    requires |s| == 2
    ensures LittleEndian(2, v) == s
  {
    LittleEndianOnto(s);
    Widths();
    FromLittleEndian(s)
  }

  function Word32(s: seq<byte>): (v: word32)
    requires |s| == 4
    ensures LittleEndian(4, v) == s
  {
    LittleEndianOnto(s);
    WideWidths();
    FromLittleEndian(s)
  }

  function Word64(s: seq<byte>): (v: word64)
    requires |s| == 8
    ensures LittleEndian(8, v) == s
  {
    LittleEndianOnto(s);
    WideWidths();
    FromLittleEndian(s)
  }

  lemma WordsBack(h: word16, w: word32, d: word64)
    ensures Word16(LittleEndian(2, h)) == h && Word32(LittleEndian(4, w)) == w && Word64(LittleEndian(8, d)) == d
  {
    Widths();
    WideWidths();
    LittleEndianRoundTrip(2, h);
    LittleEndianRoundTrip(4, w);
    LittleEndianRoundTrip(8, d);
    hide LittleEndian, FromLittleEndian, Pow2;
  }
}
