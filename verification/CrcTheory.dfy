/**
  What the checksum means and what it detects: it is the remainder of polynomial division
  over GF(2); it is affine in the message; it misses exactly the changes that the generator
  divides, and none within sixteen consecutive bits or of an odd number of bits; and how it
  interacts with the order in which the senders append its two bytes.
 */
module CrcTheory {
  import opened Words
  import opened Crc

  /* ---- the checksum is a remainder ---- */

  /** Product of polynomials over GF(2), coefficients most significant first. */
  function Times(q: seq<bool>, g: seq<bool>): (p: seq<bool>)
    requires |g| > 0
    ensures |p| == |q| + |g| - 1
  {
    if q == [] then Zeros(|g| - 1)
    else
      var n := |q| - 1;
      Plus(Times(q[..n], g) + [false], Zeros(n) + (if q[n] then g else Zeros(|g|)))
  }

  /** x^16 + x^12 + x^5 + 1. */
  const GENERATOR: seq<bool> := [true] + FEEDBACK

  /** The message times x^16, with 0xFFFF added into its first sixteen coefficients. */
  function Dividend(message: seq<bool>): seq<bool> {
    Plus(message + Zeros(16), Ones(16) + Zeros(|message|))
  }

  /** q and r are quotient and remainder of p by the generator. */
  ghost predicate Divides(p: seq<bool>, q: seq<bool>, r: Register) {
    |p| == |q| + 16 && p == Plus(Times(q, GENERATOR), Zeros(|q|) + r)
  }

  /** The powers of x that the generator has: 16, 12, 5 and 0. */
  lemma GeneratorTerms(e: nat)
    requires e <= 16
    ensures GENERATOR[16 - e] <==> e in [0, 5, 12, 16]
  {
    assert e == 0 || e == 1 || e == 2 || e == 3 || e == 4 || e == 5 || e == 6 || e == 7 || e == 8 || e == 9
           || e == 10 || e == 11 || e == 12 || e == 13 || e == 14 || e == 15 || e == 16;
  }

  /** The order of the bits: byte by byte, from the highest bit of each. */
  lemma {:induction false} MessageBitAt(m: seq<byte>, i: nat, j: nat)
    requires i < |m| && j < 8
    ensures MessageBits(m)[8 * i + j] <==> m[i] / Pow2(7 - j) % 2 == 1
  {
    var n := |m| - 1;
    if i < n {
      MessageBitAt(m[..n], i, j);
    } else {
      BitAt(8, m[n], j);
    }
  }

  lemma {:induction false} BitAt(w: nat, v: nat, j: nat)
    requires j < w
    ensures Bits(w, v)[j] <==> v / Pow2(w - 1 - j) % 2 == 1
  {
    if j < w - 1 {
      BitAt(w - 1, v / 2, j);
      HalfThenRest(v, Pow2(w - 2 - j));
    }
  }

  lemma HalfThenRest(v: nat, p: nat)
    requires p > 0
    ensures v / 2 / p == v / (2 * p)
  {
    var q, r := v / 2 / p, v / 2 % p;
    assert v / 2 == q * p + r;
    assert v == 2 * (q * p + r) + v % 2;
    assert v == (2 * p) * q + (2 * r + v % 2);
    QuotientIs(v, 2 * p, q, 2 * r + v % 2);
  }

  lemma QuotientIs(v: nat, d: nat, q: nat, r: nat)
    requires d > 0 && r < d && v == d * q + r
    ensures v / d == q
  {
    var other := v / d;
    assert v == d * other + v % d;
    if other < q {
      MultiplesApart(d, other, q);
    } else if q < other {
      MultiplesApart(d, q, other);
    }
  }

  lemma {:induction false} MultiplesApart(d: nat, a: nat, b: nat)
    requires a < b
    ensures d * a + d <= d * b
    decreases b
  {
    if a + 1 < b {
      MultiplesApart(d, a, b - 1);
    }
    assert d * b == d * (b - 1) + d;
  }

  /** The preset. */
  lemma ChecksumOfNothing()
    ensures Checksum([]) == 0xFFFF
  {
    AtStart();
    ChecksumFromBits(0xFFFF, []);
  }

  lemma DividendAppend(bits: seq<bool>, bit: bool)
    ensures Dividend(bits + [bit]) == Plus(Dividend(bits) + [false], Zeros(|bits|) + [bit] + Zeros(16))
  {
  }

  lemma DivideOne(p: seq<bool>, q: seq<bool>, r: Register, bit: bool)
    requires Divides(p, q, r)
    ensures Divides(Plus(p + [false], Zeros(|q|) + [bit] + Zeros(16)), q + [r[0] != bit], Step(r, bit))
  {
    var n, t := |q|, r[0] != bit;
    var q' := q + [t];
    assert q'[..n] == q;
    var shifted := Times(q, GENERATOR) + [false];
    var addend := Zeros(n) + (if t then GENERATOR else Zeros(17));
    assert Times(q', GENERATOR) == Plus(shifted, addend);
    var p' := Plus(p + [false], Zeros(n) + [bit] + Zeros(16));
    var s := Plus(Times(q', GENERATOR), Zeros(n + 1) + Step(r, bit));
    forall i | 0 <= i < n + 17
      ensures p'[i] == s[i]
    {
      if i > n {
        var k := i - n - 1;
        assert (Zeros(n + 1) + Step(r, bit))[i] == Step(r, bit)[k];
        assert addend[i] == (t && FEEDBACK[k]);
        if k < 15 {
          assert (Zeros(n) + r)[i] == r[k + 1];
        }
      }
    }
  }

  lemma NothingDivided()
    ensures Divides(Dividend([]), [], Ones(16))
  {
    assert Dividend([]) == Ones(16);
  }

  lemma {:induction false} FeedDivides(bits: seq<bool>) returns (q: seq<bool>)
    ensures |q| == |bits| && Divides(Dividend(bits), q, Feed(Ones(16), bits))
  {
    hide Divides, Dividend, Step;
    if bits == [] {
      q := [];
      NothingDivided();
    } else {
      hide Feed;
      var n := |bits| - 1;
      var q0 := FeedDivides(bits[..n]);
      var r := Feed(Ones(16), bits[..n]);
      q := q0 + [r[0] != bits[n]];
      DivideOne(Dividend(bits[..n]), q0, r, bits[n]);
      DividendAppend(bits[..n], bits[n]);
      FeedOne(Ones(16), bits[..n], bits[n]);
      assert bits == bits[..n] + [bits[n]];
    }
  }

  /** The leading coefficient of q survives in the product. */
  lemma {:induction false} LeadingTerm(q: seq<bool>, k: nat)
    requires k < |q| && q[k] && forall i :: 0 <= i < k ==> !q[i]
    ensures Times(q, GENERATOR)[k]
  {
    var n := |q| - 1;
    if k < n {
      LeadingTerm(q[..n], k);
    } else {
      TimesZero(q[..n]);
    }
  }

  lemma {:induction false} TimesZero(q: seq<bool>)
    requires forall i :: 0 <= i < |q| ==> !q[i]
    ensures Times(q, GENERATOR) == Zeros(|q| + 16)
  {
    if q != [] {
      TimesZero(q[..|q| - 1]);
    }
  }

  lemma {:induction false} TimesDistributes(a: seq<bool>, b: seq<bool>)
    requires |a| == |b|
    ensures Times(Plus(a, b), GENERATOR) == Plus(Times(a, GENERATOR), Times(b, GENERATOR))
  {
    if a != [] {
      var n := |a| - 1;
      TimesDistributes(a[..n], b[..n]);
      assert Plus(a, b)[..n] == Plus(a[..n], b[..n]);
      SumsRearranged(Times(a[..n], GENERATOR), Times(b[..n], GENERATOR),
                     Zeros(n) + (if a[n] then GENERATOR else Zeros(17)), Zeros(n) + (if b[n] then GENERATOR else Zeros(17)),
                     Zeros(n) + (if a[n] != b[n] then GENERATOR else Zeros(17)));
    }
  }

  lemma SumsRearranged(s: seq<bool>, t: seq<bool>, u: seq<bool>, v: seq<bool>, w: seq<bool>)
    requires |s| == |t| && |u| == |v| == |w| == |s| + 1 && w == Plus(u, v)
    ensures Plus(Plus(s, t) + [false], w) == Plus(Plus(s + [false], u), Plus(t + [false], v))
  {
  }

  lemma {:induction false} FirstSet(q: seq<bool>) returns (k: nat)
    requires exists i :: 0 <= i < |q| && q[i]
    ensures k < |q| && q[k] && forall i :: 0 <= i < k ==> !q[i]
  {
    k := 0;
    while !q[k]
      invariant k < |q| && forall i :: 0 <= i < k ==> !q[i]
      decreases |q| - k
    {
      k := k + 1;
    }
  }

  /** Division by the generator has one quotient and one remainder. */
  lemma RemainderUnique(p: seq<bool>, q1: seq<bool>, r1: Register, q2: seq<bool>, r2: Register)
    requires Divides(p, q1, r1) && Divides(p, q2, r2)
    ensures q1 == q2 && r1 == r2
  {
    var n, d := |q1|, Plus(q1, q2);
    TimesDistributes(q1, q2);
    var t1, t2 := Times(q1, GENERATOR), Times(q2, GENERATOR);
    forall i | 0 <= i < n
      ensures !Times(d, GENERATOR)[i]
    {
      assert p[i] == (t1[i] != (Zeros(n) + r1)[i]);
      assert p[i] == (t2[i] != (Zeros(n) + r2)[i]);
    }
    if exists i :: 0 <= i < n && d[i] {
      var k := FirstSet(d);
      LeadingTerm(d, k);
      assert false;
    }
    assert forall i :: 0 <= i < n ==> q1[i] == q2[i] by {
      forall i | 0 <= i < n ensures q1[i] == q2[i] { assert !d[i]; }
    }
    assert q1 == q2;
    forall i | 0 <= i < 16
      ensures r1[i] == r2[i]
    {
      assert p[n + i] == (t1[n + i] != (Zeros(n) + r1)[n + i]);
      assert p[n + i] == (t1[n + i] != (Zeros(n) + r2)[n + i]);
    }
  }

  lemma ChecksumBits(m: seq<byte>)
    ensures Bits(16, Checksum(m)) == Feed(Ones(16), MessageBits(m))
  {
    BitsOfValue(Feed(Ones(16), MessageBits(m)));
  }

  /** A word is the checksum of a message exactly when its bits are the remainder of the
      preset message by the generator. */
  lemma ChecksumIsRemainder(m: seq<byte>, c: word16)
    ensures c == Checksum(m) <==> exists q :: Divides(Dividend(MessageBits(m)), q, Bits(16, c))
  {
    var bits := MessageBits(m);
    var q0 := FeedDivides(bits);
    ChecksumBits(m);
    if q :| Divides(Dividend(bits), q, Bits(16, c)) {
      RemainderUnique(Dividend(bits), q, Bits(16, c), q0, Feed(Ones(16), bits));
      Widths();
      ValueOfBits(16, c);
      ValueOfBits(16, Checksum(m));
    }
  }

  lemma SumDivides(p1: seq<bool>, q1: seq<bool>, r1: Register, p2: seq<bool>, q2: seq<bool>, r2: Register)
    requires Divides(p1, q1, r1) && Divides(p2, q2, r2) && |q1| == |q2|
    ensures Divides(Plus(p1, p2), Plus(q1, q2), Plus(r1, r2))
  {
    TimesDistributes(q1, q2);
    hide Times;
    var n, sum := |q1|, Plus(Times(Plus(q1, q2), GENERATOR), Zeros(|q1|) + Plus(r1, r2));
    forall i | 0 <= i < n + 16
      ensures Plus(p1, p2)[i] == sum[i]
    {
      assert (Zeros(n) + Plus(r1, r2))[i] == ((Zeros(n) + r1)[i] != (Zeros(n) + r2)[i]);
    }
    assert Plus(p1, p2) == sum;
  }

  lemma DividendsDiffer(a: seq<bool>, b: seq<bool>)
    requires |a| == |b|
    ensures Plus(Dividend(a), Dividend(b)) == Plus(a, b) + Zeros(16)
    ensures Plus(Dividend(a), Plus(a, b) + Zeros(16)) == Dividend(b)
  {
  }

  lemma QuotientLength(p: seq<bool>, q: seq<bool>, r: Register)
    requires Divides(p, q, r)
    ensures |p| == |q| + 16
  {
  }

  lemma SameRegisterIff(a: seq<bool>, b: seq<bool>)
    requires |a| == |b|
    ensures Feed(Ones(16), a) == Feed(Ones(16), b) <==> exists q :: Divides(Plus(a, b) + Zeros(16), q, Zeros(16))
  {
    var qa := FeedDivides(a);
    var qb := FeedDivides(b);
    DividendsDiffer(a, b);
    var ra, rb := Feed(Ones(16), a), Feed(Ones(16), b);
    hide Divides, Dividend, Feed;
    if ra == rb {
      SumDivides(Dividend(a), qa, ra, Dividend(b), qb, rb);
      assert Plus(ra, rb) == Zeros(16);
    }
    if q :| Divides(Plus(a, b) + Zeros(16), q, Zeros(16)) {
      QuotientLength(Plus(a, b) + Zeros(16), q, Zeros(16));
      SumDivides(Dividend(a), qa, ra, Plus(a, b) + Zeros(16), q, Zeros(16));
      assert Plus(ra, Zeros(16)) == ra;
      RemainderUnique(Dividend(b), Plus(qa, q), ra, qb, rb);
    }
  }

  /* ---- what it detects ---- */

  lemma StepAffine(r1: Register, b1: bool, r2: Register, b2: bool)
    ensures Plus(Step(r1, b1), Step(r2, b2)) == Step(Plus(r1, r2), b1 != b2)
  {
  }

  lemma {:induction false} FeedAffine(r1: Register, a1: seq<bool>, r2: Register, a2: seq<bool>)
    requires |a1| == |a2|
    ensures Plus(Feed(r1, a1), Feed(r2, a2)) == Feed(Plus(r1, r2), Plus(a1, a2))
    decreases |a1|
  {
    if a1 != [] {
      StepAffine(r1, a1[0], r2, a2[0]);
      FeedAffine(Step(r1, a1[0]), a1[1..], Step(r2, a2[0]), a2[1..]);
      assert Plus(a1, a2)[1..] == Plus(a1[1..], a2[1..]);
    } else {
      assert Plus(a1, a2) == [];
    }
  }

  lemma StepInjective(r1: Register, r2: Register, bit: bool)
    requires Step(r1, bit) == Step(r2, bit)
    ensures r1 == r2
  {
    var s := Step(r1, bit);
    assert s[15] == (r1[0] != bit) && s[15] == (r2[0] != bit);
    forall i | 0 <= i < 16
      ensures r1[i] == r2[i]
    {
      if i > 0 {
        assert s[i - 1] == Step(r1, bit)[i - 1] == Step(r2, bit)[i - 1];
        assert (r1[1..] + [false])[i - 1] == r1[i] && (r2[1..] + [false])[i - 1] == r2[i];
      }
    }
  }

  lemma {:induction false} FeedInjective(r1: Register, r2: Register, bits: seq<bool>)
    requires Feed(r1, bits) == Feed(r2, bits)
    ensures r1 == r2
    decreases |bits|
  {
    if bits != [] {
      FeedInjective(Step(r1, bits[0]), Step(r2, bits[0]), bits[1..]);
      StepInjective(r1, r2, bits[0]);
    }
  }

  /** If k more clocks bring the register to zero, its low 16 - k stages are already zero. */
  lemma {:induction false} DrainsToZero(d: Register, e: seq<bool>)
    requires |e| <= 16 && Feed(d, e) == Zeros(16)
    ensures forall i :: |e| <= i < 16 ==> !d[i]
    decreases |e|
  {
    if e == [] {
      assert d == Zeros(16);
    } else {
      var s := Step(d, e[0]);
      DrainsToZero(s, e[1..]);
      assert s[15] == (d[0] != e[0]);
      forall i | |e| <= i < 16
        ensures !d[i]
      {
        assert s[i - 1] == ((d[1..] + [false])[i - 1]);
      }
    }
  }

  /** Up to sixteen difference bits cannot cancel out of a zero register. */
  lemma {:induction false} ShortBurstSurvives(e: seq<bool>)
    requires |e| <= 16 && Feed(Zeros(16), e) == Zeros(16)
    ensures e == Zeros(|e|)
    decreases |e|
  {
    if e != [] {
      var s := Step(Zeros(16), e[0]);
      assert s[15] == e[0];
      DrainsToZero(s, e[1..]);
      assert s == Zeros(16) by {
        assert !s[15];
        assert (Zeros(16)[1..] + [false]) == Zeros(16);
      }
      ShortBurstSurvives(e[1..]);
    }
  }

  lemma {:induction false} MessageBitsInjective(m1: seq<byte>, m2: seq<byte>)
    requires |m1| == |m2| && MessageBits(m1) == MessageBits(m2)
    ensures m1 == m2
  {
    if m1 != [] {
      var n := |m1| - 1;
      var a1, a2, b1, b2 := MessageBits(m1[..n]), MessageBits(m2[..n]), Bits(8, m1[n]), Bits(8, m2[n]);
      assert a1 == (a1 + b1)[..8 * n] == (a2 + b2)[..8 * n] == a2;
      assert b1 == (a1 + b1)[8 * n..] == (a2 + b2)[8 * n..] == b2;
      MessageBitsInjective(m1[..n], m2[..n]);
      Widths();
      ValueOfBits(8, m1[n]);
      ValueOfBits(8, m2[n]);
      assert m1 == m1[..n] + [m1[n]] && m2 == m2[..n] + [m2[n]];
    }
  }

  lemma SameEnd(r: Register, u: seq<bool>, v: seq<bool>)
    requires |u| == |v| <= 16 && Feed(r, u) == Feed(r, v)
    ensures u == v
  {
    FeedAffine(r, u, r, v);
    hide Feed;
    assert Plus(r, r) == Zeros(16) && Plus(Feed(r, u), Feed(r, u)) == Zeros(16);
    ShortBurstSurvives(Plus(u, v));
    SumZero(u, v);
  }

  lemma MiddleDetermined(r: Register, pre: seq<bool>, u: seq<bool>, v: seq<bool>, post: seq<bool>)
    requires |u| == |v| <= 16
    requires Feed(r, pre + (u + post)) == Feed(r, pre + (v + post))
    ensures u == v
  {
    hide Feed;
    var r0 := Feed(r, pre);
    FeedConcat(r, pre, u + post);
    FeedConcat(r, pre, v + post);
    FeedConcat(r0, u, post);
    FeedConcat(r0, v, post);
    FeedInjective(Feed(r0, u), Feed(r0, v), post);
    SameEnd(r0, u, v);
  }

  lemma SumZero(u: seq<bool>, v: seq<bool>)
    requires |u| == |v| && Plus(u, v) == Zeros(|u|)
    ensures u == v
  {
    forall k | 0 <= k < |u|
      ensures u[k] == v[k]
    {
      assert !Plus(u, v)[k];
    }
  }

  lemma Split3(a: seq<bool>, i: nat, j: nat)
    requires i <= j <= |a|
    ensures a == a[..i] + (a[i..j] + a[j..])
  {
  }

  /** Two bit strings that agree outside sixteen consecutive places drive the register to the
      same value only if they are the same. */
  lemma BitBurst(r: Register, a: seq<bool>, b: seq<bool>, start: nat)
    requires |a| == |b| && Feed(r, a) == Feed(r, b)
    requires forall j :: 0 <= j < |a| && !(start <= j < start + 16) ==> a[j] == b[j]
    ensures a == b
  {
    if start < |a| {
      var stop := if start + 16 <= |a| then start + 16 else |a|;
      Split3(a, start, stop);
      Split3(b, start, stop);
      assert a[..start] == b[..start] && a[stop..] == b[stop..];
      MiddleDetermined(r, a[..start], a[start..stop], b[start..stop], a[stop..]);
    }
  }

  /** Any burst of at most sixteen bits, at any bit offset, changes the checksum. */
  lemma BurstDetected(m1: seq<byte>, m2: seq<byte>, start: nat)
    requires |m1| == |m2| && m1 != m2
    requires forall j :: 0 <= j < 8 * |m1| && !(start <= j < start + 16) ==> MessageBits(m1)[j] == MessageBits(m2)[j]
    ensures Checksum(m1) != Checksum(m2)
  {
    if Checksum(m1) == Checksum(m2) {
      ChecksumBits(m1);
      ChecksumBits(m2);
      BitBurst(Ones(16), MessageBits(m1), MessageBits(m2), start);
      MessageBitsInjective(m1, m2);
    }
  }

  /** Exactly which changes go unnoticed: those whose difference, as a polynomial, the generator
      divides. */
  lemma MissedIff(m1: seq<byte>, m2: seq<byte>)
    requires |m1| == |m2|
    ensures Checksum(m1) == Checksum(m2) <==>
            exists q :: Divides(Plus(MessageBits(m1), MessageBits(m2)) + Zeros(16), q, Zeros(16))
  {
    SameRegisterIff(MessageBits(m1), MessageBits(m2));
    ChecksumBits(m1);
    ChecksumBits(m2);
    hide Divides, Feed, MessageBits;
  }

  /** Whether a bit string holds an odd number of ones. */
  function Parity(s: seq<bool>): bool {
    if s == [] then false else s[0] != Parity(s[1..])
  }

  lemma {:induction false} ParityConcat(a: seq<bool>, b: seq<bool>)
    ensures Parity(a + b) == (Parity(a) != Parity(b))
  {
    if a == [] {
      assert a + b == b;
    } else {
      assert (a + b)[1..] == a[1..] + b;
      ParityConcat(a[1..], b);
    }
  }

  lemma {:induction false} ParityPlus(a: seq<bool>, b: seq<bool>)
    requires |a| == |b|
    ensures Parity(Plus(a, b)) == (Parity(a) != Parity(b))
  {
    if a != [] {
      ParityPlus(a[1..], b[1..]);
      assert Plus(a, b)[1..] == Plus(a[1..], b[1..]);
    } else {
      assert Plus(a, b) == [];
    }
  }

  lemma {:induction false} ParityZeros(n: nat)
    ensures !Parity(Zeros(n))
  {
    if n > 0 {
      ParityZeros(n - 1);
      assert Zeros(n)[1..] == Zeros(n - 1);
    }
  }

  /** The generator has an even number of terms, so the feedback word has an odd one. */
  lemma FeedbackOdd()
    ensures Parity(FEEDBACK)
  {
    var z3, z6, z4 := Zeros(3), Zeros(6), Zeros(4);
    ParityZeros(3); ParityZeros(6); ParityZeros(4);
    assert FEEDBACK == z3 + ([true] + (z6 + ([true] + (z4 + [true]))));
    ParityConcat(z3, [true] + (z6 + ([true] + (z4 + [true]))));
    ParityConcat([true], z6 + ([true] + (z4 + [true])));
    ParityConcat(z6, [true] + (z4 + [true]));
    ParityConcat([true], z4 + [true]);
    ParityConcat(z4, [true]);
    assert Parity([true]);
  }

  lemma StepParity(r: Register, bit: bool)
    ensures Parity(Step(r, bit)) == (Parity(r) != bit)
  {
    FeedbackOdd();
    ParityZeros(16);
    ParityConcat(r[1..], [false]);
    assert !Parity([false]);
    ParityPlus(r[1..] + [false], if r[0] != bit then FEEDBACK else Zeros(16));
  }

  lemma {:induction false} FeedParity(r: Register, bits: seq<bool>)
    ensures Parity(Feed(r, bits)) == (Parity(r) != Parity(bits))
    decreases |bits|
  {
    if bits != [] {
      StepParity(r, bits[0]);
      FeedParity(Step(r, bits[0]), bits[1..]);
    }
  }

  /** The checksum carries the message's parity: flipping an odd number of bits, wherever
      they are, always changes it. */
  lemma OddFlipsDetected(m1: seq<byte>, m2: seq<byte>)
    requires |m1| == |m2| && Parity(Plus(MessageBits(m1), MessageBits(m2)))
    ensures Checksum(m1) != Checksum(m2)
  {
    ParityPlus(MessageBits(m1), MessageBits(m2));
    ChecksumBits(m1);
    ChecksumBits(m2);
    FeedParity(Ones(16), MessageBits(m1));
    FeedParity(Ones(16), MessageBits(m2));
  }

  /* ---- the two bytes appended to a packet ---- */

  /** Clocking a register with its own leading stages empties them. */
  lemma {:induction false} SelfFeed(r: Register, k: nat)
    requires k <= 16
    ensures Feed(r, r[..k]) == r[k..] + Zeros(k)
    decreases k
  {
    if k > 0 {
      var s := Step(r, r[0]);
      assert s == r[1..] + [false];
      assert r[..k][0] == r[0] && r[..k][1..] == s[..k - 1];
      SelfFeed(s, k - 1);
      assert s[k - 1..] + Zeros(k - 1) == r[k..] + Zeros(k);
    } else {
      assert r[..0] == [] && r[0..] + Zeros(0) == r;
    }
  }

  lemma {:induction false} SplitBits(w: nat, k: nat, hi: nat, lo: nat)
    requires lo < Pow2(k)
    ensures Bits(w + k, hi * Pow2(k) + lo) == Bits(w, hi) + Bits(k, lo)
    decreases k
  {
    if k > 0 {
      SplitBits(w, k - 1, hi, lo / 2);
      var half := hi * Pow2(k - 1);
      assert hi * Pow2(k) == 2 * half;
      assert (2 * half + lo) / 2 == half + lo / 2 && (2 * half + lo) % 2 == lo % 2;
    } else {
      assert Bits(w, hi) + Bits(0, lo) == Bits(w, hi);
    }
  }

  lemma FeedMessage(m: seq<byte>, a: byte, b: byte)
    ensures Feed(Ones(16), MessageBits(m + [a, b])) ==
            Feed(Feed(Ones(16), MessageBits(m)), Bits(8, a) + Bits(8, b))
  {
    hide Feed, MessageBits, Bits;
    AppendByte(m, a);
    AppendByte(m + [a], b);
    assert m + [a] + [b] == m + [a, b];
    assert MessageBits(m) + Bits(8, a) + Bits(8, b) == MessageBits(m) + (Bits(8, a) + Bits(8, b));
    FeedConcat(Ones(16), MessageBits(m), Bits(8, a) + Bits(8, b));
  }

  lemma ZeroChecksum(m: seq<byte>)
    ensures Checksum(m) == 0 <==> Feed(Ones(16), MessageBits(m)) == Zeros(16)
  {
    ChecksumBits(m);
    ValueZero(16);
    Widths();
    ValueOfBits(16, 0);
    BitsOfValue(Zeros(16));
  }

  lemma {:induction false} ValueZero(n: nat)
    ensures Value(Zeros(n)) == 0
  {
    if n > 0 {
      ValueZero(n - 1);
      assert Zeros(n)[..n - 1] == Zeros(n - 1);
    }
  }

  lemma ChecksumBytes(m: seq<byte>, hi: byte, lo: byte)
    requires Checksum(m) == hi * 256 + lo
    ensures Feed(Ones(16), MessageBits(m)) == Bits(8, hi) + Bits(8, lo)
  {
    Widths();
    SplitBits(8, 8, hi, lo);
    ChecksumBits(m);
  }

  lemma SelfFeedAll(r: Register)
    ensures Feed(r, r) == Zeros(16)
  {
    SelfFeed(r, 16);
    assert r[..16] == r && r[16..] + Zeros(16) == Zeros(16);
  }

  lemma SwappedHalves(r: Register, h: seq<bool>, l: seq<bool>)
    requires |h| == |l| == 8 && Feed(r, h + l) == Zeros(16)
    ensures Feed(r, l + h) == Zeros(16) <==> l == h
  {
    if Feed(r, l + h) == Zeros(16) {
      FeedAffine(r, l + h, r, h + l);
      assert Plus(r, r) == Zeros(16) && Plus(Zeros(16), Zeros(16)) == Zeros(16);
      ShortBurstSurvives(Plus(l + h, h + l));
      SumZero(l + h, h + l);
      assert l == (l + h)[..8] && h == (h + l)[..8];
    }
  }

  lemma SameByte(a: byte, b: byte)
    ensures Bits(8, a) == Bits(8, b) <==> a == b
  {
    Widths();
    ValueOfBits(8, a);
    ValueOfBits(8, b);
  }

  /** Appending the checksum high byte first drives the register to zero; in the low-byte-first
      order the senders use, the residue vanishes exactly when the two bytes are equal. */
  lemma Residue(m: seq<byte>, hi: byte, lo: byte)
    requires Checksum(m) == hi * 256 + lo
    ensures Checksum(m + [hi, lo]) == 0
    ensures Checksum(m + [lo, hi]) == 0 <==> lo == hi
  {
    var r := Feed(Ones(16), MessageBits(m));
    ChecksumBytes(m, hi, lo);
    SelfFeedAll(r);
    FeedMessage(m, hi, lo);
    FeedMessage(m, lo, hi);
    ZeroChecksum(m + [hi, lo]);
    ZeroChecksum(m + [lo, hi]);
    SwappedHalves(r, Bits(8, hi), Bits(8, lo));
    SameByte(hi, lo);
  }
}
