/**
  The message queue over the ring, at the grain of single ring operations: the logging thread
  checks for space, puts a three-byte header, puts the text; a draining thread tests the size,
  peeks a header, tests the size again, gets the header, gets the text. The steps of the two
  threads interleave freely. The header is [level][length high][length low].
 */
module FrameQueue {
  import opened Words
  import opened ByteRing

  const MAX_TEXT: nat := 499
  const DRAIN_BUFFER: nat := 500

  /** A queued message; the producer never queues an empty text or one past its buffer. */
  datatype Frame = Frame(level: byte, text: seq<byte>)

  ghost predicate Queueable(f: Frame) { 1 <= |f.text| <= MAX_TEXT }

  function FrameHeader(level: byte, length: word16): (s: seq<byte>)
    ensures |s| == 3
  {
    [level, length / 256, length % 256]
  }

  function HeaderLength(header: seq<byte>): word16
    requires |header| >= 3
  {
    (header[1] as int) * 256 + (header[2] as int)
  }

  function Encode(f: Frame): (s: seq<byte>)
    requires |f.text| < 0x1_0000
  {
    FrameHeader(f.level, |f.text|) + f.text
  }

  ghost predicate AllQueueable(frames: seq<Frame>) {
    forall i :: 0 <= i < |frames| ==> Queueable(frames[i])
  }

  function Flatten(frames: seq<Frame>): seq<byte>
    requires forall i :: 0 <= i < |frames| ==> |frames[i].text| < 0x1_0000
  {
    if frames == [] then [] else Encode(frames[0]) + Flatten(frames[1..])
  }

  lemma {:induction false} FlattenAppend(frames: seq<Frame>, f: Frame)
    requires forall i :: 0 <= i < |frames| ==> |frames[i].text| < 0x1_0000
    requires |f.text| < 0x1_0000
    ensures Flatten(frames + [f]) == Flatten(frames) + Encode(f)
  {
    if frames == [] {
      assert (frames + [f])[1..] == [];
    } else {
      assert (frames + [f])[1..] == frames[1..] + [f];
      FlattenAppend(frames[1..], f);
    }
  }

  /* ---- the interleaved machine ---- */

  /** Where the logging thread is in `process()`. */
  datatype Producer = Idle | Offered(f: Frame) | Cleared(f: Frame) | HeaderIn(f: Frame)

  /** Where a draining thread is in `iot_log_backend_drain()`. */
  datatype Consumer =
    | AtLoop
    | SizeSeen
    | Peeked(level: byte, length: word16)
    | Checked(level: byte, length: word16)
    | HeaderOut(level: byte, length: word16)

  /** The ring, the two kinds of thread, and the history: every frame wholly put, every frame
      handed on by a drain. */
  datatype State = State(ring: seq<byte>, producer: Producer, consumers: seq<Consumer>,
                         queued: seq<Frame>, drained: seq<Frame>)

  datatype Step =
    | Offer(f: Frame) | SpaceOk | SpaceFull | PutHeader | PutText
    | SizeOk(i: nat) | SizeShort(i: nat) | PeekHeader(i: nat) | PeekShort(i: nat) | WholeFrame(i: nat) | PartFrame(i: nat)
    | TakeHeader(i: nat) | TakeText(i: nat)

  function Initial(threads: nat): State {
    State([], Idle, seq(threads, _ => AtLoop), [], [])
  }

  function Space(s: State): int { RING_SIZE - |s.ring| }

  /** `ring_buf_put` writes what fits. */
  function PutBytes(ring: seq<byte>, bytes: seq<byte>): seq<byte> {
    if |ring| > RING_SIZE then ring else ring + bytes[..Least(|bytes|, RING_SIZE - |ring|)]
  }

  predicate At(s: State, i: nat) { i < |s.consumers| }

  predicate Enabled(s: State, step: Step) {
    match step
    case Offer(f) => s.producer.Idle? && 1 <= |f.text| <= MAX_TEXT
    case SpaceOk => s.producer.Offered? && Space(s) >= 3 + |s.producer.f.text|
    case SpaceFull => s.producer.Offered? && Space(s) < 3 + |s.producer.f.text|
    case PutHeader => s.producer.Cleared?
    case PutText => s.producer.HeaderIn?
    case SizeOk(i) => At(s, i) && s.consumers[i].AtLoop? && |s.ring| >= 3
    case SizeShort(i) => At(s, i) && s.consumers[i].AtLoop? && |s.ring| < 3
    case PeekHeader(i) => At(s, i) && s.consumers[i].SizeSeen? && |s.ring| >= 3
    case PeekShort(i) => At(s, i) && s.consumers[i].SizeSeen? && |s.ring| < 3
    case WholeFrame(i) => At(s, i) && s.consumers[i].Peeked? && |s.ring| >= 3 + s.consumers[i].length
    case PartFrame(i) => At(s, i) && s.consumers[i].Peeked? && |s.ring| < 3 + s.consumers[i].length
    case TakeHeader(i) => At(s, i) && s.consumers[i].Checked?
    case TakeText(i) => At(s, i) && s.consumers[i].HeaderOut?
  }

  function Next(s: State, step: Step): State
    requires Enabled(s, step)
  {
    match step
    case Offer(f) => s.(producer := Offered(f))
    case SpaceOk => s.(producer := Cleared(s.producer.f))
    case SpaceFull => s.(producer := Idle)
    case PutHeader =>
      var f := s.producer.f;
      var length := |f.text| % 0x1_0000;
      s.(ring := PutBytes(s.ring, FrameHeader(f.level, length)), producer := HeaderIn(f))
    case PutText =>
      var f := s.producer.f;
      s.(ring := PutBytes(s.ring, f.text), producer := Idle, queued := s.queued + [f])
    case SizeOk(i) => s.(consumers := s.consumers[i := SizeSeen])
    case SizeShort(i) => s
    case PeekHeader(i) => s.(consumers := s.consumers[i := Peeked(s.ring[0], HeaderLength(s.ring))])
    case PeekShort(i) => s.(consumers := s.consumers[i := AtLoop])
    case WholeFrame(i) => s.(consumers := s.consumers[i := Checked(s.consumers[i].level, s.consumers[i].length)])
    case PartFrame(i) => s.(consumers := s.consumers[i := AtLoop])
    case TakeHeader(i) =>
      s.(ring := s.ring[Least(3, |s.ring|)..],
         consumers := s.consumers[i := HeaderOut(s.consumers[i].level, s.consumers[i].length)])
    case TakeText(i) =>
      var c := s.consumers[i];
      var kept := Least(Least(c.length, DRAIN_BUFFER), |s.ring|);
      s.(ring := s.ring[Least(c.length, |s.ring|)..], consumers := s.consumers[i := AtLoop],
         drained := s.drained + [Frame(c.level, s.ring[..kept])])
  }

  ghost predicate IsRun(s: State, steps: seq<Step>)
    decreases |steps|
  {
    steps == [] || (Enabled(s, steps[0]) && IsRun(Next(s, steps[0]), steps[1..]))
  }

  ghost function After(s: State, steps: seq<Step>): State
    requires IsRun(s, steps)
    decreases |steps|
  {
    if steps == [] then s else After(Next(s, steps[0]), steps[1..])
  }

  /* ---- one consumer: framing is never lost ---- */

  ghost function Pending(s: State): seq<Frame>
    requires |s.drained| <= |s.queued|
  {
    s.queued[|s.drained|..]
  }

  /** The header of a frame whose text is not in yet. */
  function OpenHeader(s: State): seq<byte> {
    if s.producer.HeaderIn? then FrameHeader(s.producer.f.level, |s.producer.f.text| % 0x1_0000) else []
  }

  ghost predicate ProducerInv(s: State) {
    match s.producer
    case Idle => |s.ring| <= RING_SIZE
    case Offered(f) => Queueable(f) && |s.ring| <= RING_SIZE
    case Cleared(f) => Queueable(f) && |s.ring| + 3 + |f.text| <= RING_SIZE
    case HeaderIn(f) => Queueable(f) && |s.ring| + |f.text| <= RING_SIZE
  }

  ghost predicate FrontIs(s: State, level: byte, length: word16)
    requires |s.drained| <= |s.queued|
  {
    Pending(s) != [] && Pending(s)[0].level == level && |Pending(s)[0].text| == length
  }

  /** What the ring must hold: the undrained frames, the front one perhaps without the header
      that was just taken, and the header of a frame whose text is still to come. */
  ghost function Image(s: State): seq<byte>
    requires |s.consumers| == 1 && |s.drained| <= |s.queued| && AllQueueable(s.queued)
    requires s.consumers[0].HeaderOut? ==> |s.drained| < |s.queued|
  {
    ImageOf(s.consumers[0].HeaderOut?, Pending(s), OpenHeader(s))
  }

  ghost function ImageOf(headerOut: bool, pending: seq<Frame>, open: seq<byte>): seq<byte>
    requires AllQueueable(pending) && (headerOut ==> pending != [])
  {
    if headerOut then pending[0].text + (Flatten(pending[1..]) + open) else Flatten(pending) + open
  }

  ghost predicate ConsumerInv(s: State)
    requires |s.consumers| == 1 && |s.drained| <= |s.queued|
  {
    match s.consumers[0]
    case AtLoop => true
    case SizeSeen => |s.ring| >= 3
    case Peeked(level, length) => |s.ring| >= 3 && s.ring[..3] == FrameHeader(level, length)
    case Checked(level, length) => FrontIs(s, level, length)
    case HeaderOut(level, length) => FrontIs(s, level, length)
  }

  ghost predicate Inv(s: State) {
    && |s.consumers| == 1
    && AllQueueable(s.queued)
    && s.drained <= s.queued
    && ProducerInv(s)
    && ConsumerInv(s)
    && s.ring == Image(s)
  }

  /** While no header has been taken, the ring opens with the header of the next undrained
      frame or, if there is none, consists of the header still waiting for its text. */
  lemma FrontHeader(s: State)
    requires Inv(s) && !s.consumers[0].HeaderOut? && |s.ring| >= 3
    ensures Pending(s) != [] ==> s.ring[..3] == FrameHeader(Pending(s)[0].level, |Pending(s)[0].text|)
    ensures Pending(s) == [] ==> s.producer.HeaderIn? && s.ring == OpenHeader(s)
  {
    if Pending(s) != [] {
      assert s.ring == FrameHeader(Pending(s)[0].level, |Pending(s)[0].text|)
                       + (Pending(s)[0].text + Flatten(Pending(s)[1..]) + OpenHeader(s));
    }
  }

  lemma HeaderRoundTrip(level: byte, length: word16, level': byte, length': word16)
    ensures FrameHeader(level, length) == [level, length / 256, length % 256]
    ensures HeaderLength(FrameHeader(level, length)) == length
    ensures FrameHeader(level, length) == FrameHeader(level', length') ==> level == level' && length == length'
  {
    assert FrameHeader(level, length)[1] == length / 256 && FrameHeader(level', length')[1] == length' / 256;
    assert FrameHeader(level, length)[2] == length % 256 && FrameHeader(level', length')[2] == length' % 256;
    assert FrameHeader(level, length)[0] == level && FrameHeader(level', length')[0] == level';
  }

  lemma FlattenTail(pending: seq<Frame>, f: Frame)
    requires AllQueueable(pending) && Queueable(f)
    ensures Flatten(pending + [f]) == Flatten(pending) + (FrameHeader(f.level, |f.text|) + f.text)
    ensures pending != [] ==> (pending + [f])[0] == pending[0]
    ensures pending != [] ==> Flatten((pending + [f])[1..]) == Flatten(pending[1..]) + (FrameHeader(f.level, |f.text|) + f.text)
  {
    FlattenAppend(pending, f);
    if pending != [] {
      assert (pending + [f])[1..] == pending[1..] + [f];
      FlattenAppend(pending[1..], f);
    }
  }

  lemma PutTextPending(s: State)
    requires Inv(s) && s.producer.HeaderIn?
    ensures var s' := Next(s, PutText);
            s'.ring == s.ring + s.producer.f.text && Pending(s') == Pending(s) + [s.producer.f]
            && OpenHeader(s') == [] && s'.consumers == s.consumers
  {
    hide Flatten, Image;
    var f, s' := s.producer.f, Next(s, PutText);
    assert f.text[..|f.text|] == f.text;
  }

  lemma ImageGrows(headerOut: bool, pending: seq<Frame>, f: Frame)
    requires AllQueueable(pending) && Queueable(f) && (headerOut ==> pending != [])
    ensures AllQueueable(pending + [f])
    ensures ImageOf(headerOut, pending + [f], []) == ImageOf(headerOut, pending, FrameHeader(f.level, |f.text|)) + f.text
  {
    FlattenTail(pending, f);
    hide Flatten, FrameHeader;
    if headerOut {
      Regroup(pending[0].text, Flatten(pending[1..]), FrameHeader(f.level, |f.text|), f.text);
    } else {
      Regroup([], Flatten(pending), FrameHeader(f.level, |f.text|), f.text);
    }
  }

  lemma PutTextImage(s: State)
    requires Inv(s) && s.producer.HeaderIn?
    ensures Next(s, PutText).ring == Image(Next(s, PutText))
  {
    PutTextPending(s);
    var f, out := s.producer.f, s.consumers[0].HeaderOut?;
    assert s.ring == ImageOf(out, Pending(s), FrameHeader(f.level, |f.text|)) by {
      hide ImageOf;
    }
    ImageGrows(out, Pending(s), f);
    hide ImageOf, FrameHeader, OpenHeader, Pending, Next, Inv, AllQueueable;
  }

  lemma Regroup(t: seq<byte>, u: seq<byte>, h: seq<byte>, x: seq<byte>)
    ensures t + (u + h) + x == t + ((u + (h + x)) + [])
    ensures u + h + x == (u + (h + x)) + []
  {
  }

  lemma PutTextStep(s: State)
    requires Inv(s) && s.producer.HeaderIn?
    ensures Inv(Next(s, PutText))
  {
    var f, s' := s.producer.f, Next(s, PutText);
    assert s'.ring == s.ring + f.text;
    assert Pending(s') == Pending(s) + [f];
    assert |s.ring| >= 3 ==> s'.ring[..3] == s.ring[..3];
    PutTextImage(s);
  }

  lemma PutHeaderStep(s: State)
    requires Inv(s) && s.producer.Cleared?
    ensures Inv(Next(s, PutHeader))
  {
    var f, s' := s.producer.f, Next(s, PutHeader);
    var h := FrameHeader(f.level, |f.text|);
    assert h[..3] == h;
    assert s'.ring == s.ring + h;
    assert OpenHeader(s) == [] && OpenHeader(s') == h;
    assert Image(s') == Image(s) + h;
    assert |s.ring| >= 3 ==> s'.ring[..3] == s.ring[..3];
  }

  /** A header still waiting for its text never passes the second size test: no text is empty. */
  lemma HeaderAlone(s: State)
    requires Inv(s) && s.consumers[0].Peeked? && Pending(s) == []
    ensures |s.ring| < 3 + s.consumers[0].length
  {
    FrontHeader(s);
    HeaderRoundTrip(s.consumers[0].level, s.consumers[0].length, s.producer.f.level, |s.producer.f.text|);
    assert s.ring[..3] == s.ring;
  }

  lemma WholeFrameStep(s: State)
    requires Inv(s) && Enabled(s, WholeFrame(0))
    ensures Inv(Next(s, WholeFrame(0)))
  {
    var c := s.consumers[0];
    FrontHeader(s);
    if Pending(s) == [] {
      HeaderAlone(s);
      assert false;
    } else {
      HeaderRoundTrip(c.level, c.length, Pending(s)[0].level, |Pending(s)[0].text|);
    }
  }

  lemma TakeHeaderStep(s: State)
    requires Inv(s) && Enabled(s, TakeHeader(0))
    ensures Inv(Next(s, TakeHeader(0)))
  {
    var f, rest := Pending(s)[0], Flatten(Pending(s)[1..]) + OpenHeader(s);
    assert s.ring == FrameHeader(f.level, |f.text|) + (f.text + rest);
    assert s.ring[3..] == f.text + rest;
  }

  lemma TakeTextStep(s: State)
    requires Inv(s) && Enabled(s, TakeText(0))
    ensures Inv(Next(s, TakeText(0)))
  {
    hide Flatten, FrameHeader, HeaderLength;
    var f, s' := Pending(s)[0], Next(s, TakeText(0));
    var rest := Flatten(Pending(s)[1..]) + OpenHeader(s);
    assert s.ring == f.text + rest;
    assert s.ring[..|f.text|] == f.text && s.ring[|f.text|..] == rest;
    assert s'.drained == s.drained + [f];
    assert s.queued[|s.drained|] == f;
    assert Pending(s') == Pending(s)[1..];
  }

  lemma WaitingProducerStep(s: State, step: Step)
    requires Inv(s) && Enabled(s, step) && (step.Offer? || step.SpaceOk? || step.SpaceFull?)
    ensures Inv(Next(s, step))
  {
    hide ImageOf, FrameHeader, AllQueueable;
  }

  lemma LookingConsumerStep(s: State, step: Step)
    requires Inv(s) && Enabled(s, step)
    requires step.SizeOk? || step.SizeShort? || step.PeekHeader? || step.PartFrame?
    ensures Inv(Next(s, step))
  {
    if step.PeekHeader? {
      HeaderOfRing(s.ring);
    }
    hide ImageOf, AllQueueable, FrameHeader, HeaderLength;
  }

  lemma HeaderOfRing(ring: seq<byte>)
    requires |ring| >= 3
    ensures ring[..3] == FrameHeader(ring[0], HeaderLength(ring))
  {
    assert ring[..3] == [ring[0], ring[1], ring[2]];
  }

  lemma EveryStep(s: State, step: Step)
    requires Inv(s) && Enabled(s, step)
    ensures Inv(Next(s, step))
  {
    match step
    case PutHeader => PutHeaderStep(s); hide Inv, Next;
    case PutText => PutTextStep(s); hide Inv, Next;
    case WholeFrame(i) => assert step == WholeFrame(0); WholeFrameStep(s); hide Inv, Next;
    case TakeHeader(i) => assert step == TakeHeader(0); TakeHeaderStep(s); hide Inv, Next;
    case TakeText(i) => assert step == TakeText(0); TakeTextStep(s); hide Inv, Next;
    case PeekShort(i) => assert false;
    case SizeOk(_) => LookingConsumerStep(s, step); hide Inv, Next;
    case SizeShort(_) => LookingConsumerStep(s, step); hide Inv, Next;
    case PeekHeader(_) => LookingConsumerStep(s, step); hide Inv, Next;
    case PartFrame(_) => LookingConsumerStep(s, step); hide Inv, Next;
    case _ => WaitingProducerStep(s, step); hide Inv, Next;
  }

  lemma {:induction false} RunKeepsInv(s: State, steps: seq<Step>)
    requires Inv(s) && IsRun(s, steps)
    ensures Inv(After(s, steps))
    decreases |steps|
  {
    hide Inv, Enabled, Next;
    if steps != [] {
      EveryStep(s, steps[0]);
      RunKeepsInv(Next(s, steps[0]), steps[1..]);
    }
  }

  /** The next frame a drain owes. */
  ghost predicate NextIs(s: State, f: Frame) {
    s.drained < s.queued && s.queued[|s.drained|] == f
  }

  /** With one draining thread, under every interleaving: what was drained is a prefix of what
      was queued; no put is ever cut short, nor is a peek; a header get yields the header of the next
      undrained frame, never text; and a text get yields the whole of that frame's text. */
  lemma SingleConsumerSafe(steps: seq<Step>)
    requires IsRun(Initial(1), steps)
    ensures var s := After(Initial(1), steps);
            && |s.consumers| == 1
            && s.drained <= s.queued
            && (s.producer.Cleared? ==> Space(s) >= 3)
            && (s.consumers[0].SizeSeen? ==> |s.ring| >= 3)
            && (s.producer.HeaderIn? ==> Space(s) >= |s.producer.f.text|)
            && (s.consumers[0].Checked? ==>
                  exists f :: NextIs(s, f) && Queueable(f) && |s.ring| >= 3 && s.ring[..3] == FrameHeader(f.level, |f.text|))
            && (s.consumers[0].HeaderOut? ==>
                  var n := s.consumers[0].length;
                  |s.ring| >= n && NextIs(s, Frame(s.consumers[0].level, s.ring[..n])))
  {
    RunKeepsInv(Initial(1), steps);
    hide IsRun, After, Flatten, FrameHeader;
    var s := After(Initial(1), steps);
    if s.consumers[0].Checked? {
      FrontHeader(s);
      assert NextIs(s, Pending(s)[0]) && Queueable(Pending(s)[0]);
    }
    if s.consumers[0].HeaderOut? {
      assert s.ring[..s.consumers[0].length] == Pending(s)[0].text;
    }
  }

  /** Between calls the ring holds exactly the undrained frames, so a drained ring means that
      everything queued has been handed on. */
  lemma QuietRing(steps: seq<Step>)
    requires IsRun(Initial(1), steps)
    ensures var s := After(Initial(1), steps);
            AllQueueable(s.queued) && s.drained <= s.queued && |s.consumers| == 1 &&
            (s.producer.Idle? && s.consumers[0].AtLoop? ==>
              && s.ring == Flatten(s.queued[|s.drained|..])
              && (|s.ring| < 3 <==> s.drained == s.queued))
  {
    RunKeepsInv(Initial(1), steps);
    var s := After(Initial(1), steps);
    if s.producer.Idle? && s.consumers[0].AtLoop? {
      assert s.ring == Flatten(Pending(s));
      if Pending(s) == [] {
        assert s.drained == s.queued;
      }
    }
  }

  /** Nobody is ever stuck: a call of `process()` that is under way and every draining thread have a
      step to take in every state; a full ring ends the call with nothing put. */
  lemma NobodyStuck(s: State, i: nat)
    requires At(s, i)
    ensures s.producer.Idle? || exists step :: Enabled(s, step) && step in [SpaceOk, SpaceFull, PutHeader, PutText]
    ensures s.producer.Offered? && |s.ring| + 3 + |s.producer.f.text| > 2048 ==>
              Enabled(s, SpaceFull) && Next(s, SpaceFull) == s.(producer := Idle)
    ensures exists step :: Enabled(s, step) &&
              step in [SizeOk(i), SizeShort(i), PeekHeader(i), PeekShort(i), WholeFrame(i), PartFrame(i), TakeHeader(i),
                       TakeText(i)]
  {
    assert s.producer.Idle? || Enabled(s, SpaceOk) || Enabled(s, SpaceFull) || Enabled(s, PutHeader) || Enabled(s, PutText);
    assert Enabled(s, SizeOk(i)) || Enabled(s, SizeShort(i)) || Enabled(s, PeekHeader(i)) || Enabled(s, PeekShort(i))
           || Enabled(s, WholeFrame(i)) || Enabled(s, PartFrame(i)) || Enabled(s, TakeHeader(i)) || Enabled(s, TakeText(i));
  }

  /* ---- what the hypotheses are for ---- */

  lemma {:induction false} RunConcat(s: State, a: seq<Step>, b: seq<Step>)
    requires IsRun(s, a) && IsRun(After(s, a), b)
    ensures IsRun(s, a + b) && After(s, a + b) == After(After(s, a), b)
    decreases |a|
  {
    hide Enabled, Next;
    if a == [] {
      assert a + b == b;
    } else {
      assert (a + b)[1..] == a[1..] + b;
      RunConcat(Next(s, a[0]), a[1..], b);
    }
  }

  lemma OneStep(s: State, done: seq<Step>, now: State, step: Step)
    requires IsRun(s, done) && After(s, done) == now && Enabled(now, step)
    ensures IsRun(s, done + [step]) && After(s, done + [step]) == Next(now, step)
  {
    assert [step][1..] == [];
    RunConcat(s, done, [step]);
  }

  lemma StartRun(s: State)
    ensures IsRun(s, []) && After(s, []) == s
  {
  }

  /** `process()` up to its first put. */
  lemma HeaderRun(s: State, f: Frame) returns (steps: seq<Step>)
    requires s.producer.Idle? && Queueable(f) && |s.ring| + 3 + |f.text| <= RING_SIZE
    ensures IsRun(s, steps)
    ensures After(s, steps) == s.(producer := HeaderIn(f), ring := s.ring + FrameHeader(f.level, |f.text|))
  {
    hide IsRun, After;
    steps := [];
    StartRun(s);
    OneStep(s, steps, s, Offer(f));
    steps := steps + [Offer(f)];
    OneStep(s, steps, s.(producer := Offered(f)), SpaceOk);
    steps := steps + [SpaceOk];
    var h := FrameHeader(f.level, |f.text|);
    assert h[..3] == h;
    OneStep(s, steps, s.(producer := Cleared(f)), PutHeader);
    steps := steps + [PutHeader];
  }

  /** A call of `process()` that is not interrupted queues its frame. */
  lemma ProcessRun(s: State, f: Frame) returns (steps: seq<Step>)
    requires s.producer.Idle? && Queueable(f) && |s.ring| + 3 + |f.text| <= RING_SIZE
    ensures IsRun(s, steps)
    ensures After(s, steps) == s.(ring := s.ring + Encode(f), queued := s.queued + [f])
  {
    hide IsRun, After;
    steps := HeaderRun(s, f);
    var h := FrameHeader(f.level, |f.text|);
    assert f.text[..|f.text|] == f.text;
    OneStep(s, steps, s.(producer := HeaderIn(f), ring := s.ring + h), PutText);
    steps := steps + [PutText];
    assert s.ring + h + f.text == s.ring + Encode(f);
  }

  /** The size test before the header get is not idle: a drain that runs between the two puts
      finds a header without its text. */
  lemma PartFrameReachable(f: Frame) returns (steps: seq<Step>)
    requires Queueable(f)
    ensures IsRun(Initial(1), steps) && Enabled(After(Initial(1), steps), PartFrame(0))
  {
    hide IsRun, After;
    var s, h := Initial(1), FrameHeader(f.level, |f.text|);
    steps := HeaderRun(s, f);
    assert [] + h == h;
    var s3 := s.(producer := HeaderIn(f), ring := h);
    OneStep(s, steps, s3, SizeOk(0));
    steps := steps + [SizeOk(0)];
    HeaderRoundTrip(f.level, |f.text|, 0, 0);
    OneStep(s, steps, s3.(consumers := [SizeSeen]), PeekHeader(0));
    steps := steps + [PeekHeader(0)];
  }

  /** A drain loop up to where it decides that a whole frame is there. */
  lemma ChecksFrame(s: State, i: nat, level: byte, n: word16) returns (steps: seq<Step>)
    requires At(s, i) && s.consumers[i].AtLoop?
    requires |s.ring| >= 3 + n && s.ring[..3] == FrameHeader(level, n)
    ensures IsRun(s, steps)
    ensures After(s, steps) == s.(consumers := s.consumers[i := Checked(level, n)])
  {
    hide IsRun, After;
    HeaderRoundTrip(level, n, 0, 0);
    var h := s.ring[..3];
    assert s.ring[0] == h[0] && s.ring[1] == h[1] && s.ring[2] == h[2];
    assert HeaderLength(s.ring) == n;
    hide HeaderLength, FrameHeader;
    steps := [];
    StartRun(s);
    OneStep(s, steps, s, SizeOk(i));
    steps := steps + [SizeOk(i)];
    OneStep(s, steps, s.(consumers := s.consumers[i := SizeSeen]), PeekHeader(i));
    steps := steps + [PeekHeader(i)];
    OneStep(s, steps, s.(consumers := s.consumers[i := Peeked(level, n)]), WholeFrame(i));
    steps := steps + [WholeFrame(i)];
  }

  /** From there to the end of the turn. */
  lemma TakesFrame(s: State, i: nat, level: byte, text: seq<byte>, rest: seq<byte>) returns (steps: seq<Step>)
    requires At(s, i) && |text| <= DRAIN_BUFFER && s.consumers[i] == Checked(level, |text|)
    requires s.ring == FrameHeader(level, |text|) + text + rest
    ensures IsRun(s, steps)
    ensures After(s, steps) == s.(ring := rest, consumers := s.consumers[i := AtLoop],
                                  drained := s.drained + [Frame(level, text)])
  {
    hide IsRun, After;
    var n := |text|;
    assert s.ring[3..] == text + rest;
    assert (text + rest)[..n] == text && (text + rest)[n..] == rest;
    hide FrameHeader;
    steps := [];
    StartRun(s);
    OneStep(s, steps, s, TakeHeader(i));
    steps := steps + [TakeHeader(i)];
    OneStep(s, steps, s.(ring := text + rest, consumers := s.consumers[i := HeaderOut(level, n)]), TakeText(i));
    steps := steps + [TakeText(i)];
  }

  /** One whole turn of a drain loop that is not interrupted. */
  lemma DrainTurn(s: State, i: nat, level: byte, text: seq<byte>, rest: seq<byte>) returns (steps: seq<Step>)
    requires At(s, i) && s.consumers[i].AtLoop?
    requires |text| <= DRAIN_BUFFER && s.ring == FrameHeader(level, |text|) + text + rest
    ensures IsRun(s, steps)
    ensures After(s, steps) == s.(ring := rest, drained := s.drained + [Frame(level, text)])
  {
    hide IsRun, After, FrameHeader;
    assert s.ring[..3] == FrameHeader(level, |text|);
    var a := ChecksFrame(s, i, level, |text|);
    var b := TakesFrame(s.(consumers := s.consumers[i := Checked(level, |text|)]), i, level, text, rest);
    RunConcat(s, a, b);
    steps := a + b;
    assert s.consumers[i := AtLoop] == s.consumers;
  }

  /** A drain that is not interrupted hands on every frame in the ring and leaves it empty. */
  lemma {:induction false} DrainRun(s: State, i: nat, frames: seq<Frame>) returns (steps: seq<Step>)
    requires At(s, i) && s.consumers[i].AtLoop? && AllQueueable(frames) && s.ring == Flatten(frames)
    ensures IsRun(s, steps)
    ensures After(s, steps) == s.(ring := [], drained := s.drained + frames)
    decreases |frames|
  {
    hide IsRun, After, Flatten, FrameHeader, AllQueueable;
    var rest := FlattenFront(frames);
    if frames == [] {
      steps := [];
      StartRun(s);
      assert s.drained + frames == s.drained;
    } else {
      var f := frames[0];
      var a := DrainTurn(s, i, f.level, f.text, rest);
      var b := DrainRun(s.(ring := rest, drained := s.drained + [f]), i, frames[1..]);
      RunConcat(s, a, b);
      steps := a + b;
      assert s.drained + [f] + frames[1..] == s.drained + frames;
    }
  }

  lemma FlattenFront(frames: seq<Frame>) returns (rest: seq<byte>)
    requires AllQueueable(frames)
    ensures frames == [] ==> Flatten(frames) == []
    ensures frames != [] ==>
              var f := frames[0];
              && Queueable(f) && f == Frame(f.level, f.text) && AllQueueable(frames[1..])
              && rest == Flatten(frames[1..]) && Flatten(frames) == FrameHeader(f.level, |f.text|) + f.text + rest
  {
    rest := if frames == [] then [] else Flatten(frames[1..]);
  }

  /** Two drains can get to the same frame: both peek its header and pass the size test. */
  lemma TwoDrainsAtOneFrame(s: State, f: Frame, rest: seq<byte>) returns (steps: seq<Step>)
    requires s.consumers == [AtLoop, AtLoop] && Queueable(f) && s.ring == Encode(f) + rest
    ensures IsRun(s, steps)
    ensures After(s, steps) == s.(consumers := [Checked(f.level, |f.text|), Checked(f.level, |f.text|)])
  {
    hide IsRun, After, FrameHeader;
    var n: word16 := |f.text|;
    assert s.ring == FrameHeader(f.level, n) + (f.text + rest);
    assert s.ring[..3] == FrameHeader(f.level, n);
    assert s.consumers[0 := Checked(f.level, n)] == [Checked(f.level, n), AtLoop];
    assert [Checked(f.level, n), AtLoop][1 := Checked(f.level, n)] == [Checked(f.level, n), Checked(f.level, n)];
    var a := ChecksFrame(s, 0, f.level, n);
    var b := ChecksFrame(s.(consumers := [Checked(f.level, n), AtLoop]), 1, f.level, n);
    RunConcat(s, a, b);
    steps := a + b;
  }

  lemma OneTakesTheOthersText(s: State, f: Frame, g: Frame) returns (steps: seq<Step>)
    requires Queueable(f) && Queueable(g) && |f.text| >= 3
    requires s.ring == Encode(f) + Encode(g)
    requires s.consumers == [Checked(f.level, |f.text|), Checked(f.level, |f.text|)]
    ensures IsRun(s, steps)
    ensures After(s, steps).queued == s.queued
    ensures After(s, steps).drained == s.drained + [Frame(f.level, f.text[3..] + FrameHeader(g.level, |g.text|))]
  {
    hide IsRun, After;
    var n: word16 := |f.text|;
    var tail := f.text[3..] + FrameHeader(g.level, |g.text|);
    assert s.ring[3..] == f.text + Encode(g);
    steps := [];
    StartRun(s);
    OneStep(s, steps, s, TakeHeader(0));
    steps := steps + [TakeHeader(0)];
    var s1 := s.(ring := f.text + Encode(g), consumers := [HeaderOut(f.level, n), Checked(f.level, n)]);
    assert s1.ring[3..] == tail + g.text;
    OneStep(s, steps, s1, TakeHeader(1));
    steps := steps + [TakeHeader(1)];
    var s2 := s.(ring := tail + g.text, consumers := [HeaderOut(f.level, n), HeaderOut(f.level, n)]);
    assert s2.ring[..n] == tail;
    OneStep(s, steps, s2, TakeText(0));
    steps := steps + [TakeText(0)];
  }

  lemma TwoQueued(f: Frame, g: Frame) returns (steps: seq<Step>)
    requires Queueable(f) && Queueable(g)
    ensures IsRun(Initial(2), steps)
    ensures After(Initial(2), steps) == State(Encode(f) + Encode(g), Idle, [AtLoop, AtLoop], [f, g], [])
  {
    var s0 := Initial(2);
    assert s0.consumers == [AtLoop, AtLoop];
    var a := ProcessRun(s0, f);
    assert [] + Encode(f) == Encode(f) && [] + [f] == [f];
    var s1 := State(Encode(f), Idle, [AtLoop, AtLoop], [f], []);
    var b := ProcessRun(s1, g);
    RunConcat(s0, a, b);
    steps := a + b;
  }

  /** With two draining threads the framing is lost: for any two queueable frames, the first of
      at least three bytes, there is a run after which the first thing drained starts in the
      middle of the first text and runs on into the second frame's header. */
  lemma TwoConsumersMisframe(f: Frame, g: Frame) returns (steps: seq<Step>)
    requires Queueable(f) && Queueable(g) && |f.text| >= 3
    ensures IsRun(Initial(2), steps)
    ensures After(Initial(2), steps).queued == [f, g]
    ensures After(Initial(2), steps).drained == [Frame(f.level, f.text[3..] + FrameHeader(g.level, |g.text|))]
  {
    var a := TwoQueued(f, g);
    var s := State(Encode(f) + Encode(g), Idle, [AtLoop, AtLoop], [f, g], []);
    var b := TwoDrainsAtOneFrame(s, f, Encode(g));
    var t := s.(consumers := [Checked(f.level, |f.text|), Checked(f.level, |f.text|)]);
    var c := OneTakesTheOthersText(t, f, g);
    RunConcat(s, b, c);
    RunConcat(Initial(2), a, b + c);
    steps := a + (b + c);
  }
}
