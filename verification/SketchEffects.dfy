/**
  What each call of the Arduino class does, in every run of a sketch, in numbers, fields and bytes:
  which levels come to the rate limiter, what it lets through, and what is on the wire then.
 */
module SketchEffects {
  import opened Words
  import opened Wire
  import opened Payloads
  import opened Receiver
  import opened Delivery
  import RateLimit
  import Backoff
  import ArduinoDiscovery
  import opened Arduino
  import opened SketchRuns

  /* ---- one message ---- */

  /** One datagram is added to the wire, the packet for this content at the call's clock; it is counted
      as sent if it was written whole and ended, and otherwise as dropped. */
  predicate MessageOut(c: Config, k: Sketch, k': Sketch, net: Net, logType: byte, payload: seq<byte>) {
    && k' == k.(wire := k'.wire, logCount := k'.logCount, dropped := k'.dropped)
    && |k'.wire| == |k.wire| + 1 && k'.wire[..|k.wire|] == k.wire && k'.wire[|k.wire|].logType == logType
    && Carries(k'.wire[|k.wire|].bytes, c.deviceId, net.clock % 0x1_0000_0000, logType, payload)
    && if net.ended && net.written == |payload| + 20
       then k'.logCount == (k.logCount + 1) % 0x1_0000_0000 && k'.dropped == k.dropped
       else k'.logCount == k.logCount && k'.dropped == (k.dropped + 1) % 0x1_0000_0000
  }

  /** `sendLogMessage` itself. */
  predicate SendDone(c: Config, k: Sketch, k': Sketch, net: Net, logType: byte, payload: seq<byte>) {
    if c.initialised && k.finder.active && |payload| <= 1004 then MessageOut(c, k, k', net, logType, payload)
    else k' == k.(dropped := (k.dropped + 1) % 0x1_0000_0000)
  }

  lemma SendExact(c: Config, k: Sketch, net: Net, logType: byte, payload: seq<byte>)
    ensures SendDone(c, k, Send(c, k, net, logType, payload), net, logType, payload)
  {
    hide Packet, Carries;
    if |payload| <= 1004 {
      PacketCarries(c.deviceId, net.clock % 0x1_0000_0000, logType, payload);
    }
  }

  /** What the receiver shows of the datagram last added. */
  ghost predicate LastShown(k: Sketch, id: word64, clock: nat, parsed: Parsed) {
    k.wire != [] &&
    var m := Reading(k.wire[|k.wire| - 1].bytes);
    m.Some? && m.value.header.deviceId == id && m.value.header.timestamp == clock % 0x1_0000_0000
    && m.value.parsed == parsed
  }

  lemma MessageShown(c: Config, k: Sketch, k': Sketch, net: Net, logType: byte, payload: seq<byte>)
    requires MessageOut(c, k, k', net, logType, payload) && logType != 0xFF
    ensures LastShown(k', c.deviceId, net.clock, Parse(logType, payload))
  {
    CarriedRead(k'.wire[|k.wire|].bytes, c.deviceId, net.clock % 0x1_0000_0000, logType, payload);
    hide Carries, Reading, Parse;
  }

  /* ---- one text ---- */

  function BitOf(level: Level): (b: byte)
    ensures b > 0
  {
    if level == 1 then 1 else if level == 2 then 2 else if level == 3 then 4 else if level == 4 then 8 else 16
  }

  /** The bit of the level in the mask, the lowest for level 1. */
  predicate BitSet(mask: byte, level: Level) {
    mask / BitOf(level) % 2 == 1
  }

  predicate LetsIn(c: Config, level: Level) { level <= c.logLevel && BitSet(c.logMask, level) }

  /** One hundred texts for each second that the clock shows. */
  predicate OneOfHundred(l: RateLimit.Limiter, clock: word32) {
    clock / 1000 != l.windowStart / 1000 || l.count < 100
  }

  predicate Asked(l: RateLimit.Limiter, l': RateLimit.Limiter, clock: word32) {
    if clock / 1000 != l.windowStart / 1000 then l' == RateLimit.Limiter(clock, 1, l.dropped)
    else if l.count < 100 then l' == l.(count := l.count + 1)
    else l' == l.(dropped := (l.dropped + 1) % 0x1_0000_0000)
  }

  /** A text whose level is let in, with a listener active, asks the limiter; if it is one of a hundred
      it leaves under its level, cut to 255 bytes, or 127 on an ESP8266, and otherwise is dropped. */
  ghost predicate TextOut(c: Config, k: Sketch, k': Sketch, level: Level, text: seq<byte>, time: nat, net: Net) {
    if !c.initialised || !LetsIn(c, level) || !k.finder.active then k' == k
    else
      var clock := time % 0x1_0000_0000;
      var tried := k.(limiter := k'.limiter);
      && Asked(k.limiter, k'.limiter, clock)
      && if OneOfHundred(k.limiter, clock) then
           var shown := Cut(text, if c.platform == Esp32 then 255 else 127);
           MessageOut(c, tried, k', net, 1, [level] + shown)
           && LastShown(k', c.deviceId, net.clock, Parsed.Text(level, shown))
         else k' == tried.(dropped := (k.dropped + 1) % 0x1_0000_0000)
  }

  lemma BitIsWanted(c: Config, level: Level)
    ensures Wanted(c, level) <==> LetsIn(c, level)
  {
    assert Pow2(0) == 1 && Pow2(1) == 2 * Pow2(0) && Pow2(2) == 2 * Pow2(1) && Pow2(3) == 2 * Pow2(2)
           && Pow2(4) == 2 * Pow2(3);
  }

  lemma LimiterAsked(l: RateLimit.Limiter, clock: word32)
    ensures Asked(l, RateLimit.Attempted(l, clock), clock)
    ensures RateLimit.Allows(l, clock) <==> OneOfHundred(l, clock)
  {
  }

  lemma TextSent(c: Config, k: Sketch, level: Level, text: seq<byte>, net: Net)
    requires c.initialised && k.finder.active
    ensures var k' := Send(c, k, net, 1, TextOf(c, level, text));
            var shown := Cut(text, if c.platform == Esp32 then 255 else 127);
            && MessageOut(c, k, k', net, 1, [level] + shown)
            && LastShown(k', c.deviceId, net.clock, Parsed.Text(level, shown))
  {
    var shown := Cut(text, if c.platform == Esp32 then 255 else 127);
    assert TextOf(c, level, text) == [level] + shown && |[level] + shown| <= 1004;
    SendExact(c, k, net, 1, [level] + shown);
    TextReadIff([level] + shown, level, shown);
    hide Cut, TextOf, LastShown, Send, Parse, MessageOut;
    MessageShown(c, k, Send(c, k, net, 1, [level] + shown), net, 1, [level] + shown);
  }

  lemma LogExact(c: Config, k: Sketch, level: Level, text: seq<byte>, time: nat, net: Net)
    ensures TextOut(c, k, Log(c, k, level, text, time, net), level, text, time, net)
  {
    BitIsWanted(c, level);
    hide Wanted, LetsIn, MessageOut, LastShown, Send, TextOf, Cut, Asked, OneOfHundred;
    hide RateLimit.Attempted, RateLimit.Allows;
    if c.initialised && LetsIn(c, level) && k.finder.active {
      var clock := RateLimit.Millis(time);
      LimiterAsked(k.limiter, clock);
      var tried := k.(limiter := RateLimit.Attempted(k.limiter, clock));
      TextSent(c, tried, level, text, net);
      SendKeepsLimiter(c, tried, net, 1, TextOf(c, level, text));
    }
  }

  lemma SendKeepsLimiter(c: Config, k: Sketch, net: Net, logType: byte, payload: seq<byte>)
    ensures Send(c, k, net, logType, payload).limiter == k.limiter
  {
    hide Packet;
  }

  /* ---- the other calls ---- */

  ghost predicate MetricOut(c: Config, k: Sketch, k': Sketch, name: seq<byte>, payload: seq<byte>, net: Net) {
    if c.initialised && k.finder.active && name != [] then
      MessageOut(c, k, k', net, 4, payload) && LastShown(k', c.deviceId, net.clock, Parse(4, payload))
    else k' == k
  }

  lemma MetricExact(c: Config, k: Sketch, name: seq<byte>, payload: seq<byte>, net: Net)
    requires |payload| <= 1004
    ensures MetricOut(c, k, Metric(c, k, name, payload, net), name, payload, net)
  {
    SendExact(c, k, net, 4, payload);
    hide Send, MessageOut, LastShown, Parse;
    if c.initialised && k.finder.active && name != [] {
      MessageShown(c, k, Send(c, k, net, 4, payload), net, 4, payload);
    }
  }

  ghost predicate TelemetryOut(c: Config, k: Sketch, k': Sketch, record: Record, net: Net) {
    if c.initialised && k.finder.active && c.telemetry then
      MessageOut(c, k, k', net, 2, record) && LastShown(k', c.deviceId, net.clock, Parsed.Telemetry(record))
    else k' == k
  }

  lemma TelemetryExact(c: Config, k: Sketch, record: Record, net: Net)
    ensures TelemetryOut(c, k, Telemeter(c, k, record, net), record, net)
  {
    SendExact(c, k, net, 2, record);
    hide Send, MessageOut, LastShown;
    if c.initialised && k.finder.active && c.telemetry {
      MessageShown(c, k, Send(c, k, net, 2, record), net, 2, record);
    }
  }

  /** A search is due when the clock shows 300 s since the last one if a listener is active, and
      otherwise the interval: 60 s after an answer, twice the last without, at most 300 s and at least
      60 s. A listener found or lost is logged as a debug line; nobody hears the second. */
  ghost predicate SearchDone(c: Config, k: Sketch, k': Sketch, turn: Turn) {
    var f, now := k.finder, turn.begin % 0x1_0000_0000;
    var twice := 2 * f.interval % 0x1_0000_0000;
    if (now - f.last) % 0x1_0000_0000 < (if f.active then 300_000 else f.interval) then k' == k
    else
      && k'.finder.active == turn.found && k'.finder.last == now
      && k'.finder.interval ==
         (if turn.found || twice < 60_000 then 60_000 else if twice > 300_000 then 300_000 else twice)
      && if turn.found && !f.active then
           var heard := f.(active := true);
           TextOut(c, k.(finder := heard), k'.(finder := heard), 4, LISTENER_ACTIVE, turn.end, turn.net)
         else k' == k.(finder := k'.finder)
  }

  lemma ListenerActiveText()
    ensures |LISTENER_ACTIVE| == |"Log listener active"|
    ensures forall i :: 0 <= i < |LISTENER_ACTIVE| ==> LISTENER_ACTIVE[i] == "Log listener active"[i] as int
  {
  }

  lemma SearchExact(c: Config, k: Sketch, turn: Turn)
    ensures SearchDone(c, k, Search(c, k, turn.begin, turn.end, turn.found, turn.net), turn)
  {
    var heard := k.(finder := k.finder.(active := turn.found));
    LogExact(c, heard, 4, if turn.found then LISTENER_ACTIVE else LISTENER_INACTIVE, turn.end, turn.net);
    LogKeepsFinder(c, heard, 4, if turn.found then LISTENER_ACTIVE else LISTENER_INACTIVE, turn.end, turn.net);
    hide Log, MessageOut, LastShown, Asked, OneOfHundred, LetsIn, Cut;
  }

  lemma LogKeepsFinder(c: Config, k: Sketch, level: Level, text: seq<byte>, time: nat, net: Net)
    ensures Log(c, k, level, text, time, net).finder == k.finder
  {
    hide Packet, Wanted, RateLimit.Attempted, RateLimit.Allows, TextOf;
  }

  /** Telemetry that is on goes out to an active listener when the clock shows 30 s since the last. */
  ghost predicate ReportDone(c: Config, k: Sketch, k': Sketch, turn: Turn) {
    var now := turn.begin % 0x1_0000_0000;
    if k.finder.active && c.telemetry && (now - k.lastTelemetry) % 0x1_0000_0000 >= 30_000 then
      k'.lastTelemetry == now && TelemetryOut(c, k, k'.(lastTelemetry := k.lastTelemetry), turn.record, turn.recordNet)
    else k' == k
  }

  lemma ReportExact(c: Config, k: Sketch, turn: Turn)
    ensures ReportDone(c, k, Report(c, k, RateLimit.Millis(turn.begin), turn.record, turn.recordNet), turn)
  {
    TelemetryExact(c, k, turn.record, turn.recordNet);
    TelemeterKeepsTime(c, k, turn.record, turn.recordNet);
    hide Telemeter, TelemetryOut;
  }

  lemma TelemeterKeepsTime(c: Config, k: Sketch, record: Record, net: Net)
    ensures Telemeter(c, k, record, net).lastTelemetry == k.lastTelemetry
  {
    hide Packet;
  }

  /** A call of loop is a search and then a report. */
  ghost predicate LoopDone(c: Config, k: Sketch, k': Sketch, turn: Turn) {
    if !c.initialised then k' == k
    else exists searched :: SearchDone(c, k, searched, turn) && ReportDone(c, searched, k', turn)
  }

  lemma LoopExact(c: Config, k: Sketch, turn: Turn)
    ensures LoopDone(c, k, Loop(c, k, turn), turn)
  {
    SearchExact(c, k, turn);
    ReportExact(c, Search(c, k, turn.begin, turn.end, turn.found, turn.net), turn);
    hide Search, Report, SearchDone, ReportDone;
  }

  ghost predicate CrashRecordOut(c: Config, k: Sketch, k': Sketch, crash: Crash) {
    if k.finder.active then
      MessageOut(c, k, k', crash.recordNet, 3, crash.record)
      && LastShown(k', c.deviceId, crash.recordNet.clock, Parsed.Crash(crash.record))
    else k' == k
  }

  lemma CrashRecordExact(c: Config, k: Sketch, crash: Crash)
    requires c.initialised
    ensures CrashRecordOut(c, k, CrashRecord(c, k, crash), crash)
  {
    assert Parse(3, crash.record) == Parsed.Crash(crash.record) by {
      assert crash.record[..85] == crash.record;
    }
    hide Send, MessageOut, LastShown, Parse;
    SendExact(c, k, crash.recordNet, 3, crash.record);
    if k.finder.active {
      MessageShown(c, k, Send(c, k, crash.recordNet, 3, crash.record), crash.recordNet, 3, crash.record);
    }
  }

  ghost predicate CountOut(c: Config, k: Sketch, k': Sketch, count: Option<Line>) {
    match count
    case None => k' == k
    case Some(line) => TextOut(c, k, k', 2, line.text, line.time, line.net)
  }

  /** Crash data is announced as an error; the record follows, and a warning with the count if there
      is one. */
  ghost predicate CrashDone(c: Config, k: Sketch, k': Sketch, found: Option<Crash>) {
    if !c.initialised || !c.crashLogging || found.None? then k' == k
    else
      var line := found.value.line;
      exists told, recorded ::
        && TextOut(c, k, told, 1, line.text, line.time, line.net)
        && CrashRecordOut(c, told, recorded, found.value) && CountOut(c, recorded, k', found.value.count)
  }

  lemma CrashExact(c: Config, k: Sketch, found: Option<Crash>)
    ensures CrashDone(c, k, CheckCrash(c, k, found), found)
  {
    hide Log, TextOut, CrashRecord, CrashRecordOut;
    if c.initialised && c.crashLogging && found.Some? {
      var crash := found.value;
      var told := Write(c, k, LEVEL_ERROR, crash.line);
      LogExact(c, k, 1, crash.line.text, crash.line.time, crash.line.net);
      CrashRecordExact(c, told, crash);
      var recorded := CrashRecord(c, told, crash);
      if crash.count.Some? {
        var line := crash.count.value;
        LogExact(c, recorded, 2, line.text, line.time, line.net);
      }
      assert CountOut(c, recorded, CheckCrash(c, k, found), crash.count);
    }
  }

  /* ---- every call in every run ---- */

  ghost predicate Done(c: Config, k: Sketch, k': Sketch, op: Op) {
    match op
    case Text(level, text, time, net) => TextOut(c, k, k', level, text, time, net)
    case IntegerMetric(name, number, net) =>
      MetricOut(c, k, k', name, [|Cut(name, 255)|] + Cut(name, 255) + LittleEndian(4, number % 0x1_0000_0000), net)
    case StringMetric(name, value, net) =>
      MetricOut(c, k, k', name, [|Cut(name, 255)|] + Cut(name, 255) + [|Cut(value, 255)|] + Cut(value, 255), net)
    case LoopCall(turn) => LoopDone(c, k, k', turn)
    case Telemetry(record, net) => TelemetryOut(c, k, k', record, net)
    case CrashCheck(found) => CrashDone(c, k, k', found)
    case ResetLimit => k' == k.(limiter := RateLimit.Limiter(0, 0, 0))
    case Force => k' == k.(finder := k.finder.(last := 0, interval := 0))
    case EnableCrashes(_, line) => TextOut(c, k, k', 3, line.text, line.time, line.net)
    case _ => k' == k
  }

  /** Every call, at the end of every run, with the settings as they are then, does exactly what is
      written out above. */
  lemma StepExact(c: Config, start: Sketch, ops: seq<Op>, op: Op)
    ensures Done(ConfigAfter(c, ops), Run(c, start, ops), Run(c, start, ops + [op]), op)
  {
    assert (ops + [op])[..|ops|] == ops;
    var d, k := ConfigAfter(c, ops), Run(c, start, ops);
    assert Run(c, start, ops + [op]) == Step(d, k, op);
    hide Run, ConfigAfter;
    match op
    case Text(level, text, time, net) => LogExact(d, k, level, text, time, net); hide Log, TextOut;
    case IntegerMetric(name, number, net) =>
      MetricExact(d, k, name, IntMetricBytes(name, number), net); hide Metric, MetricOut, Cut, LittleEndian;
    case StringMetric(name, value, net) =>
      MetricExact(d, k, name, StringMetricBytes(name, value), net); hide Metric, MetricOut, Cut;
    case LoopCall(turn) => LoopExact(d, k, turn); hide Loop, LoopDone;
    case Telemetry(record, net) => TelemetryExact(d, k, record, net); hide Telemeter, TelemetryOut;
    case CrashCheck(found) => CrashExact(d, k, found); hide CheckCrash, CrashDone;
    case EnableCrashes(_, line) => LogExact(d, k, 3, line.text, line.time, line.net); hide Log, TextOut;
    case _ =>
  }

  /** The settings are those last made, bit by bit. */
  lemma SettingsExact(c: Config, ops: seq<Op>, op: Op)
    ensures var d, e := ConfigAfter(c, ops), ConfigAfter(c, ops + [op]);
            match op
            case SetLevel(threshold) => e == d.(logLevel := threshold)
            case SetMask(mask) => e == d.(logMask := mask)
            case EnableTelemetry(flags) => e == d.(telemetry := flags % 256 != 0)
            case EnableCrashes(enable, _) => e == d.(crashLogging := enable)
            case _ => e == d
  {
    assert (ops + [op])[..|ops|] == ops;
  }

  /** The threshold in force is the one set last, or else the first one; so is the mask. */
  lemma {:induction false} LastSettings(c: Config, ops: seq<Op>, later: seq<Op>)
    ensures (forall i :: 0 <= i < |later| ==> !later[i].SetLevel?) ==>
              ConfigAfter(c, ops + later).logLevel == ConfigAfter(c, ops).logLevel
    ensures (forall i :: 0 <= i < |later| ==> !later[i].SetMask?) ==>
              ConfigAfter(c, ops + later).logMask == ConfigAfter(c, ops).logMask
    decreases |later|
  {
    if later == [] {
      assert ops + later == ops;
    } else {
      var n := |later| - 1;
      assert ops + later == ops + later[..n] + [later[n]];
      LastSettings(c, ops, later[..n]);
      SettingsExact(c, ops + later[..n], later[n]);
      hide ConfigAfter;
    }
  }

  /** In every run of an initialised sketch a log call comes to the limiter, and moves it, if and only
      if a listener is active, its level is at most the threshold in force and its bit of the mask is
      set; and in no other case does it do anything at all. */
  lemma FilterExact(c: Config, start: Sketch, ops: seq<Op>, level: Level, text: seq<byte>, time: nat, net: Net)
    requires c.initialised
    ensures var d, k := ConfigAfter(c, ops), Run(c, start, ops);
            var k' := Run(c, start, ops + [Op.Text(level, text, time, net)]);
            && (k'.limiter != k.limiter <==> k.finder.active && level <= d.logLevel && BitSet(d.logMask, level))
            && (k'.limiter == k.limiter ==> k' == k)
            && Asks(d, k, Op.Text(level, text, time, net)) ==
               if k.finder.active && level <= d.logLevel && BitSet(d.logMask, level) then [RateLimit.Attempt(time)]
               else []
  {
    StepExact(c, start, ops, Op.Text(level, text, time, net));
    StaysInitialised(c, ops);
    BitIsWanted(ConfigAfter(c, ops), level);
    hide Run, ConfigAfter, MessageOut, LastShown, BitSet, Wanted, Cut;
  }

  /** With the mask 0xFF exactly the levels from 1 to the threshold get so far; with one bit set, only
      that level, and only if it is at most the threshold. */
  lemma MasksExact(c: Config, start: Sketch, ops: seq<Op>, level: Level, text: seq<byte>, time: nat, net: Net)
    requires c.initialised && Run(c, start, ops).finder.active
    ensures var d, k := ConfigAfter(c, ops), Run(c, start, ops);
            var k' := Run(c, start, ops + [Op.Text(level, text, time, net)]);
            && (d.logMask == 0xFF ==> (k'.limiter != k.limiter <==> 1 <= level <= d.logLevel))
            && (forall only: Level :: OnlyBit(d.logMask, only) ==>
                  (k'.limiter != k.limiter <==> level == only && only <= d.logLevel))
  {
    hide Run, ConfigAfter, BitSet, OnlyBit;
    FilterExact(c, start, ops, level, text, time, net);
    var mask := ConfigAfter(c, ops).logMask;
    forall only: Level
      ensures OnlyBit(mask, only) ==> (BitSet(mask, level) <==> level == only)
    {
      MaskBits(mask, level, only);
    }
    MaskBits(mask, level, 1);
  }

  lemma MaskBits(mask: byte, level: Level, only: Level)
    ensures mask == 0xFF ==> BitSet(mask, level)
    ensures OnlyBit(mask, only) ==> (BitSet(mask, level) <==> level == only)
  {
  }

  predicate OnlyBit(mask: byte, level: Level) { mask == BitOf(level) }
}
