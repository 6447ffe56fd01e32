/**
  The Arduino class: its functional specification (module Arduino), whole runs of it (module
  SketchRuns), and the class itself, whose methods are proved to compute the specification
  (module ArduinoDevice).
 */
module Arduino {
  import opened Words
  import opened Wire
  import opened Payloads
  import RateLimit
  import ArduinoDiscovery

  datatype Platform = Esp32 | Esp8266

  function MaxMessage(p: Platform): nat { if p.Esp32? then 256 else 128 }

  function FormatBuffer(p: Platform): nat { if p.Esp32? then 512 else 256 }

  const LEVEL_DEBUG: byte := 4

  type Level = x: int | 1 <= x <= 5 witness 1

  /** What one call of sendLogMessage reads: millis(), and what write() and endPacket() return. */
  datatype Net = Net(clock: nat, written: nat, ended: bool)

  datatype Config = Config(platform: Platform, deviceId: word64, initialised: bool, logLevel: byte, logMask: byte,
                           telemetry: bool, crashLogging: bool)

  datatype Datagram = Datagram(logType: byte, bytes: seq<byte>)

  datatype Sketch = Sketch(finder: ArduinoDiscovery.Finder, limiter: RateLimit.Limiter,
                           lastTelemetry: word32, logCount: word32, dropped: word32, wire: seq<Datagram>)

  const BOOT: Sketch := Sketch(ArduinoDiscovery.IDLE, RateLimit.FRESH, 0, 0, 0, [])

  /** `_log_level >= level`, and bit level-1 of the mask. */
  predicate Wanted(c: Config, level: Level) {
    level <= c.logLevel && c.logMask / Pow2(level - 1) % 2 == 1
  }

  function Drop(k: Sketch): Sketch { k.(dropped := Inc32(k.dropped)) }

  function Send(c: Config, k: Sketch, net: Net, logType: byte, payload: seq<byte>): Sketch {
    if !c.initialised || !k.finder.active || HEADER_SIZE + |payload| + 2 > MAX_PACKET then Drop(k)
    else
      var packet := Packet(c.deviceId, net.clock % 0x1_0000_0000, logType, payload);
      var k' := k.(wire := k.wire + [Datagram(logType, packet)]);
      if net.ended && net.written == |packet| then k'.(logCount := Inc32(k.logCount)) else Drop(k')
  }

  /** The text is cut twice, by the formatting buffer and by the message size; only the second
      cut is ever shorter. */
  function TextOf(c: Config, level: Level, text: seq<byte>): seq<byte> {
    [level] + Cut(text, MaxMessage(c.platform) - 1)
  }

  /** A log call comes to the limiter only if its level is wanted and a listener is active. */
  predicate ReachesLimiter(c: Config, k: Sketch, level: Level) {
    c.initialised && Wanted(c, level) && k.finder.active
  }

  function Log(c: Config, k: Sketch, level: Level, text: seq<byte>, time: nat, net: Net): Sketch {
    if !ReachesLimiter(c, k, level) then k
    else
      var k' := k.(limiter := RateLimit.Attempted(k.limiter, RateLimit.Millis(time)));
      if RateLimit.Allows(k.limiter, RateLimit.Millis(time)) then Send(c, k', net, TYPE_TEXT, TextOf(c, level, text))
      else Drop(k')
  }

  function Metric(c: Config, k: Sketch, name: seq<byte>, payload: seq<byte>, net: Net): Sketch {
    if !c.initialised || !k.finder.active || name == [] then k else Send(c, k, net, TYPE_METRIC, payload)
  }

  /** "Log listener active" and "Log listener inactive" */
  const LISTENER_ACTIVE: seq<byte> :=
    [76, 111, 103, 32, 108, 105, 115, 116, 101, 110, 101, 114, 32, 97, 99, 116, 105, 118, 101]
  const LISTENER_INACTIVE: seq<byte> :=
    [76, 111, 103, 32, 108, 105, 115, 116, 101, 110, 101, 114, 32, 105, 110, 97, 99, 116, 105, 118, 101]

  /** `discoverListener`: a change of state is itself logged, at the time the query ends. */
  function Discover(c: Config, k: Sketch, found: bool, end: nat, net: Net): Sketch {
    if found == k.finder.active then k
    else
      Log(c, k.(finder := k.finder.(active := found)), LEVEL_DEBUG,
          if found then LISTENER_ACTIVE else LISTENER_INACTIVE, end, net)
  }

  /** The discovery half of `loop`. */
  function Search(c: Config, k: Sketch, begin: nat, end: nat, found: bool, net: Net): Sketch {
    var now := RateLimit.Millis(begin);
    if !ArduinoDiscovery.Due(k.finder, now) then k
    else Discover(c, k, found, end, net).(finder := ArduinoDiscovery.Looked(k.finder, now, found))
  }

  /** A packed telemetry or crash structure; both are 85 bytes long. */
  type Record = s: seq<byte> | |s| == 85 witness seq(85, _ => 0)

  const TELEMETRY_INTERVAL: int := 30_000

  function Telemeter(c: Config, k: Sketch, record: Record, net: Net): Sketch {
    if !c.initialised || !k.finder.active || !c.telemetry then k else Send(c, k, net, TYPE_TELEMETRY, record)
  }

  /** The telemetry half of `loop`. */
  function Report(c: Config, k: Sketch, now: word32, record: Record, net: Net): Sketch {
    if k.finder.active && c.telemetry && (now - k.lastTelemetry) % 0x1_0000_0000 >= TELEMETRY_INTERVAL
    then Telemeter(c, k, record, net).(lastTelemetry := now)
    else k
  }

  /** What one call of loop() reads besides the network's result for its log line. */
  datatype Turn = Turn(begin: nat, end: nat, found: bool, net: Net, record: Record, recordNet: Net)

  function Loop(c: Config, k: Sketch, t: Turn): Sketch {
    if !c.initialised then k
    else Report(c, Search(c, k, t.begin, t.end, t.found, t.net), RateLimit.Millis(t.begin), t.record, t.recordNet)
  }

  const LEVEL_ERROR: Level := 1
  const LEVEL_WARN: Level := 2
  const LEVEL_INFO: Level := 3

  /** A log line: its formatted text and the readings of its call. */
  datatype Line = Line(text: seq<byte>, time: nat, net: Net)

  /** Crash data found at start: the line that announces it, the record, and a line with the count
      if there was more than one crash. */
  datatype Crash = Crash(line: Line, record: Record, recordNet: Net, count: Option<Line>)

  function Write(c: Config, k: Sketch, level: Level, line: Line): Sketch {
    Log(c, k, level, line.text, line.time, line.net)
  }

  function CrashRecord(c: Config, k: Sketch, crash: Crash): Sketch {
    if k.finder.active then Send(c, k, crash.recordNet, TYPE_EXCEPTION, crash.record) else k
  }

  function CheckCrash(c: Config, k: Sketch, found: Option<Crash>): Sketch {
    if !c.initialised || !c.crashLogging || found.None? then k
    else
      var told := CrashRecord(c, Write(c, k, LEVEL_ERROR, found.value.line), found.value);
      match found.value.count
      case None => told
      case Some(line) => Write(c, told, LEVEL_WARN, line)
  }
}

/** Whole runs of a sketch. */
module SketchRuns {
  import opened Words
  import opened Wire
  import opened Payloads
  import RateLimit
  import Backoff
  import ArduinoDiscovery
  import ForcedDiscovery
  import opened Arduino

  datatype Op =
    | Text(level: Level, text: seq<byte>, time: nat, net: Net)
    | IntegerMetric(name: seq<byte>, number: int32, net: Net)
    | StringMetric(name: seq<byte>, value: seq<byte>, net: Net)
    | LoopCall(turn: Turn)
    | Telemetry(record: Record, net: Net)
    | CrashCheck(crash: Option<Crash>)
    | ResetLimit
    | Force
    | SetLevel(threshold: byte)
    | SetMask(mask: byte)
    | EnableTelemetry(flags: nat)
    | EnableCrashes(enable: bool, line: Line)

  /** The settings are operations too. Telemetry flags are kept in eight bits. */
  function Configured(c: Config, op: Op): Config {
    match op
    case SetLevel(threshold) => c.(logLevel := threshold)
    case SetMask(mask) => c.(logMask := mask)
    case EnableTelemetry(flags) => c.(telemetry := flags % 256 != 0)
    case EnableCrashes(enable, _) => c.(crashLogging := enable)
    case _ => c
  }

  function ConfigAfter(c: Config, ops: seq<Op>): Config {
    if ops == [] then c else Configured(ConfigAfter(c, ops[..|ops| - 1]), ops[|ops| - 1])
  }

  lemma {:induction false} StaysInitialised(c: Config, ops: seq<Op>)
    ensures ConfigAfter(c, ops).initialised == c.initialised
  {
    if ops != [] {
      StaysInitialised(c, ops[..|ops| - 1]);
    }
  }

  function Step(c: Config, k: Sketch, op: Op): Sketch {
    match op
    case Text(level, text, time, net) => Log(c, k, level, text, time, net)
    case IntegerMetric(name, number, net) => Metric(c, k, name, IntMetricBytes(name, number), net)
    case StringMetric(name, value, net) => Metric(c, k, name, StringMetricBytes(name, value), net)
    case LoopCall(turn) => Loop(c, k, turn)
    case Telemetry(record, net) => Telemeter(c, k, record, net)
    case CrashCheck(crash) => CheckCrash(c, k, crash)
    case ResetLimit => k.(limiter := RateLimit.FRESH)
    case Force => k.(finder := ArduinoDiscovery.Forced(k.finder))
    case EnableCrashes(_, line) => Write(c, k, LEVEL_INFO, line)
    case _ => k
  }

  /** A run that starts with configuration c. */
  function Run(c: Config, k: Sketch, ops: seq<Op>): Sketch {
    if ops == [] then k
    else Step(ConfigAfter(c, ops[..|ops| - 1]), Run(c, k, ops[..|ops| - 1]), ops[|ops| - 1])
  }

  function LogAsk(c: Config, k: Sketch, level: Level, time: nat): seq<RateLimit.Call> {
    if ReachesLimiter(c, k, level) then [RateLimit.Attempt(time)] else []
  }

  /** What an operation asks of the rate limiter; the log lines of a discovery and of a crash check
      count too. */
  function Asks(c: Config, k: Sketch, op: Op): seq<RateLimit.Call> {
    match op
    case Text(level, _, time, _) => LogAsk(c, k, level, time)
    case LoopCall(turn) => SearchAsks(c, k, turn)
    case CrashCheck(crash) => CrashAsks(c, k, crash)
    case ResetLimit => [RateLimit.Reset]
    case EnableCrashes(_, line) => LogAsk(c, k, LEVEL_INFO, line.time)
    case _ => []
  }

  function SearchAsks(c: Config, k: Sketch, turn: Turn): seq<RateLimit.Call> {
    if c.initialised && ArduinoDiscovery.Due(k.finder, RateLimit.Millis(turn.begin)) && turn.found && !k.finder.active
       && Wanted(c, LEVEL_DEBUG)
    then [RateLimit.Attempt(turn.end)] else []
  }

  function CrashAsks(c: Config, k: Sketch, crash: Option<Crash>): seq<RateLimit.Call> {
    if !c.initialised || !c.crashLogging || crash.None? then []
    else
      LogAsk(c, k, LEVEL_ERROR, crash.value.line.time)
      + (match crash.value.count case None => [] case Some(line) => LogAsk(c, k, LEVEL_WARN, line.time))
  }

  function AllAsks(c: Config, k: Sketch, ops: seq<Op>): seq<RateLimit.Call> {
    if ops == [] then []
    else
      var front := ops[..|ops| - 1];
      AllAsks(c, k, front) + Asks(ConfigAfter(c, front), Run(c, k, front), ops[|ops| - 1])
  }

  function Texts(wire: seq<Datagram>): nat {
    if wire == [] then 0
    else Texts(wire[..|wire| - 1]) + (if wire[|wire| - 1].logType == TYPE_TEXT then 1 else 0)
  }

  lemma TextsMore(wire: seq<Datagram>, d: Datagram)
    ensures Texts(wire + [d]) == Texts(wire) + (if d.logType == TYPE_TEXT then 1 else 0)
  {
    assert (wire + [d])[..|wire|] == wire;
  }

  lemma SendOnWire(c: Config, k: Sketch, net: Net, logType: byte, payload: seq<byte>)
    ensures var k' := Send(c, k, net, logType, payload);
            && k'.finder == k.finder && k'.limiter == k.limiter
            && Texts(k.wire) <= Texts(k'.wire) <= Texts(k.wire) + (if logType == TYPE_TEXT then 1 else 0)
            && (!k.finder.active ==> k'.wire == k.wire)
  {
    if |payload| <= MAX_PACKET {
      TextsMore(k.wire, Datagram(logType, Packet(c.deviceId, net.clock % 0x1_0000_0000, logType, payload)));
    }
    hide Wire.Packet, Texts;
  }

  /** k' comes of k by these calls of the limiter, with at most as many new texts on the wire as it
      lets through. */
  ghost predicate Follows(k: Sketch, k': Sketch, asks: seq<RateLimit.Call>) {
    && k'.limiter == RateLimit.After(k.limiter, asks)
    && Texts(k'.wire) <= Texts(k.wire) + RateLimit.Passed(k.limiter, asks)
  }

  lemma FollowsNothing(k: Sketch, k': Sketch)
    requires k'.limiter == k.limiter && Texts(k'.wire) == Texts(k.wire)
    ensures Follows(k, k', [])
  {
  }

  lemma FollowsOn(k: Sketch, k1: Sketch, k2: Sketch, a: seq<RateLimit.Call>, b: seq<RateLimit.Call>)
    requires Follows(k, k1, a) && Follows(k1, k2, b)
    ensures Follows(k, k2, a + b)
  {
    RateLimit.Concatenated(k.limiter, a, b);
    hide Texts, RateLimit.After, RateLimit.Passed;
  }

  lemma OneCall(l: RateLimit.Limiter, call: RateLimit.Call)
    ensures RateLimit.After(l, [call]) == RateLimit.StepOf(l, call)
    ensures RateLimit.Passed(l, [call]) == if RateLimit.PassesAt(l, call) then 1 else 0
  {
    assert [call][..0] == [];
  }

  lemma LogAsks(c: Config, k: Sketch, level: Level, text: seq<byte>, time: nat, net: Net)
    ensures var k' := Log(c, k, level, text, time, net);
            && Follows(k, k', LogAsk(c, k, level, time))
            && k'.finder == k.finder && k'.lastTelemetry == k.lastTelemetry && (!k.finder.active ==> k'.wire == k.wire)
  {
    OneCall(k.limiter, RateLimit.Attempt(time));
    FollowsNothing(k, k);
    var tried := k.(limiter := RateLimit.Attempted(k.limiter, RateLimit.Millis(time)));
    SendOnWire(c, tried, net, TYPE_TEXT, TextOf(c, level, text));
    hide Send, Texts, RateLimit.Attempted, RateLimit.Allows, RateLimit.After, RateLimit.Passed, TextOf;
  }

  /** Records and metrics ask nothing. */
  lemma SendAsksNothing(c: Config, k: Sketch, net: Net, logType: byte, payload: seq<byte>)
    requires logType != TYPE_TEXT
    ensures var k' := Send(c, k, net, logType, payload);
            && Follows(k, k', []) && k'.finder == k.finder && k'.lastTelemetry == k.lastTelemetry
            && (!k.finder.active ==> k'.wire == k.wire)
  {
    SendOnWire(c, k, net, logType, payload);
    FollowsNothing(k, Send(c, k, net, logType, payload));
    hide Send, Texts, Follows;
  }

  lemma LoopAsks(c: Config, k: Sketch, t: Turn)
    ensures Follows(k, Loop(c, k, t), SearchAsks(c, k, t))
  {
    var s := Search(c, k, t.begin, t.end, t.found, t.net);
    FollowsNothing(k, k);
    FollowsNothing(s, s);
    SendAsksNothing(c, s, t.recordNet, TYPE_TELEMETRY, t.record);
    hide Search, SearchAsks, Send, Texts;
    var k' := Loop(c, k, t);
    if c.initialised {
      SearchFollows(c, k, t);
      assert Follows(s, k', []);
      FollowsOn(k, s, k', SearchAsks(c, k, t), []);
      assert SearchAsks(c, k, t) + [] == SearchAsks(c, k, t);
    } else {
      NoSearch(c, k, t);
    }
  }

  lemma NoSearch(c: Config, k: Sketch, t: Turn)
    requires !c.initialised
    ensures SearchAsks(c, k, t) == []
  {
  }

  lemma SearchFollows(c: Config, k: Sketch, t: Turn)
    requires c.initialised
    ensures Follows(k, Search(c, k, t.begin, t.end, t.found, t.net), SearchAsks(c, k, t))
  {
    var found := k.(finder := k.finder.(active := t.found));
    LogAsks(c, found, LEVEL_DEBUG, if t.found then LISTENER_ACTIVE else LISTENER_INACTIVE, t.end, t.net);
    FollowsNothing(k, k);
    hide Log, Texts, Wanted, ArduinoDiscovery.Due;
  }

  lemma CrashFollows(c: Config, k: Sketch, crash: Option<Crash>)
    ensures Follows(k, CheckCrash(c, k, crash), CrashAsks(c, k, crash))
    ensures CheckCrash(c, k, crash).finder == k.finder
    ensures CheckCrash(c, k, crash).lastTelemetry == k.lastTelemetry
    ensures !k.finder.active ==> CheckCrash(c, k, crash).wire == k.wire
  {
    FollowsNothing(k, k);
    if c.initialised && c.crashLogging && crash.Some? {
      var x := crash.value;
      var told := Write(c, k, LEVEL_ERROR, x.line);
      var sent := CrashRecord(c, told, x);
      LogAsks(c, k, LEVEL_ERROR, x.line.text, x.line.time, x.line.net);
      FollowsNothing(told, told);
      SendAsksNothing(c, told, x.recordNet, TYPE_EXCEPTION, x.record);
      hide Follows, Log, Send, Wanted;
      var first := LogAsk(c, k, LEVEL_ERROR, x.line.time);
      assert LogAsk(c, sent, LEVEL_WARN, 0) == LogAsk(c, k, LEVEL_WARN, 0);
      FollowsOn(k, told, sent, first, []);
      assert first + [] == first;
      match x.count
      case None =>
      case Some(line) =>
        LogAsks(c, sent, LEVEL_WARN, line.text, line.time, line.net);
        FollowsOn(k, sent, Write(c, sent, LEVEL_WARN, line), first, LogAsk(c, k, LEVEL_WARN, line.time));
    }
  }

  /** One operation moves the limiter as it asks, and puts at most as many texts on the wire as
      the limiter lets through. */
  lemma StepAsks(c: Config, k: Sketch, op: Op)
    ensures Follows(k, Step(c, k, op), Asks(c, k, op))
  {
    FollowsNothing(k, k);
    match op
    case Text(level, text, time, net) => LogAsks(c, k, level, text, time, net); hide Log, Follows, LogAsk;
    case IntegerMetric(name, number, net) =>
      SendAsksNothing(c, k, net, TYPE_METRIC, IntMetricBytes(name, number));
      hide Send, Follows;
    case StringMetric(name, value, net) =>
      SendAsksNothing(c, k, net, TYPE_METRIC, StringMetricBytes(name, value));
      hide Send, Follows;
    case LoopCall(turn) => LoopAsks(c, k, turn); hide Loop, SearchAsks, Follows;
    case Telemetry(record, net) => SendAsksNothing(c, k, net, TYPE_TELEMETRY, record); hide Send, Follows;
    case CrashCheck(crash) => CrashFollows(c, k, crash); hide CheckCrash, CrashAsks, Follows;
    case ResetLimit =>
      OneCall(k.limiter, RateLimit.Reset);
      hide Texts, RateLimit.After, RateLimit.Passed;
    case EnableCrashes(_, line) => LogAsks(c, k, LEVEL_INFO, line.text, line.time, line.net); hide Log, Follows, LogAsk;
    case _ => hide Follows;
  }

  lemma {:induction false} RunAsks(c: Config, k: Sketch, ops: seq<Op>)
    ensures Follows(k, Run(c, k, ops), AllAsks(c, k, ops))
  {
    if ops != [] {
      var front := ops[..|ops| - 1];
      RunAsks(c, k, front);
      var now := ConfigAfter(c, front);
      StepAsks(now, Run(c, k, front), ops[|ops| - 1]);
      FollowsOn(k, Run(c, k, front), Run(c, k, ops), AllAsks(c, k, front), Asks(now, Run(c, k, front), ops[|ops| - 1]));
      hide Step, Asks, Follows;
    } else {
      FollowsNothing(k, k);
      hide Follows;
    }
  }

  /** In any run of a sketch, whatever went before, whatever is logged and however the settings
      change, at most one hundred text packets leave for each second the clock shows and one hundred
      for each reset. */
  lemma TextsPerSecond(c: Config, before: seq<Op>, during: seq<Op>, first: nat, last: nat)
    requires RateLimit.Within(AllAsks(ConfigAfter(c, before), Run(c, BOOT, before), during), first, last)
    ensures var now, k := ConfigAfter(c, before), Run(c, BOOT, before);
            Texts(Run(now, k, during).wire) <= Texts(k.wire)
              + 100 * (RateLimit.Second(last) - RateLimit.Second(first) + 1 + RateLimit.Resets(AllAsks(now, k, during)))
  {
    var now, k := ConfigAfter(c, before), Run(c, BOOT, before);
    RunAsks(c, BOOT, before);
    RunAsks(now, k, during);
    RateLimit.SpanBound(AllAsks(c, BOOT, before), AllAsks(now, k, during), first, last);
  }

  /* ---- discovery in a run ---- */

  function DiscoveryCalls(ops: seq<Op>): seq<ForcedDiscovery.Call> {
    if ops == [] then []
    else
      var front := DiscoveryCalls(ops[..|ops| - 1]);
      match ops[|ops| - 1]
      case LoopCall(t) => front + [ForcedDiscovery.Look(Backoff.Visit(t.begin, t.end, t.found))]
      case Force => front + [ForcedDiscovery.Force]
      case _ => front
  }

  lemma LoopFinder(c: Config, k: Sketch, t: Turn)
    requires c.initialised
    ensures Loop(c, k, t).finder == ArduinoDiscovery.Loop(k.finder, RateLimit.Millis(t.begin), t.found)
    ensures !k.finder.active && !t.found ==> Loop(c, k, t).wire == k.wire
  {
    var found := k.(finder := k.finder.(active := t.found));
    var s := Search(c, k, t.begin, t.end, t.found, t.net);
    LogAsks(c, found, LEVEL_DEBUG, if t.found then LISTENER_ACTIVE else LISTENER_INACTIVE, t.end, t.net);
    SendAsksNothing(c, s, t.recordNet, TYPE_TELEMETRY, t.record);
    hide Log, Send, Follows, ArduinoDiscovery.Due, Backoff.NextInterval;
  }

  lemma StepFinder(c: Config, k: Sketch, op: Op)
    requires c.initialised
    ensures Step(c, k, op).finder ==
            (match op
             case LoopCall(t) => ArduinoDiscovery.Loop(k.finder, RateLimit.Millis(t.begin), t.found)
             case Force => ArduinoDiscovery.Forced(k.finder)
             case _ => k.finder)
  {
    match op
    case Text(level, text, time, net) => LogAsks(c, k, level, text, time, net); hide Log, Follows;
    case IntegerMetric(name, number, net) =>
      SendAsksNothing(c, k, net, TYPE_METRIC, IntMetricBytes(name, number));
      hide Send, Follows;
    case StringMetric(name, value, net) =>
      SendAsksNothing(c, k, net, TYPE_METRIC, StringMetricBytes(name, value));
      hide Send, Follows;
    case LoopCall(t) => LoopFinder(c, k, t); hide Loop, ArduinoDiscovery.Loop;
    case Telemetry(record, net) => SendAsksNothing(c, k, net, TYPE_TELEMETRY, record); hide Send, Follows;
    case CrashCheck(crash) => CrashFollows(c, k, crash); hide CheckCrash, Follows;
    case EnableCrashes(_, line) => LogAsks(c, k, LEVEL_INFO, line.text, line.time, line.net); hide Log, Follows;
    case _ =>
  }

  /** Nothing but loop() and forceDiscovery() moves the discovery state: a run of a sketch leaves it
      as the run of these two does. */
  lemma {:induction false} DiscoveryOfRun(c: Config, ops: seq<Op>)
    requires c.initialised
    ensures Run(c, BOOT, ops).finder == ForcedDiscovery.AfterCalls(DiscoveryCalls(ops))
  {
    if ops != [] {
      var front := ops[..|ops| - 1];
      DiscoveryOfRun(c, front);
      StaysInitialised(c, front);
      StepFinder(ConfigAfter(c, front), Run(c, BOOT, front), ops[|ops| - 1]);
      hide Step, ArduinoDiscovery.Loop, ArduinoDiscovery.Forced;
      var calls := DiscoveryCalls(front);
      match ops[|ops| - 1]
      case LoopCall(t) =>
        var look := ForcedDiscovery.Look(Backoff.Visit(t.begin, t.end, t.found));
        assert (calls + [look])[..|calls + [look]| - 1] == calls;
      case Force =>
        assert (calls + [ForcedDiscovery.Force])[..|calls + [ForcedDiscovery.Force]| - 1] == calls;
      case _ =>
    }
  }

  /** The calls of loop() in a run, and those of them that made a query. */
  function LoopVisits(ops: seq<Op>): seq<Backoff.Visit> { ForcedDiscovery.Looks(DiscoveryCalls(ops)) }

  function Queried(c: Config, ops: seq<Op>): seq<Backoff.Visit> {
    if ops == [] then []
    else
      var front := ops[..|ops| - 1];
      match ops[|ops| - 1]
      case LoopCall(t) =>
        if ArduinoDiscovery.Due(Run(c, BOOT, front).finder, RateLimit.Millis(t.begin))
        then Queried(c, front) + [Backoff.Visit(t.begin, t.end, t.found)]
        else Queried(c, front)
      case _ => Queried(c, front)
  }

  ghost predicate NoForce(ops: seq<Op>) { forall i :: 0 <= i < |ops| ==> !ops[i].Force? }

  lemma {:induction false} CallsUnforced(ops: seq<Op>)
    requires NoForce(ops)
    ensures DiscoveryCalls(ops) == ForcedDiscovery.Unforced(LoopVisits(ops))
  {
    if ops != [] {
      var front := ops[..|ops| - 1];
      CallsUnforced(front);
      match ops[|ops| - 1]
      case LoopCall(t) =>
        var v := Backoff.Visit(t.begin, t.end, t.found);
        var calls := DiscoveryCalls(front);
        assert (calls + [ForcedDiscovery.Look(v)])[..|calls + [ForcedDiscovery.Look(v)]| - 1] == calls;
        assert LoopVisits(ops) == LoopVisits(front) + [v];
        assert ForcedDiscovery.Unforced(LoopVisits(front) + [v])
               == ForcedDiscovery.Unforced(LoopVisits(front)) + [ForcedDiscovery.Look(v)];
      case _ =>
    }
  }

  /** Without forced discoveries the run of the sketch is a run of loop() in every respect. */
  lemma FinderUnforced(c: Config, ops: seq<Op>)
    requires c.initialised && NoForce(ops)
    ensures Run(c, BOOT, ops).finder == ArduinoDiscovery.After(LoopVisits(ops))
  {
    DiscoveryOfRun(c, ops);
    CallsUnforced(ops);
    ForcedDiscovery.UnforcedRuns(LoopVisits(ops));
    hide Run, DiscoveryCalls;
  }

  lemma {:induction false} QueriedUnforced(c: Config, ops: seq<Op>)
    requires c.initialised && NoForce(ops)
    ensures Queried(c, ops) == ArduinoDiscovery.Queries(LoopVisits(ops))
  {
    if ops != [] {
      var front := ops[..|ops| - 1];
      QueriedUnforced(c, front);
      FinderUnforced(c, front);
      hide Run, ArduinoDiscovery.Due, ArduinoDiscovery.After;
      match ops[|ops| - 1]
      case LoopCall(t) =>
        var v := Backoff.Visit(t.begin, t.end, t.found);
        var calls := DiscoveryCalls(front);
        assert (calls + [ForcedDiscovery.Look(v)])[..|calls + [ForcedDiscovery.Look(v)]| - 1] == calls;
        assert LoopVisits(ops) == LoopVisits(front) + [v];
        assert (LoopVisits(front) + [v])[..|LoopVisits(front) + [v]| - 1] == LoopVisits(front);
      case _ =>
    }
  }

  /** In every run of a sketch without forced discoveries, whatever else it does: while nobody
      answers, the k-th query is no earlier than the sum of the intervals before it. */
  lemma QueriesBackOff(c: Config, ops: seq<Op>, k: nat)
    requires c.initialised && NoForce(ops) && Backoff.InOrder(LoopVisits(ops)) && k < |Queried(c, ops)|
    requires forall i :: 0 <= i < k ==> !Queried(c, ops)[i].found
    ensures Queried(c, ops)[k].begin >= Queried(c, ops)[0].begin + Backoff.Total(0, k)
  {
    QueriedUnforced(c, ops);
    ArduinoDiscovery.NotBeforeTheSum(LoopVisits(ops), k);
  }

  /** A listener that comes or goes at `from` and stays so is known after a run whose last call of
      loop() is 299999 ms later or more; with forced discoveries in the run, 599998 ms and a gap. */
  lemma KnownInTime(c: Config, ops: seq<Op>, gap: nat, from: int, present: bool)
    requires c.initialised && LoopVisits(ops) != [] && gap <= 0x1_0000_0000 - Backoff.MAX_INTERVAL
    requires var v := LoopVisits(ops);
             Backoff.InOrder(v) && Backoff.Frequent(v, gap) && Backoff.Settled(v, from, present)
    requires var last := LoopVisits(ops)[|LoopVisits(ops)| - 1].begin;
             if NoForce(ops) then last >= from + Backoff.MAX_INTERVAL - 1
             else last >= from + 2 * Backoff.MAX_INTERVAL - 2 + gap
    ensures Run(c, BOOT, ops).finder.active == present
  {
    if NoForce(ops) {
      FinderUnforced(c, ops);
      var v := LoopVisits(ops);
      ArduinoDiscovery.LatencyBound(v, gap, from, present, |v| - 1);
      assert v[..|v| - 1 + 1] == v;
    } else {
      DiscoveryOfRun(c, ops);
      ForcedDiscovery.LatencyBound(DiscoveryCalls(ops), gap, from, present);
    }
  }

  /** No query answered, no packet: a device that finds no listener puts nothing on the wire,
      whatever is logged. */
  lemma {:induction false} SilentWithoutListener(c: Config, ops: seq<Op>)
    requires forall i :: 0 <= i < |ops| && ops[i].LoopCall? ==> !ops[i].turn.found
    ensures Run(c, BOOT, ops).wire == [] && !Run(c, BOOT, ops).finder.active
  {
    if ops != [] {
      var front := ops[..|ops| - 1];
      SilentWithoutListener(c, front);
      SilentStep(ConfigAfter(c, front), Run(c, BOOT, front), ops[|ops| - 1]);
      hide Step;
    }
  }

  lemma SilentStep(c: Config, k: Sketch, op: Op)
    requires !k.finder.active && (op.LoopCall? ==> !op.turn.found)
    ensures Step(c, k, op).wire == k.wire && !Step(c, k, op).finder.active
  {
    match op
    case LoopCall(t) =>
      if c.initialised {
        LoopFinder(c, k, t);
      }
      hide Search, Report, ArduinoDiscovery.Due;
    case CrashCheck(crash) => CrashFollows(c, k, crash); hide CheckCrash;
    case EnableCrashes(_, line) => LogAsks(c, k, LEVEL_INFO, line.text, line.time, line.net); hide Log, Follows;
    case _ => hide ArduinoDiscovery.Due, Wanted, Wire.Packet;
  }

  /* ---- telemetry flags ---- */

  ghost predicate NoRecord(wire: seq<Datagram>) {
    forall i :: 0 <= i < |wire| ==> wire[i].logType != TYPE_TELEMETRY
  }

  lemma SendNoRecord(c: Config, k: Sketch, net: Net, logType: byte, payload: seq<byte>)
    requires logType != TYPE_TELEMETRY
    ensures NoRecord(k.wire) ==> NoRecord(Send(c, k, net, logType, payload).wire)
  {
    hide Wire.Packet;
  }

  lemma LogNoRecord(c: Config, k: Sketch, level: Level, text: seq<byte>, time: nat, net: Net)
    ensures NoRecord(k.wire) ==> NoRecord(Log(c, k, level, text, time, net).wire)
  {
    var tried := k.(limiter := RateLimit.Attempted(k.limiter, RateLimit.Millis(time)));
    SendNoRecord(c, tried, net, TYPE_TEXT, TextOf(c, level, text));
    hide Send, TextOf, RateLimit.Attempted, RateLimit.Allows, ReachesLimiter;
  }

  lemma StepNoRecord(c: Config, k: Sketch, op: Op)
    requires !c.telemetry
    ensures NoRecord(k.wire) ==> NoRecord(Step(c, k, op).wire)
  {
    match op
    case Text(level, text, time, net) => LogNoRecord(c, k, level, text, time, net); hide Log, NoRecord;
    case IntegerMetric(name, number, net) =>
      SendNoRecord(c, k, net, TYPE_METRIC, IntMetricBytes(name, number));
      hide Send, NoRecord;
    case StringMetric(name, value, net) =>
      SendNoRecord(c, k, net, TYPE_METRIC, StringMetricBytes(name, value));
      hide Send, NoRecord;
    case LoopCall(t) =>
      var found := k.(finder := k.finder.(active := t.found));
      LogNoRecord(c, found, LEVEL_DEBUG, if t.found then LISTENER_ACTIVE else LISTENER_INACTIVE, t.end, t.net);
      hide Log, NoRecord, ArduinoDiscovery.Due;
    case CrashCheck(crash) => CrashNoRecord(c, k, crash); hide CheckCrash, NoRecord;
    case EnableCrashes(_, line) => LogNoRecord(c, k, LEVEL_INFO, line.text, line.time, line.net); hide Log, NoRecord;
    case _ => hide NoRecord;
  }

  lemma CrashNoRecord(c: Config, k: Sketch, crash: Option<Crash>)
    ensures NoRecord(k.wire) ==> NoRecord(CheckCrash(c, k, crash).wire)
  {
    if c.initialised && c.crashLogging && crash.Some? {
      var x := crash.value;
      var told := Write(c, k, LEVEL_ERROR, x.line);
      LogNoRecord(c, k, LEVEL_ERROR, x.line.text, x.line.time, x.line.net);
      SendNoRecord(c, told, x.recordNet, TYPE_EXCEPTION, x.record);
      if x.count.Some? {
        LogNoRecord(c, CrashRecord(c, told, x), LEVEL_WARN, x.count.value.text, x.count.value.time, x.count.value.net);
      }
      hide Log, Send, NoRecord;
    }
  }

  /** Flags above the eighth bit do not turn telemetry on: a sketch that enables only such flags never
      sends a record, whatever it calls. */
  lemma {:induction false} HighFlagsSendNothing(c: Config, ops: seq<Op>)
    requires !c.telemetry
    requires forall i :: 0 <= i < |ops| && ops[i].EnableTelemetry? ==> ops[i].flags % 256 == 0
    ensures !ConfigAfter(c, ops).telemetry && NoRecord(Run(c, BOOT, ops).wire)
  {
    if ops != [] {
      var front := ops[..|ops| - 1];
      HighFlagsSendNothing(c, front);
      StepNoRecord(ConfigAfter(c, front), Run(c, BOOT, front), ops[|ops| - 1]);
      hide Step, NoRecord;
    }
  }

  /* ---- every message is accounted for ---- */

  function One(yes: bool): nat { if yes then 1 else 0 }

  predicate CountsRecord(c: Config, k: Sketch) { c.initialised && k.finder.active && c.telemetry }

  /** How many messages of an operation are to be counted as sent or dropped. */
  function Messages(c: Config, k: Sketch, op: Op): nat {
    match op
    case IntegerMetric(name, _, _) => One(c.initialised && k.finder.active && name != [])
    case StringMetric(name, _, _) => One(c.initialised && k.finder.active && name != [])
    case Telemetry(_, _) => One(CountsRecord(c, k))
    case LoopCall(t) => |SearchAsks(c, k, t)| + One(c.initialised && ReportDue(c, k, t))
    case CrashCheck(crash) =>
      |CrashAsks(c, k, crash)| + One(c.initialised && c.crashLogging && crash.Some? && k.finder.active)
    case Text(_, _, _, _) => |Asks(c, k, op)|
    case EnableCrashes(_, _) => |Asks(c, k, op)|
    case _ => 0
  }

  predicate ReportsAt(c: Config, k: Sketch, now: word32) {
    k.finder.active && c.telemetry && (now - k.lastTelemetry) % 0x1_0000_0000 >= TELEMETRY_INTERVAL
  }

  /** After the discovery half of a call of loop(), telemetry is due. */
  predicate ReportDue(c: Config, k: Sketch, t: Turn) {
    ReportsAt(c, Search(c, k, t.begin, t.end, t.found, t.net), RateLimit.Millis(t.begin))
  }

  function Counted(c: Config, ops: seq<Op>): nat {
    if ops == [] then 0
    else
      var front := ops[..|ops| - 1];
      Counted(c, front) + Messages(ConfigAfter(c, front), Run(c, BOOT, front), ops[|ops| - 1])
  }

  /** The counters wrap at 2^32. */
  ghost predicate Adds(k: Sketch, k': Sketch, n: nat) {
    (k'.logCount + k'.dropped) % 0x1_0000_0000 == (k.logCount + k.dropped + n) % 0x1_0000_0000
  }

  lemma AddsNothing(k: Sketch, k': Sketch)
    requires k'.logCount == k.logCount && k'.dropped == k.dropped
    ensures Adds(k, k', 0)
  {
  }

  lemma AddsOn(k: Sketch, k1: Sketch, k2: Sketch, a: nat, b: nat)
    requires Adds(k, k1, a) && Adds(k1, k2, b)
    ensures Adds(k, k2, a + b)
  {
    var m := 0x1_0000_0000;
    var x, y, z := k.logCount + k.dropped, k1.logCount + k1.dropped, k2.logCount + k2.dropped;
    SameRemainder(y + b, x + a + b, y / m - (x + a) / m);
  }

  lemma SameRemainder(a: int, b: int, k: int)
    requires a == b + 0x1_0000_0000 * k
    ensures a % 0x1_0000_0000 == b % 0x1_0000_0000
  {
  }

  lemma AddsOne(k: Sketch, k': Sketch)
    requires (k'.logCount == Inc32(k.logCount) && k'.dropped == k.dropped)
             || (k'.logCount == k.logCount && k'.dropped == Inc32(k.dropped))
    ensures Adds(k, k', 1)
  {
    var m, x := 0x1_0000_0000, k.logCount + k.dropped + 1;
    assert k'.logCount + k'.dropped == x || k'.logCount + k'.dropped == x - m;
    SameRemainder(x - m, x, -1);
  }

  lemma SendAdds(c: Config, k: Sketch, net: Net, logType: byte, payload: seq<byte>)
    ensures Adds(k, Send(c, k, net, logType, payload), 1)
  {
    hide Inc32, Wire.Packet, Adds;
    AddsOne(k, Send(c, k, net, logType, payload));
  }

  lemma DropAdds(k: Sketch)
    ensures Adds(k, Drop(k), 1)
  {
    hide Adds, Inc32;
    AddsOne(k, Drop(k));
  }

  lemma LogAdds(c: Config, k: Sketch, level: Level, text: seq<byte>, time: nat, net: Net)
    ensures Adds(k, Log(c, k, level, text, time, net), |LogAsk(c, k, level, time)|)
  {
    hide Adds, Send, Drop, TextOf, RateLimit.Attempted, RateLimit.Allows, RateLimit.Millis, ReachesLimiter;
    var tried := k.(limiter := RateLimit.Attempted(k.limiter, RateLimit.Millis(time)));
    AddsNothing(k, k);
    AddsNothing(k, tried);
    DropAdds(tried);
    SendAdds(c, tried, net, TYPE_TEXT, TextOf(c, level, text));
    if ReachesLimiter(c, k, level) {
      AddsOn(k, tried, Log(c, k, level, text, time, net), 0, 1);
    }
  }

  lemma SearchAdds(c: Config, k: Sketch, t: Turn)
    requires c.initialised
    ensures Adds(k, Search(c, k, t.begin, t.end, t.found, t.net), |SearchAsks(c, k, t)|)
  {
    var found := k.(finder := k.finder.(active := t.found));
    var text := if t.found then LISTENER_ACTIVE else LISTENER_INACTIVE;
    var logged := Log(c, found, LEVEL_DEBUG, text, t.end, t.net);
    var s := Search(c, k, t.begin, t.end, t.found, t.net);
    LogAdds(c, found, LEVEL_DEBUG, text, t.end, t.net);
    AddsNothing(k, k);
    AddsNothing(k, found);
    AddsNothing(logged, logged.(finder := s.finder));
    hide Adds, Log, ArduinoDiscovery.Due, Wanted;
    var n := |LogAsk(c, found, LEVEL_DEBUG, t.end)|;
    AddsOn(k, found, logged, 0, n);
    AddsOn(k, logged, logged.(finder := s.finder), n, 0);
    if !ArduinoDiscovery.Due(k.finder, RateLimit.Millis(t.begin)) {
    } else if t.found == k.finder.active {
      AddsNothing(k, s);
    }
  }

  lemma ReportAdds(c: Config, k: Sketch, now: word32, record: Record, net: Net)
    requires c.initialised
    ensures Adds(k, Report(c, k, now, record, net), One(ReportsAt(c, k, now)))
  {
    var sent := Send(c, k, net, TYPE_TELEMETRY, record);
    SendAdds(c, k, net, TYPE_TELEMETRY, record);
    AddsNothing(k, k);
    AddsNothing(sent, sent.(lastTelemetry := now));
    hide Adds, Send;
    AddsOn(k, sent, sent.(lastTelemetry := now), 1, 0);
  }

  lemma LoopAdds(c: Config, k: Sketch, t: Turn)
    ensures Adds(k, Loop(c, k, t), Messages(c, k, LoopCall(t)))
  {
    var s := Search(c, k, t.begin, t.end, t.found, t.net);
    AddsNothing(k, k);
    hide Adds, Search, SearchAsks, Report, ReportsAt;
    if c.initialised {
      SearchAdds(c, k, t);
      ReportAdds(c, s, RateLimit.Millis(t.begin), t.record, t.recordNet);
      AddsOn(k, s, Loop(c, k, t), |SearchAsks(c, k, t)|, One(ReportsAt(c, s, RateLimit.Millis(t.begin))));
    } else {
      NoSearch(c, k, t);
    }
  }

  lemma CrashAdds(c: Config, k: Sketch, crash: Option<Crash>)
    ensures Adds(k, CheckCrash(c, k, crash), Messages(c, k, CrashCheck(crash)))
  {
    AddsNothing(k, k);
    if c.initialised && c.crashLogging && crash.Some? {
      var x := crash.value;
      var told := Write(c, k, LEVEL_ERROR, x.line);
      var sent := CrashRecord(c, told, x);
      LogAdds(c, k, LEVEL_ERROR, x.line.text, x.line.time, x.line.net);
      LogAsks(c, k, LEVEL_ERROR, x.line.text, x.line.time, x.line.net);
      AddsNothing(told, told);
      SendAdds(c, told, x.recordNet, TYPE_EXCEPTION, x.record);
      SendAsksNothing(c, told, x.recordNet, TYPE_EXCEPTION, x.record);
      hide Adds, Follows, Log, Send, Wanted;
      var n := |LogAsk(c, k, LEVEL_ERROR, x.line.time)|;
      AddsOn(k, told, sent, n, One(k.finder.active));
      match x.count
      case None =>
      case Some(line) =>
        LogAdds(c, sent, LEVEL_WARN, line.text, line.time, line.net);
        assert LogAsk(c, sent, LEVEL_WARN, line.time) == LogAsk(c, k, LEVEL_WARN, line.time);
        AddsOn(k, sent, Write(c, sent, LEVEL_WARN, line), n + One(k.finder.active), |LogAsk(c, k, LEVEL_WARN, line.time)|);
    }
  }

  lemma StepAdds(c: Config, k: Sketch, op: Op)
    ensures Adds(k, Step(c, k, op), Messages(c, k, op))
  {
    AddsNothing(k, Step(c, k, Force));
    AddsNothing(k, Step(c, k, ResetLimit));
    AddsNothing(k, k);
    match op
    case Text(level, text, time, net) => LogAdds(c, k, level, text, time, net); hide Log, Adds, LogAsk;
    case IntegerMetric(name, number, net) => SendAdds(c, k, net, TYPE_METRIC, IntMetricBytes(name, number)); hide Send, Adds;
    case StringMetric(name, value, net) => SendAdds(c, k, net, TYPE_METRIC, StringMetricBytes(name, value)); hide Send, Adds;
    case LoopCall(turn) => LoopAdds(c, k, turn); hide Loop, Messages, Adds;
    case Telemetry(record, net) => SendAdds(c, k, net, TYPE_TELEMETRY, record); hide Send, Adds;
    case CrashCheck(crash) => CrashAdds(c, k, crash); hide CheckCrash, Messages, Adds;
    case EnableCrashes(_, line) => LogAdds(c, k, LEVEL_INFO, line.text, line.time, line.net); hide Log, Adds, LogAsk;
    case _ => hide Adds;
  }

  /** Modulo 2^32 the two counters add up to the messages that got past the filters, texts, metrics
      and records: each of them was counted once, as sent or as dropped. */
  lemma {:induction false} EveryMessageCounted(c: Config, ops: seq<Op>)
    ensures Adds(BOOT, Run(c, BOOT, ops), Counted(c, ops))
  {
    hide Step, Messages, Adds;
    if ops == [] {
      AddsNothing(BOOT, BOOT);
    } else {
      var front := ops[..|ops| - 1];
      EveryMessageCounted(c, front);
      var k := Run(c, BOOT, front);
      StepAdds(ConfigAfter(c, front), k, ops[|ops| - 1]);
      AddsOn(BOOT, k, Run(c, BOOT, ops), Counted(c, front), Messages(ConfigAfter(c, front), k, ops[|ops| - 1]));
    }
  }
}

/** The class, field by field and method by method. */
module ArduinoDevice {
  import opened Words
  import opened Wire
  import opened Payloads
  import RateLimit
  import Backoff
  import ArduinoDiscovery
  import opened Arduino
  import SketchRuns

  class EspIotLog {
    const platform: Platform
    const deviceId: word64
    var initialised: bool
    var listenerActive: bool
    var logLevel: byte
    var logMask: byte
    var telemetryFlags: byte
    var crashLogging: bool
    var lastDiscovery: word32
    var currentInterval: word32
    var lastTelemetry: word32
    var logCount: word32
    var droppedCount: word32
    var rateLimitWindowStart: word32
    var rateLimitCount: word16
    var rateLimitDropped: word32
    ghost var wire: seq<Datagram>

    ghost function Cfg(): Config
      reads this
    {
      Config(platform, deviceId, initialised, logLevel, logMask, telemetryFlags != 0, crashLogging)
    }

    ghost function State(): Sketch
      reads this
    {
      Sketch(ArduinoDiscovery.Finder(listenerActive, lastDiscovery, currentInterval),
             RateLimit.Limiter(rateLimitWindowStart, rateLimitCount, rateLimitDropped), lastTelemetry, logCount,
             droppedCount, wire)
    }

    constructor (platform: Platform, id: word64)
      ensures Cfg() == Config(platform, id, false, 3, 0xFF, false, false) && State() == BOOT
      ensures State() == Sketch(ArduinoDiscovery.Finder(false, 0, 0), RateLimit.Limiter(0, 0, 0), 0, 0, 0, [])
    {
      this.platform, deviceId := platform, id;
      initialised, listenerActive, logLevel, logMask := false, false, 3, 0xFF;
      telemetryFlags, crashLogging := 0, false;
      lastDiscovery, currentInterval, lastTelemetry := 0, 0, 0;
      logCount, droppedCount := 0, 0;
      rateLimitWindowStart, rateLimitCount, rateLimitDropped := 0, 0, 0;
      wire := [];
    }

    method SendLogMessage(net: Net, logType: byte, payload: seq<byte>) returns (ok: bool)
      modifies `logCount, `droppedCount, `wire
      ensures State() == Send(Cfg(), old(State()), net, logType, payload)
      ensures ok == (logCount != old(logCount))
    {
      hide Wire.Packet;
      if !initialised || !listenerActive {
        droppedCount := Inc32(droppedCount);
        return false;
      }
      var totalSize := HEADER_SIZE + |payload| + 2;
      if totalSize > 1024 {
        droppedCount := Inc32(droppedCount);
        return false;
      }
      var packet, total := SerialiseArduino(deviceId, net.clock % 0x1_0000_0000, logType, payload);
      wire := wire + [Datagram(logType, packet[..total])];
      if net.ended && net.written == total {
        logCount := Inc32(logCount);
        return true;
      } else {
        droppedCount := Inc32(droppedCount);
        return false;
      }
    }

    method FormatLogMessage(level: Level, message: seq<byte>, net: Net)
      modifies `logCount, `droppedCount, `wire
      ensures State() == if !listenerActive then old(State())
                         else Send(Cfg(), old(State()), net, TYPE_TEXT, TextOf(Cfg(), level, message))
    {
      if !listenerActive {
        return;
      }
      var length := |message|;
      if length > MaxMessage(platform) - 1 {
        length := MaxMessage(platform) - 1;
      }
      assert [level] + message[..length] == TextOf(Cfg(), level, message);
      hide Send;
      var _ := SendLogMessage(net, TYPE_TEXT, [level] + message[..length]);
    }

    /** The rate-limiting block of `logf`. */
    method PassRateLimit(time: nat) returns (pass: bool)
      modifies `droppedCount, `rateLimitWindowStart, `rateLimitCount, `rateLimitDropped
      ensures pass == RateLimit.Allows(old(State()).limiter, RateLimit.Millis(time))
      ensures var tried := old(State()).(limiter := RateLimit.Attempted(old(State()).limiter, RateLimit.Millis(time)));
              State() == if pass then tried else Drop(tried)
    {
      var now := RateLimit.Millis(time);
      var window := now / 1000;
      if window != rateLimitWindowStart / 1000 {
        rateLimitWindowStart := now;
        rateLimitCount := 0;
      }
      if rateLimitCount >= RateLimit.MAX_LOGS {
        rateLimitDropped := Inc32(rateLimitDropped);
        droppedCount := Inc32(droppedCount);
        return false;
      }
      rateLimitCount := rateLimitCount + 1;
      return true;
    }

    /** `logf`: the level filters, the rate limit, and the formatter, which leaves at most two
        bytes less than the buffer holds. */
    method Logf(level: Level, text: seq<byte>, time: nat, net: Net)
      modifies `logCount, `droppedCount, `wire, `rateLimitWindowStart, `rateLimitCount, `rateLimitDropped
      ensures State() == Arduino.Log(Cfg(), old(State()), level, text, time, net)
    {
      if !initialised || logLevel < level {
        return;
      }
      var levelMask := Pow2(level - 1);
      if logMask / levelMask % 2 == 0 {
        return;
      }
      assert Wanted(Cfg(), level);
      if !listenerActive {
        return;
      }
      hide Send, Wanted, RateLimit.Attempted, RateLimit.Allows, RateLimit.Millis;
      var pass := PassRateLimit(time);
      if !pass {
        return;
      }
      var buffer := Cut(text, FormatBuffer(platform) - 2);
      assert TextOf(Cfg(), level, buffer) == TextOf(Cfg(), level, text);
      FormatLogMessage(level, buffer, net);
    }

    method LogIntMetric(name: seq<byte>, value: int32, net: Net)
      modifies `logCount, `droppedCount, `wire
      ensures State() == Arduino.Metric(Cfg(), old(State()), name, IntMetricBytes(name, value), net)
    {
      if !initialised || !listenerActive {
        return;
      }
      if name == [] {
        return;
      }
      hide Send;
      var payload, length := FillIntMetric(name, value);
      var _ := SendLogMessage(net, TYPE_METRIC, payload[..length]);
    }

    method LogStringMetric(name: seq<byte>, value: seq<byte>, net: Net)
      modifies `logCount, `droppedCount, `wire
      ensures State() == Arduino.Metric(Cfg(), old(State()), name, StringMetricBytes(name, value), net)
    {
      if !initialised || !listenerActive {
        return;
      }
      if name == [] {
        return;
      }
      hide Send;
      var payload, length := FillStringMetric(name, value);
      var _ := SendLogMessage(net, TYPE_METRIC, payload[..length]);
    }

    method ForceDiscovery()
      modifies `lastDiscovery, `currentInterval
      ensures State() == old(State()).(finder := ArduinoDiscovery.Forced(old(State()).finder))
      ensures State() == old(State()).(finder := old(State()).finder.(last := 0, interval := 0))
    {
      lastDiscovery := 0;
      currentInterval := 0;
    }

    method ResetRateLimit()
      modifies `rateLimitWindowStart, `rateLimitCount, `rateLimitDropped
      ensures State() == old(State()).(limiter := RateLimit.FRESH) == old(State()).(limiter := RateLimit.Limiter(0, 0, 0))
    {
      rateLimitWindowStart := 0;
      rateLimitCount := 0;
      rateLimitDropped := 0;
    }

    /** The query's answer and the clock when it is logged are readings. */
    method DiscoverListener(answers: int, end: nat, net: Net) returns (found: bool)
      modifies `listenerActive, `logCount, `droppedCount, `wire,
        `rateLimitWindowStart, `rateLimitCount, `rateLimitDropped
      ensures found == (answers > 0) && listenerActive == found
      ensures State() == Discover(Cfg(), old(State()), found, end, net)
    {
      found := answers > 0;
      if found != listenerActive {
        listenerActive := found;
        hide Arduino.Log;
        ghost var changed := State();
        if found {
          Logf(LEVEL_DEBUG, LISTENER_ACTIVE, end, net);
        } else {
          Logf(LEVEL_DEBUG, LISTENER_INACTIVE, end, net);
        }
        assert changed == old(State()).(finder := old(State()).finder.(active := found));
      }
    }

    method SendTelemetry(record: Record, net: Net)
      modifies `logCount, `droppedCount, `wire
      ensures State() == Telemeter(Cfg(), old(State()), record, net)
    {
      if !initialised || !listenerActive || telemetryFlags == 0 {
        return;
      }
      hide Send;
      var _ := SendLogMessage(net, TYPE_TELEMETRY, record);
    }

    /** The parameter is a uint8_t: of the flags given, the low eight bits are kept. */
    method EnableSystemTelemetry(flags: nat)
      modifies `telemetryFlags
      ensures State() == old(State()) && Cfg() == SketchRuns.Configured(old(Cfg()), SketchRuns.EnableTelemetry(flags))
      ensures Cfg().telemetry <==> flags % 256 != 0
    {
      telemetryFlags := flags % 256;
    }

    method SetLogLevel(level: byte)
      modifies `logLevel
      ensures State() == old(State()) && Cfg() == SketchRuns.Configured(old(Cfg()), SketchRuns.SetLevel(level))
    {
      logLevel := level;
    }

    method SetLogMask(mask: byte)
      modifies `logMask
      ensures State() == old(State()) && Cfg() == SketchRuns.Configured(old(Cfg()), SketchRuns.SetMask(mask))
    {
      logMask := mask;
    }

    method SearchListener(begin: nat, answers: int, end: nat, net: Net)
      requires initialised
      modifies `listenerActive, `lastDiscovery, `currentInterval, `logCount, `droppedCount, `wire,
        `rateLimitWindowStart, `rateLimitCount, `rateLimitDropped
      ensures State() == Search(Cfg(), old(State()), begin, end, answers > 0, net)
    {
      var now := RateLimit.Millis(begin);
      var effective := if listenerActive then Backoff.MAX_INTERVAL else currentInterval;
      if (now - lastDiscovery) % 0x1_0000_0000 >= effective {
        assert ArduinoDiscovery.Due(State().finder, now);
        hide ArduinoDiscovery.Due, Discover;
        var found := DiscoverListener(answers, end, net);
        lastDiscovery := now;
        if found {
          currentInterval := Backoff.MIN_INTERVAL;
        } else {
          var doubled := currentInterval * 2 % 0x1_0000_0000;
          currentInterval := if doubled < Backoff.MAX_INTERVAL then doubled else Backoff.MAX_INTERVAL;
          if currentInterval < Backoff.MIN_INTERVAL {
            currentInterval := Backoff.MIN_INTERVAL;
          }
        }
      }
    }

    method Loop(begin: nat, answers: int, end: nat, net: Net, record: Record, recordNet: Net)
      modifies `listenerActive, `lastDiscovery, `currentInterval, `lastTelemetry, `logCount, `droppedCount, `wire,
        `rateLimitWindowStart, `rateLimitCount, `rateLimitDropped
      ensures State() == Arduino.Loop(Cfg(), old(State()), Turn(begin, end, answers > 0, net, record, recordNet))
    {
      if !initialised {
        return;
      }
      hide Search, Report;
      SearchListener(begin, answers, end, net);
      ReportTelemetry(RateLimit.Millis(begin), record, recordNet);
    }

    method ReportTelemetry(now: word32, record: Record, net: Net)
      requires initialised
      modifies `lastTelemetry, `logCount, `droppedCount, `wire
      ensures State() == Report(Cfg(), old(State()), now, record, net)
    {
      hide Telemeter;
      if listenerActive && telemetryFlags != 0 && (now - lastTelemetry) % 0x1_0000_0000 >= TELEMETRY_INTERVAL {
        SendTelemetry(record, net);
        lastTelemetry := now;
      }
    }

    method SendCrashRecord(crash: Crash)
      modifies `logCount, `droppedCount, `wire
      ensures State() == CrashRecord(Cfg(), old(State()), crash)
    {
      if listenerActive {
        hide Send;
        var _ := SendLogMessage(crash.recordNet, TYPE_EXCEPTION, crash.record);
      }
    }

    method CheckAndLogCrashes(found: Option<Crash>)
      modifies `logCount, `droppedCount, `wire, `rateLimitWindowStart, `rateLimitCount, `rateLimitDropped
      ensures State() == CheckCrash(Cfg(), old(State()), found)
    {
      if !initialised || !crashLogging {
        return;
      }
      if found.Some? {
        hide Arduino.Log, CrashRecord;
        var crash := found.value;
        Logf(LEVEL_ERROR, crash.line.text, crash.line.time, crash.line.net);
        SendCrashRecord(crash);
        if crash.count.Some? {
          Logf(LEVEL_WARN, crash.count.value.text, crash.count.value.time, crash.count.value.net);
        }
      }
    }

    /** enableCrashLogging, the platform's handler aside. */
    method EnableCrashLogging(enable: bool, line: Line)
      modifies `crashLogging, `logCount, `droppedCount, `wire, `rateLimitWindowStart, `rateLimitCount, `rateLimitDropped
      ensures Cfg() == SketchRuns.Configured(old(Cfg()), SketchRuns.EnableCrashes(enable, line))
      ensures State() == SketchRuns.Step(old(Cfg()), old(State()), SketchRuns.EnableCrashes(enable, line))
    {
      crashLogging := enable;
      hide Arduino.Log;
      ghost var before := State();
      Logf(LEVEL_INFO, line.text, line.time, line.net);
    }

    /** `begin()` once more is a success and changes nothing. Otherwise it needs a valid address, mDNS
        running or started, and a socket; it then greets and reports a crash of the run before. */
    method Begin(level: byte, addressValid: bool, mdnsRunning: bool, mdnsStarts: bool, socketOpens: bool,
                 greeting: Line, crash: Option<Crash>) returns (ok: bool)
      modifies `initialised, `logLevel, `logCount, `droppedCount, `wire,
        `rateLimitWindowStart, `rateLimitCount, `rateLimitDropped
      ensures ok == initialised == (old(initialised) || (addressValid && (mdnsRunning || mdnsStarts) && socketOpens))
      ensures logLevel == if old(initialised) then old(logLevel) else level
      ensures State() == if old(initialised) || !ok then old(State())
                         else CheckCrash(Cfg(), Write(Cfg(), old(State()), LEVEL_INFO, greeting), crash)
    {
      if initialised {
        return true;
      }
      logLevel := level;
      if !addressValid {
        return false;
      }
      if !mdnsRunning && !mdnsStarts {
        return false;
      }
      if !socketOpens {
        return false;
      }
      initialised := true;
      hide Arduino.Log, CheckCrash;
      ghost var before := State();
      Logf(LEVEL_INFO, greeting.text, greeting.time, greeting.net);
      CheckAndLogCrashes(crash);
      ok := true;
    }
  }
}
