/** The device engine `SendUsk1Protocol` as a state machine over values: one
    function per slot or public operation, each mapping the engine state
    (and the event's input) to the next state. Frames written to the serial
    port and signals emitted are logged in the state, in order. */
module Protocol {
  import opened Bytes
  import opened Outgoing
  import opened Incoming
  import Signals

  const WaitForRemainingDataTimeout: nat := 250
  const WaitResponseTimeout: nat := 1500
  const SendTimePeriod: nat := 60000
  const CheckOutgoingPeriod: nat := 200
  const DefaultAttempts: int := 3
  const AckLength: nat := 5
  const FrameLength: nat := 26

  /** A `QTimer`: stopped, or running with an interval in milliseconds. */
  datatype Timer = Stopped | Running(interval: nat)

  /** `States`; the last two are declared but nothing enters them. */
  datatype UskState = WaitData | WaitResponse | WaitIncomingCommand | WaitTime

  /** `m_serialPort`: null, or a port object that is open or not. */
  datatype PortHandle = NoPort | Port(isOpen: bool)

  /** The engine's fields, plus the frames written and the signals emitted. */
  datatype Engine = Engine(
    port: PortHandle,
    uskNum: int,
    attempts: int,
    buffer: seq<byte>,
    queue: seq<OutgoingCommand>,
    current: Option<OutgoingCommand>,
    state: UskState,
    present: bool,
    firstUse: bool,
    timer: Timer,
    checkTimer: Timer,
    sendTimeTimer: Timer,
    written: seq<seq<byte>>,
    events: seq<Signals.Event>)

  /** The constructor: idle, no port, three attempts per command. The device
      number and the two flags are not initialised by the constructor; they
      start here as 0 and false. */
  function Initial(): (e: Engine)
    ensures e.port == NoPort && e.state == WaitData && e.current.None? && e.attempts == DefaultAttempts
  {
    Engine(NoPort, 0, DefaultAttempts, [], [], None, WaitData, false, false,
           Stopped, Stopped, Stopped, [], [])
  }

  /** Whether a command's `sendCommand` reaches an open port. */
  predicate PortOpen(e: Engine)
  {
    e.port == Port(true)
  }

  /** `getUskStatus`: closed only while there is no port object. */
  function Status(e: Engine): (s: Signals.UskStatus)
    ensures s == Signals.Closed <==> e.port.NoPort?
    ensures s == Signals.Present <==> e.port.Port? && e.present
  {
    if e.port.NoPort? then Signals.Closed
    else if e.present then Signals.Present
    else Signals.Missing
  }

  /** The five request operations: a new command capturing the current port
      handle, device number and attempt count goes to the back of the queue. */
  function Enqueue(e: Engine, p: Payload): (r: Engine)
    ensures |r.queue| == |e.queue| + 1 && r.queue[..|e.queue|] == e.queue
    ensures r.queue[|e.queue|].payload == p && r.queue[|e.queue|].attempts == e.attempts
    ensures r.queue[|e.queue|].isFirstAttempt
    ensures r.(queue := e.queue) == e
  {
    e.(queue := e.queue + [NewCommand(p, e.uskNum, e.attempts, e.port.Port?)])
  }

  /** `openUsk`: a no-op reporting success while a port object exists;
      otherwise creates one (resetting both flags), opens and configures it.
      `openOk` and `configOk` stand for what the port reports. */
  function Open(e: Engine, openOk: bool, configOk: bool, now: DateTime): (r: (Engine, bool))
    ensures e.port.Port? ==> r == (e, true)
    ensures e.port.NoPort? ==> (r.1 <==> openOk && configOk)
    ensures e.port.NoPort? ==> (PortOpen(r.0) <==> r.1) && r.0.firstUse && !r.0.present
    ensures e.port.NoPort? ==> (r.0.port.NoPort? <==> openOk && !configOk)
    ensures e.events <= r.0.events && r.0.written == e.written
  {
    if e.port.Port? then (e, true)
    else
      var created := e.(port := Port(false), firstUse := true, present := false);
      if !openOk then (created, false)
      else if configOk then (Configured(created, now).(buffer := []), true)
      else (Unconfigured(created).(buffer := []), false)
  }

  /** A port that opened and took its settings: reported open, the two
      periodic timers started and the clock queued. */
  function Configured(e: Engine, now: DateTime): Engine
  {
    Enqueue(e.(port := Port(true), events := e.events + [Signals.PortIsOpen],
               checkTimer := Running(CheckOutgoingPeriod), sendTimeTimer := Running(SendTimePeriod)),
            SendTime(now))
  }

  /** A port that opened but refused its settings: the error is reported and
      the port object deleted. */
  function Unconfigured(e: Engine): Engine
  {
    e.(port := NoPort, events := e.events + [Signals.Error(Signals.ErrorOpenPort)])
  }

  /** `closeUsk`: stops the three timers and closes the port; the handle is
      not reset, so the engine keeps a (closed) port object. */
  function Close(e: Engine): (r: Engine)
    ensures !PortOpen(r) && (r.port.NoPort? <==> e.port.NoPort?)
    ensures r.timer.Stopped? && r.checkTimer.Stopped? && r.sendTimeTimer.Stopped?
    ensures r.queue == e.queue && r.current == e.current && r.written == e.written
    ensures e.events <= r.events
  {
    var s := StopTimers(e);
    if s.port.NoPort? then s
    else s.(port := Port(false), events := s.events + [Signals.PortIsClose])
  }

  /** The three timers stop. */
  function StopTimers(e: Engine): Engine
  {
    e.(timer := Stopped, checkTimer := Stopped, sendTimeTimer := Stopped)
  }

  /** `emitUskIsPresent`: reports the flag with the first-use marker, which
      is then cleared. */
  function EmitPresent(e: Engine, isPresent: bool): Engine
  {
    e.(events := e.events + [Signals.UskIsPresent(isPresent, e.firstUse)], firstUse := false)
  }

  /** What one `sendCommand` of `c` writes: its frame when the command holds
      a port and the engine's port is open. */
  function Written(c: OutgoingCommand, portOpen: bool): seq<seq<byte>>
  {
    if Transmits(c, portOpen) then [c.Packet()] else []
  }

  /** The guard of `checkOutgoingBuffer`. */
  predicate CanDispatch(e: Engine)
  {
    e.state == WaitData && e.buffer == [] && e.current.None? && e.queue != []
  }

  /** The signal that a command's first attempt starts, for the payloads
      that ask for one. */
  function Starting(c: OutgoingCommand): seq<Signals.Event>
  {
    if c.NeedToInformAboutStartSending() && c.isFirstAttempt
    then [Signals.StartSendingCommand(c.payload)] else []
  }

  /** `checkOutgoingBuffer`: when idle with nothing received, sends the head
      of the queue and waits for its response. */
  function CheckOutgoingBuffer(e: Engine): (r: Engine)
    ensures !CanDispatch(e) ==> r == e
    ensures CanDispatch(e) ==>
      && r.queue == e.queue[1..] && r.state == WaitResponse
      && r.current.Some? && r.current.value.payload == e.queue[0].payload
    ensures e.written <= r.written && |r.written| <= |e.written| + 1 && e.events <= r.events
  {
    if !CanDispatch(e) then e
    else
      var c := e.queue[0];
      e.(queue := e.queue[1..], current := Some(AfterSend(c, PortOpen(e))),
         written := e.written + Written(c, PortOpen(e)),
         events := e.events + Starting(c),
         state := WaitResponse, timer := Running(WaitResponseTimeout))
  }

  /** The signals of the command the factory builds for one frame. */
  function FrameEvents(packet: seq<byte>): seq<Signals.Event>
  {
    match Classify(packet)
    case None => []
    case Some(k) =>
      match Accepts(k, packet)
      case None => []
      case Some(d) => InformEvents(d)
  }

  /** What the idle loop reports for a run of whole frames: the signals, and
      the first-use flag afterwards. */
  datatype FramesReport = FramesReport(events: seq<Signals.Event>, firstUse: bool)

  /** One pass of the idle loop over a frame with signals `frameEvents`:
      they are reported, and a correct frame also reports the device present
      while the flag is false; the loop never sets that flag. */
  function NextReport(r: FramesReport, frameEvents: seq<Signals.Event>, correct: bool, present: bool): FramesReport
  {
    var evs := r.events + frameEvents;
    if !present && correct
    then FramesReport(evs + [Signals.UskIsPresent(true, r.firstUse)], false)
    else FramesReport(evs, r.firstUse)
  }

  /** The loop of the idle branch of `parseIncomingData`: while a whole
      26-byte frame is at the front of `b`, it is classified and reported
      after what `r` already holds. */
  function ScanReport(b: seq<byte>, present: bool, r: FramesReport): (r': FramesReport)
    ensures r.events <= r'.events
    ensures r'.firstUse ==> r.firstUse
    decreases |b|
  {
    if |b| < FrameLength then r
    else
      var packet := b[..FrameLength];
      ScanReport(b[FrameLength..], present, NextReport(r, FrameEvents(packet), IsCorrectPacket(packet), present))
  }

  /** What the idle loop leaves in the buffer: less than a frame. */
  function Leftover(b: seq<byte>): (rest: seq<byte>)
    ensures |rest| < FrameLength
    decreases |b|
  {
    if |b| < FrameLength then b else Leftover(b[FrameLength..])
  }

  /** The idle branch of `parseIncomingData`: whole frames are consumed and
      reported; when less than a frame is left over, the short wait starts. */
  function IdleParse(e: Engine): (r: Engine)
    ensures r.state == WaitData && |r.buffer| < FrameLength
    ensures e.events <= r.events && (r.firstUse ==> e.firstUse)
  {
    var r := ScanReport(e.buffer, e.present, FramesReport([], e.firstUse));
    var rest := Leftover(e.buffer);
    e.(state := WaitData, buffer := rest, events := e.events + r.events, firstUse := r.firstUse,
       timer := if rest != [] then Running(WaitForRemainingDataTimeout) else e.timer)
  }

  /** The signals of a five-byte response: a checksum error, the command's
      acceptance, and the device's presence if it was marked missing. */
  function AckEvents(ack: seq<byte>, current: Option<OutgoingCommand>, present: bool, firstUse: bool): seq<Signals.Event>
    requires |ack| == AckLength
  {
    (if Checksum(ack[..4]) != ack[4] then [Signals.Error(Signals.ErrorUskWrongPacket)] else [])
    + (if current.Some? && current.value.NeedToInformAboutStartSending()
       then [Signals.CommandAccepted(current.value.payload)] else [])
    + (if !present then [Signals.UskIsPresent(true, firstUse)] else [])
  }

  /** The response branch of `parseIncomingData` once five bytes are there:
      the command is done and the device is present. */
  function TakeAck(e: Engine): Engine
    requires |e.buffer| >= AckLength
  {
    Acknowledge(e.(state := WaitData, buffer := e.buffer[AckLength..]), e.buffer[..AckLength])
  }

  /** The signals of the response `ack` are reported; the command is done
      and the device is present. */
  function Acknowledge(e: Engine, ack: seq<byte>): Engine
    requires |ack| == AckLength
  {
    e.(events := e.events + AckEvents(ack, e.current, e.present, e.firstUse),
       firstUse := e.present && e.firstUse, present := true, current := None)
  }

  /** `parseIncomingData`. */
  function ParseIncoming(e: Engine): (r: Engine)
    ensures e.events <= r.events && (r.firstUse ==> e.firstUse)
    ensures r.written == e.written && r.queue == e.queue && r.port == e.port
  {
    if e.state != WaitResponse then IdleParse(e)
    else if |e.buffer| < AckLength then e.(timer := Running(WaitForRemainingDataTimeout))
    else
      var e1 := TakeAck(e);
      if e1.buffer != [] then IdleParse(e1) else e1
  }

  /** `onReadyRead`: the response timer stops and the bytes read are parsed. */
  function ReadyRead(e: Engine, data: seq<byte>): Engine
  {
    ParseIncoming(e.(timer := Stopped, buffer := e.buffer + data))
  }

  /** `onTimerTimeout`: the timer stops; an idle wait drops the partial
      data, a response wait reports the device missing and then sends the
      command again while it has attempts left, otherwise gives it up. */
  function TimerTimeout(e: Engine): (r: Engine)
    ensures e.events <= r.events && e.written <= r.written
    ensures r.queue == e.queue && r.port == e.port
    ensures e.state == WaitResponse ==> !r.present && !r.firstUse && r.buffer == []
    ensures e.state != WaitResponse ==> r.state == WaitData && r.current == e.current && r.written == e.written
  {
    var s := e.(timer := Stopped);
    match e.state
    case WaitData =>
      s.(events := s.events + [Signals.Error(Signals.ErrorTimeoutWhileWaitData)], buffer := [])
    case WaitIncomingCommand => s.(state := WaitData)
    case WaitTime => s.(state := WaitData)
    case WaitResponse => ResponseTimedOut(s)
  }

  /** The response branch of `onTimerTimeout`. */
  function ResponseTimedOut(e: Engine): (r: Engine)
    ensures !r.present && !r.firstUse && r.buffer == []
    ensures |e.events| + 2 <= |r.events| && e.events <= r.events
    ensures e.written <= r.written && |r.written| <= |e.written| + 1
    ensures r.queue == e.queue && r.port == e.port
  {
    var m := ReportMissing(e);
    if m.current.Some? && m.current.value.IsAnotherAttemptPresent() then Resend(m) else GiveUp(m)
  }

  /** How a response wait failed: no byte arrived, or too few. */
  function ResponseError(buffer: seq<byte>): Signals.ErrorCode
  {
    if buffer == [] then Signals.ErrorUskIsntResponse else Signals.ErrorTimeoutWhileWaitResponse
  }

  /** A response wait timed out: the error says how, the device is marked
      and reported missing, and the partial response is dropped. */
  function ReportMissing(e: Engine): Engine
  {
    e.(events := e.events + [Signals.Error(ResponseError(e.buffer)), Signals.UskIsPresent(false, e.firstUse)],
       present := false, firstUse := false, buffer := [])
  }

  /** The current command has attempts left: it is sent again and the
      response wait restarts. */
  function Resend(e: Engine): Engine
    requires e.current.Some?
  {
    var c := e.current.value;
    e.(current := Some(AfterSend(c, PortOpen(e))), written := e.written + Written(c, PortOpen(e)),
       timer := Running(WaitResponseTimeout))
  }

  /** No attempt is left, or no command is current: the command is given up,
      with a signal when its payload asks for one, and the engine is idle. */
  function GiveUp(e: Engine): Engine
  {
    e.(events := e.events + (if e.current.Some? && e.current.value.NeedToInformAboutStartSending()
                             then [Signals.ErrorOnSendingCommand(e.current.value.payload)] else []),
       current := None, state := WaitData)
  }

  /** `onSendTimeTimeout`: queues the clock. */
  function SendTimeTimeout(e: Engine, now: DateTime): Engine
  {
    Enqueue(e, SendTime(now))
  }

  /** What can happen to an engine: a call from its owner, bytes from the
      port, or one of its timers firing. */
  datatype Input =
    | OpenPort(openOk: bool, configOk: bool, now: DateTime)
    | ClosePort
    | SetAttempts(count: int)
    | Request(payload: Payload)
    | DataArrived(data: seq<byte>)
    | TimerFired
    | CheckTimerFired
    | SendTimeFired(now: DateTime)

  /** One event: `setAttemptsCount` and the request operations are direct
      calls; a timer fires only while it runs, and bytes arrive only from an
      open port (`readyRead` is connected when the port opens). */
  function Step(e: Engine, i: Input): (r: Engine)
    ensures e.events <= r.events && e.written <= r.written
  {
    match i
    case OpenPort(openOk, configOk, now) => Open(e, openOk, configOk, now).0
    case ClosePort => Close(e)
    case SetAttempts(n) => e.(attempts := n)
    case Request(p) => Enqueue(e, p)
    case DataArrived(data) => if PortOpen(e) then ReadyRead(e, data) else e
    case TimerFired => OnTimer(e)
    case CheckTimerFired => if e.checkTimer.Running? then CheckOutgoingBuffer(e) else e
    case SendTimeFired(now) => if e.sendTimeTimer.Running? then SendTimeTimeout(e, now) else e
  }

  /** The response timer fires, if it runs. */
  function OnTimer(e: Engine): Engine
  {
    if e.timer.Running? then TimerTimeout(e) else e
  }

  function Run(e: Engine, inputs: seq<Input>): (r: Engine)
    ensures e.events <= r.events && e.written <= r.written
    decreases |inputs|
  {
    if inputs == [] then e else Run(Step(e, inputs[0]), inputs[1..])
  }

  /** The response timer firing `n` times with nothing else happening. */
  function Timeouts(e: Engine, n: nat): Engine
    decreases n
  {
    if n == 0 then e else Timeouts(OnTimer(e), n - 1)
  }
}
