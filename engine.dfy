/** The objects of the device engine: `Usk1OutgoingCommand`, whose `sendCommand`
    updates its attempt counters in place, and `SendUsk1Protocol`, whose slots
    update the engine's fields. Every method is proved against the state
    machine of module Protocol through an abstraction function. */
module SendUsk1 {
  import opened Bytes
  import opened Outgoing
  import opened Incoming
  import opened Protocol
  import Signals
  import IncomingCommands

  /** A queued command. Its payload, device number and port are fixed at
      creation; the attempt counters change with each send. */
  class Usk1OutgoingCommand {
    const payload: Payload
    const uskNumber: int
    const portBound: bool
    var attempts: int
    var isFirstAttempt: bool

    /** The command as a value. */
    function Value(): OutgoingCommand
      reads this
    {
      OutgoingCommand(payload, uskNumber, attempts, isFirstAttempt, portBound)
    }

    /** The constructor: all attempts left, the first one still to come. */
    constructor(payload: Payload, uskNumber: int, attempts: int, portBound: bool)
      ensures Value() == NewCommand(payload, uskNumber, attempts, portBound)
    {
      this.payload := payload;
      this.uskNumber := uskNumber;
      this.portBound := portBound;
      this.attempts := attempts;
      isFirstAttempt := true;
    }

    /** The object of a queued command as it is taken from the queue. */
    constructor FromValue(c: OutgoingCommand)
      ensures Value() == c
    {
      payload, uskNumber, portBound := c.payload, c.uskNumber, c.portBound;
      attempts, isFirstAttempt := c.attempts, c.isFirstAttempt;
    }

    /** `sendCommand`: no longer a first attempt; when the captured port is
        open, one attempt is used up and the frame is written. */
    method SendCommand(portOpen: bool) returns (frames: seq<seq<byte>>)
      modifies this
      ensures Value() == AfterSend(old(Value()), portOpen)
      ensures frames == Written(old(Value()), portOpen)
    {
      isFirstAttempt := false;
      frames := [];
      if portBound && portOpen {
        attempts := attempts - 1;
        frames := [OutgoingBinaryPacket(payload, uskNumber)];
      }
    }
  }

  class SendUsk1Protocol {
    var port: PortHandle
    var uskNum: int
    var attempts: int
    var buffer: seq<byte>
    var queue: seq<OutgoingCommand>
    var current: Usk1OutgoingCommand?
    var state: UskState
    var present: bool
    var firstUse: bool
    var timer: Timer
    var checkTimer: Timer
    var sendTimeTimer: Timer
    /** The frames written to the port and the signals emitted, in order. */
    var written: seq<seq<byte>>
    var events: seq<Signals.Event>
    const factory: IncomingCommands.IncomingCommandFactory

    /** The factory holds the standard registrations. */
    ghost predicate Valid()
      reads factory
    {
      && EvaluationOrder(factory.functions) == StandardOrder
    }

    /** The engine as a value. */
    function Abs(): Engine
      reads this, current
    {
      Engine(port, uskNum, attempts, buffer, queue,
             if current == null then None else Some(current.Value()),
             state, present, firstUse, timer, checkTimer, sendTimeTimer, written, events)
    }

    /** The constructor: no port, idle, three attempts per command, and the
        factory with its nine registrations. */
    constructor()
      ensures Valid() && Abs() == Initial()
    {
      port := NoPort;
      uskNum := 0;
      attempts := DefaultAttempts;
      buffer := [];
      queue := [];
      current := null;
      state := WaitData;
      present := false;
      firstUse := false;
      timer, checkTimer, sendTimeTimer := Stopped, Stopped, Stopped;
      written := [];
      events := [];
      factory := new IncomingCommands.IncomingCommandFactory();
      new;
      StandardRegistryOrder();
    }

    method GetUskStatus() returns (s: Signals.UskStatus)
      ensures s == Status(Abs())
    {
      if port.NoPort? {
        s := Signals.Closed;
      } else if present {
        s := Signals.Present;
      } else {
        s := Signals.Missing;
      }
    }

    method SetAttemptsCount(n: int)
      modifies this
      ensures Abs() == old(Abs()).(attempts := n)
    {
      attempts := n;
    }

    /** The five request operations share this: a fresh command built from the
        engine's port, device number and attempt count joins the queue. */
    method Append(p: Payload)
      modifies this
      ensures Abs() == Enqueue(old(Abs()), p)
    {
      queue := queue + [NewCommand(p, uskNum, attempts, port.Port?)];
    }

    method SendTime(time: DateTime)
      modifies this
      ensures Abs() == Enqueue(old(Abs()), Outgoing.SendTime(time))
    {
      Append(Outgoing.SendTime(time));
    }

    method SendMessage(message: string)
      modifies this
      ensures Abs() == Enqueue(old(Abs()), Outgoing.SendMessage(message))
    {
      Append(Outgoing.SendMessage(message));
    }

    method ResetUsk()
      modifies this
      ensures Abs() == Enqueue(old(Abs()), Outgoing.ResetUsk)
    {
      Append(Outgoing.ResetUsk);
    }

    method ChangeRelayStatus(rayNum: int, kpuNum: int, sensorNum: int, relayStatus: int, sensorName: string)
      modifies this
      ensures Abs() == Enqueue(old(Abs()), ChangeRelay(rayNum, kpuNum, sensorNum, relayStatus, sensorName))
    {
      Append(ChangeRelay(rayNum, kpuNum, sensorNum, relayStatus, sensorName));
    }

    method ChangeVoltageStatus(numOutput: int, on: bool)
      modifies this
      ensures Abs() == Enqueue(old(Abs()), ChangeVoltage(numOutput, on))
    {
      Append(ChangeVoltage(numOutput, on));
    }

    /** `openUsk`; `openOk` and `configOk` stand for what the port reports
        when it is opened and configured, `now` for the clock. */
    method OpenUsk(openOk: bool, configOk: bool, now: DateTime) returns (res: bool)
      modifies this
      ensures (Abs(), res) == Open(old(Abs()), openOk, configOk, now)
    {
      if port.Port? {
        return true;
      }
      port, firstUse, present := Port(false), true, false;
      if !openOk {
        return false;
      }
      if configOk {
        PortConfigured(now);
        res := true;
      } else {
        PortUnconfigured();
        res := false;
      }
      buffer := [];
    }

    /** The port took its settings: it is reported open, the two periodic
        timers start and the clock is queued. */
    method PortConfigured(now: DateTime)
      modifies this
      ensures Abs() == Configured(old(Abs()), now)
    {
      port, events := Port(true), events + [Signals.PortIsOpen];
      checkTimer, sendTimeTimer := Running(CheckOutgoingPeriod), Running(SendTimePeriod);
      SendTime(now);
    }

    /** The port refused its settings: the error is reported and the port
        object deleted. */
    method PortUnconfigured()
      modifies this
      ensures Abs() == Unconfigured(old(Abs()))
    {
      port, events := NoPort, events + [Signals.Error(Signals.ErrorOpenPort)];
    }

    method CloseUsk()
      modifies this
      ensures Abs() == Close(old(Abs()))
    {
      StopTimers();
      if port.NoPort? {
        return;
      }
      port, events := Port(false), events + [Signals.PortIsClose];
    }

    method StopTimers()
      modifies this
      ensures Abs() == Protocol.StopTimers(old(Abs()))
    {
      timer, checkTimer, sendTimeTimer := Stopped, Stopped, Stopped;
    }

    method EmitUskIsPresent(isPresent: bool)
      modifies this
      ensures Abs() == EmitPresent(old(Abs()), isPresent) && current == old(current)
    {
      events, firstUse := events + [Signals.UskIsPresent(isPresent, firstUse)], false;
    }

    /** `checkOutgoingBuffer`. */
    method CheckOutgoingBuffer()
      modifies this
      ensures Abs() == Protocol.CheckOutgoingBuffer(old(Abs()))
    {
      if state == WaitData && buffer == [] && current == null && |queue| > 0 {
        Dispatch();
      }
    }

    /** The head of the queue becomes the current command and is sent; the
        response wait starts. */
    method Dispatch()
      requires CanDispatch(Abs())
      modifies this
      ensures Abs() == Protocol.CheckOutgoingBuffer(old(Abs()))
    {
      TakeFirst();
      events := events + Starting(current.Value());
      var frames := current.SendCommand(port == Port(true));
      written := written + frames;
      state, timer := WaitResponse, Running(WaitResponseTimeout);
    }

    /** The head of the queue becomes the current command, as a new object. */
    method TakeFirst()
      requires queue != [] && current == null
      modifies this
      ensures Abs() == old(Abs()).(queue := old(queue[1..]), current := Some(old(queue[0])))
      ensures current != null && fresh(current)
    {
      var cmd := new Usk1OutgoingCommand.FromValue(queue[0]);
      current, queue := cmd, queue[1..];
    }

    /** The idle branch of `parseIncomingData`: whole 26-byte frames are
        taken from the front of the buffer and parsed one by one; when less
        than a frame is left over, the short wait starts. */
    method ParseFrames()
      requires Valid()
      modifies this
      ensures Valid()
      ensures Abs() == IdleParse(old(Abs()))
    {
      var r, rest := ScanFrames(buffer, present, firstUse);
      state, buffer, events, firstUse := WaitData, rest, events + r.events, r.firstUse;
      if |rest| > 0 {
        WaitForRemainingData();
      }
    }

    /** The short wait for the rest of a frame or response starts. */
    method WaitForRemainingData()
      modifies this
      ensures Abs() == old(Abs()).(timer := Running(WaitForRemainingDataTimeout))
    {
      timer := Running(WaitForRemainingDataTimeout);
    }

    /** The loop of the idle branch over `data`: each whole frame at the
        front is parsed and reported in turn; `rest` is what is left. */
    method ScanFrames(data: seq<byte>, present: bool, firstUse: bool) returns (r: FramesReport, rest: seq<byte>)
      requires Valid()
      ensures r == ScanReport(data, present, FramesReport([], firstUse))
      ensures rest == Leftover(data)
    {
      r, rest := FramesReport([], firstUse), data;
      while |rest| >= FrameLength
        invariant ScanReport(rest, present, r) == ScanReport(data, present, FramesReport([], firstUse))
        invariant Leftover(rest) == Leftover(data)
        decreases |rest|
      {
        var packet := rest[..FrameLength];
        r := ParseFrame(packet, r, present);
        rest := rest[FrameLength..];
      }
    }

    /** One pass of the idle loop: the factory builds the command for the
        frame, which reports its signals; a correct frame also reports the
        device present while the flag is false. */
    method ParseFrame(packet: seq<byte>, r: FramesReport, present: bool) returns (next: FramesReport)
      requires Valid() && |packet| == FrameLength
      ensures next == NextReport(r, FrameEvents(packet), IsCorrectPacket(packet), present)
    {
      var cmd := factory.GetCommandByPacket(packet);
      ClassifyTotal(packet);
      assert cmd != null && cmd.Informs() == FrameEvents(packet);
      var frameEvents := cmd.InformAboutCommand();
      if !present && cmd.isCorrectPacket {
        next := FramesReport(r.events + frameEvents + [Signals.UskIsPresent(true, r.firstUse)], false);
      } else {
        next := FramesReport(r.events + frameEvents, r.firstUse);
      }
    }

    /** `parseIncomingData`: waiting for a response, five bytes are the
        response, checked against their checksum; what follows them is parsed
        as in the idle branch. */
    method ParseIncomingData()
      requires Valid()
      modifies this
      ensures Valid()
      ensures Abs() == ParseIncoming(old(Abs()))
    {
      if state != WaitResponse {
        ParseFrames();
        return;
      }
      if |buffer| < AckLength {
        WaitForRemainingData();
        return;
      }
      TakeResponse();
      if |buffer| > 0 {
        ParseFrames();
      }
    }

    /** The response half of `parseIncomingData` once five bytes are there:
        their checksum is checked, the command is accepted and the device is
        present. */
    method TakeResponse()
      requires |buffer| >= AckLength
      modifies this
      ensures Abs() == TakeAck(old(Abs()))
    {
      var packet := buffer[..AckLength];
      state, buffer := WaitData, buffer[AckLength..];
      AcknowledgeResponse(packet);
    }

    /** The response's checksum is checked, the command is accepted and the
        device is present. */
    method AcknowledgeResponse(packet: seq<byte>)
      requires |packet| == AckLength
      modifies this
      ensures Abs() == Acknowledge(old(Abs()), packet)
    {
      var crc := IncomingCommands.AccumulateCrc(packet, 4);
      var wrong := if crc != packet[4] then [Signals.Error(Signals.ErrorUskWrongPacket)] else [];
      var accepted := if current != null && current.Value().NeedToInformAboutStartSending()
                      then [Signals.CommandAccepted(current.payload)] else [];
      events := events + (wrong + accepted);
      if !present {
        EmitUskIsPresent(true);
        present := true;
      }
      current := null;
    }

    /** `onReadyRead`: the response timer stops and the bytes read are
        appended and parsed. */
    method OnReadyRead(data: seq<byte>)
      requires Valid()
      modifies this
      ensures Valid()
      ensures Abs() == ReadyRead(old(Abs()), data)
    {
      timer, buffer := Stopped, buffer + data;
      ParseIncomingData();
    }

    /** `onTimerTimeout`. */
    method OnTimerTimeout()
      modifies this, current
      ensures Abs() == TimerTimeout(old(Abs()))
    {
      timer := Stopped;
      match state
      case WaitData =>
        events, buffer := events + [Signals.Error(Signals.ErrorTimeoutWhileWaitData)], [];
      case WaitIncomingCommand =>
        state := WaitData;
      case WaitTime =>
        state := WaitData;
      case WaitResponse =>
        ResponseTimeout();
    }

    /** The response branch of `onTimerTimeout`: the device is reported
        missing; the command is sent again while it has attempts left,
        otherwise it is given up. */
    method ResponseTimeout()
      modifies this, current
      ensures Abs() == ResponseTimedOut(old(Abs()))
    {
      ReportMissing();
      if current != null && current.Value().IsAnotherAttemptPresent() {
        Retry();
      } else {
        GiveUp();
      }
    }

    /** The error saying how the response failed, then the device marked and
        reported missing; the partial response is dropped. */
    method ReportMissing()
      modifies this
      ensures Abs() == Protocol.ReportMissing(old(Abs())) && current == old(current)
    {
      events, present := events + [Signals.Error(ResponseError(buffer))], false;
      EmitUskIsPresent(false);
      buffer := [];
    }

    /** The command has attempts left: it is sent again and the response
        wait restarts. */
    method Retry()
      requires current != null
      modifies this, current
      ensures Abs() == Resend(old(Abs()))
    {
      var frames := current.SendCommand(port == Port(true));
      written, timer := written + frames, Running(WaitResponseTimeout);
    }

    /** No attempt is left (or no command is current): the command is given
        up and the engine is idle again. */
    method GiveUp()
      modifies this
      ensures Abs() == Protocol.GiveUp(old(Abs()))
    {
      var given := if current != null && current.Value().NeedToInformAboutStartSending()
                   then [Signals.ErrorOnSendingCommand(current.payload)] else [];
      events, current, state := events + given, null, WaitData;
    }

    /** `onSendTimeTimeout`: `now` stands for the clock. */
    method OnSendTimeTimeout(now: DateTime)
      modifies this
      ensures Abs() == SendTimeTimeout(old(Abs()), now)
    {
      SendTime(now);
    }
  }
}
