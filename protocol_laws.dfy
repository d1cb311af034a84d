/** What the engine's state machine guarantees: the state/command invariant,
    the queue discipline, the retry law, how received bytes are consumed, and
    the consequences of the port handle never being reset. */
module ProtocolLaws {
  import opened Bytes
  import opened Outgoing
  import opened Incoming
  import opened Protocol
  import Signals

  /** The engine waits for a response exactly while a command is current,
      and never enters the two unused states. */
  predicate Consistent(e: Engine)
  {
    && (e.current.Some? <==> e.state == WaitResponse)
    && (e.state == WaitData || e.state == WaitResponse)
  }

  /** The idle branch ends idle and keeps the command state. */
  lemma IdleParseFrame(e: Engine)
    ensures var r := IdleParse(e);
      && r.state == WaitData && r.current == e.current && r.queue == e.queue && r.written == e.written
      && r.port == e.port && r.present == e.present && r.attempts == e.attempts
      && |r.buffer| < FrameLength && e.events <= r.events
  {
  }

  lemma ParseIncomingConsistent(e: Engine)
    requires Consistent(e)
    ensures Consistent(ParseIncoming(e))
    ensures ParseIncoming(e).port == e.port && ParseIncoming(e).written == e.written
  {
    IdleParseFrame(e);
    if e.state == WaitResponse && |e.buffer| >= AckLength {
      IdleParseFrame(TakeAck(e));
    }
  }

  lemma TimerTimeoutConsistent(e: Engine)
    requires Consistent(e)
    ensures Consistent(TimerTimeout(e))
  {
  }

  /** Every event keeps the invariant. */
  lemma StepConsistent(e: Engine, i: Input)
    requires Consistent(e)
    ensures Consistent(Step(e, i))
  {
    match i
    case DataArrived(data) =>
      ParseIncomingConsistent(e.(timer := Stopped, buffer := e.buffer + data));
    case TimerFired =>
      TimerTimeoutConsistent(e);
    case _ =>
  }

  /** From construction on, the engine is consistent after any run; in
      particular it never waits for an incoming command or for the time. */
  lemma {:induction false} RunConsistent(e: Engine, inputs: seq<Input>)
    requires Consistent(e)
    ensures Consistent(Run(e, inputs))
    decreases |inputs|
  {
    if inputs != [] {
      StepConsistent(e, inputs[0]);
      RunConsistent(Step(e, inputs[0]), inputs[1..]);
    }
  }

  lemma InitialConsistent()
    ensures Consistent(Initial())
  {
  }

  /** The queue is a FIFO: an event leaves it alone, appends one new command
      at the back (first attempt pending, the current attempt count), or
      takes the head and makes it the current command. */
  lemma QueueDiscipline(e: Engine, i: Input)
    ensures var r := Step(e, i);
      || r.queue == e.queue
      || (&& e.current.None? && e.queue != [] && r.queue == e.queue[1..]
          && r.current.Some? && r.current.value.payload == e.queue[0].payload)
      || (&& |r.queue| == |e.queue| + 1 && r.queue[..|e.queue|] == e.queue
          && r.queue[|e.queue|].isFirstAttempt && r.queue[|e.queue|].attempts == e.attempts)
  {
    var r := Step(e, i);
    match i
    case DataArrived(data) =>
      if PortOpen(e) {
        var e0 := e.(timer := Stopped, buffer := e.buffer + data);
        IdleParseFrame(e0);
        if e0.state == WaitResponse && |e0.buffer| >= AckLength {
          IdleParseFrame(TakeAck(e0));
        }
      }
    case OpenPort(openOk, configOk, now) =>
      if e.port.NoPort? && openOk && configOk {
        assert r.queue[..|e.queue|] == e.queue;
      }
    case Request(p) =>
      assert r.queue[..|e.queue|] == e.queue;
    case SendTimeFired(now) =>
      assert r.queue[..|e.queue|] == e.queue;
    case _ =>
  }

  /** `n` copies of one frame. */
  function Repeat(frame: seq<byte>, n: nat): (r: seq<seq<byte>>)
    ensures |r| == n && forall k :: 0 <= k < n ==> r[k] == frame
  {
    if n == 0 then [] else [frame] + Repeat(frame, n - 1)
  }

  /** A response timeout while the current command has attempts left sends
      it again: one frame more when it reaches an open port, and the wait
      restarts with the queue untouched. */
  lemma TimeoutResends(e: Engine, c: OutgoingCommand)
    requires e.state == WaitResponse && e.current == Some(c) && c.attempts > 0
    ensures var r := TimerTimeout(e);
      && r.current == Some(AfterSend(c, PortOpen(e))) && r.state == WaitResponse && r.timer.Running?
      && r.written == e.written + Written(c, PortOpen(e)) && r.queue == e.queue && r.port == e.port
  {
  }

  /** A response timeout once the current command has no attempt left gives
      it up: nothing is written, the engine is idle with the queue untouched,
      and the last signal is the failure unless the command is the clock. */
  lemma TimeoutGivesUp(e: Engine, c: OutgoingCommand)
    requires e.state == WaitResponse && e.current == Some(c) && c.attempts <= 0
    ensures var r := TimerTimeout(e);
      && r.current.None? && r.state == WaitData && r.written == e.written && r.queue == e.queue
      && r.port == e.port && r.timer == Stopped && |r.events| > 0
      && (c.NeedToInformAboutStartSending() ==> r.events[|r.events| - 1] == Signals.ErrorOnSendingCommand(c.payload))
  {
  }

  /** A command that reaches an open port, current with `a >= 0` attempts
      left: `a + 1` firings of the response timer write it `a` more times,
      then give it up and return to idle with the queue untouched. */
  lemma {:induction false} DrainRetries(e: Engine, c: OutgoingCommand)
    requires e.state == WaitResponse && e.current == Some(c) && e.timer.Running?
    requires c.attempts >= 0 && Transmits(c, PortOpen(e))
    ensures var r := Timeouts(e, c.attempts + 1);
      && r.written == e.written + Repeat(c.Packet(), c.attempts)
      && r.current.None? && r.state == WaitData && r.queue == e.queue && r.port == e.port
      && r.timer == Stopped
    decreases c.attempts
  {
    var e1 := TimerTimeout(e);
    assert OnTimer(e) == e1;
    if c.attempts > 0 {
      TimeoutResends(e, c);
      var c1 := AfterSend(c, PortOpen(e));
      DrainRetries(e1, c1);
      assert c1.Packet() == c.Packet();
      assert Timeouts(e, c.attempts + 1) == Timeouts(e1, c1.attempts + 1);
      Regroup(e.written, [c.Packet()], Repeat(c.Packet(), c1.attempts));
    } else {
      TimeoutGivesUp(e, c);
      assert Timeouts(e, 1) == Timeouts(e1, 0);
    }
  }

  /** The same `a + 1` firings end with a signal, and it is the failure
      report unless the command is the periodic time command. */
  lemma {:induction false} DrainRetriesReports(e: Engine, c: OutgoingCommand)
    requires e.state == WaitResponse && e.current == Some(c) && e.timer.Running?
    requires c.attempts >= 0 && Transmits(c, PortOpen(e))
    ensures var r := Timeouts(e, c.attempts + 1);
      && |r.events| > 0
      && (c.NeedToInformAboutStartSending() ==> r.events[|r.events| - 1] == Signals.ErrorOnSendingCommand(c.payload))
    decreases c.attempts
  {
    if c.attempts > 0 {
      var e1 := TimerTimeout(e);
      TimeoutResends(e, c);
      var c1 := AfterSend(c, PortOpen(e));
      DrainRetriesReports(e1, c1);
      TimeoutsUnroll(e, c.attempts + 1);
    } else {
      LastTimeoutReports(e, c);
    }
  }

  /** The first of `n` timer firings while the timer runs is a timeout. */
  lemma TimeoutsUnroll(e: Engine, n: nat)
    requires n > 0 && e.timer.Running?
    ensures Timeouts(e, n) == Timeouts(TimerTimeout(e), n - 1)
  {
  }

  /** The firing that gives up the current command ends the signals with
      its failure. */
  lemma LastTimeoutReports(e: Engine, c: OutgoingCommand)
    requires e.state == WaitResponse && e.current == Some(c) && e.timer.Running? && c.attempts == 0
    ensures var r := Timeouts(e, 1);
      && |r.events| > 0
      && (c.NeedToInformAboutStartSending() ==> r.events[|r.events| - 1] == Signals.ErrorOnSendingCommand(c.payload))
  {
    TimeoutGivesUp(e, c);
    TimeoutsUnroll(e, 1);
  }

  lemma Regroup<T>(a: seq<T>, b: seq<T>, c: seq<T>)
    ensures a + b + c == a + (b + c)
  {
  }

  /** The retry law: a dispatched command with `k` attempts that reaches an
      open port but is never answered is written `max(k, 1)` times, and
      `max(k, 1)` response timeouts later the engine is idle again with the
      rest of the queue and the response timer stopped. */
  lemma RetryLaw(e: Engine)
    requires CanDispatch(e) && PortOpen(e) && e.queue[0].portBound
    ensures var c := e.queue[0];
      var n := if c.attempts >= 1 then c.attempts else 1;
      var r := Timeouts(CheckOutgoingBuffer(e), n);
      && r.written == e.written + Repeat(c.Packet(), n)
      && r.current.None? && r.state == WaitData && r.queue == e.queue[1..] && r.timer == Stopped
  {
    var e1 := CheckOutgoingBuffer(e);
    DispatchOpen(e);
    if e.queue[0].attempts >= 1 {
      RetriesAfterDispatch(e, e1);
    } else {
      TimeoutGivesUp(e1, e1.current.value);
      TimeoutsUnroll(e1, 1);
    }
  }

  /** The first write at dispatch and the `k - 1` resends make `k`. */
  lemma RetriesAfterDispatch(e: Engine, e1: Engine)
    requires CanDispatch(e) && PortOpen(e) && e.queue[0].portBound && e.queue[0].attempts >= 1
    requires e1 == CheckOutgoingBuffer(e)
    ensures var c := e.queue[0];
      var r := Timeouts(e1, c.attempts);
      && r.written == e.written + Repeat(c.Packet(), c.attempts)
      && r.current.None? && r.state == WaitData && r.queue == e.queue[1..] && r.timer == Stopped
  {
    var c := e.queue[0];
    var c1 := AfterSend(c, true);
    DispatchOpen(e);
    DrainRetries(e1, c1);
    Regroup(e.written, [c.Packet()], Repeat(c.Packet(), c1.attempts));
  }

  /** Dispatching to an open port writes the head once, makes it current
      with one attempt fewer and arms the response timer. */
  lemma DispatchOpen(e: Engine)
    requires CanDispatch(e) && PortOpen(e) && e.queue[0].portBound
    ensures var c := e.queue[0];
      var e1 := CheckOutgoingBuffer(e);
      && e1.current == Some(AfterSend(c, true)) && e1.state == WaitResponse && e1.timer.Running?
      && e1.written == e.written + [c.Packet()] && e1.queue == e.queue[1..] && PortOpen(e1)
      && AfterSend(c, true).Packet() == c.Packet() && AfterSend(c, true).attempts == c.attempts - 1
      && Transmits(AfterSend(c, true), true)
  {
  }

  /** A current command that cannot reach an open port (it was created
      before the port existed, or the port is closed) never uses up its
      attempts: every response timeout sends it again without writing, so it
      stays current forever and the queue behind it never moves. */
  lemma {:induction false} StuckCommand(e: Engine, c: OutgoingCommand, n: nat)
    requires e.state == WaitResponse && e.current == Some(c) && e.timer.Running?
    requires c.attempts > 0 && !c.isFirstAttempt && !Transmits(c, PortOpen(e))
    ensures var r := Timeouts(e, n);
      && r.state == WaitResponse && r.current == Some(c) && r.timer.Running?
      && r.written == e.written && r.queue == e.queue && r.port == e.port
    decreases n
  {
    if n > 0 {
      var e1 := TimerTimeout(e);
      assert OnTimer(e) == e1;
      assert e1.current == Some(c);
      StuckCommand(e1, c, n - 1);
    }
  }

  /** A request made before the port is opened captures no port: once the
      port opens it is dispatched ahead of the clock command, never written,
      and blocks the queue for good. */
  lemma EarlyRequestBlocksQueue(p: Payload, now: DateTime, n: nat)
    ensures var e1 := Open(Step(Initial(), Request(p)), true, true, now).0;
      var e2 := Step(e1, CheckTimerFired);
      var r := Timeouts(e2, n);
      && e2.queue == [NewCommand(SendTime(now), 0, DefaultAttempts, true)]
      && r.written == [] && r.state == WaitResponse && r.queue == e2.queue
      && r.current == Some(AfterSend(NewCommand(p, 0, DefaultAttempts, false), true))
  {
    var e1 := Open(Step(Initial(), Request(p)), true, true, now).0;
    var e2 := Step(e1, CheckTimerFired);
    assert e1.queue == [NewCommand(p, 0, DefaultAttempts, false), NewCommand(SendTime(now), 0, DefaultAttempts, true)];
    StuckCommand(e2, AfterSend(NewCommand(p, 0, DefaultAttempts, false), true), n);
  }

  /** With a port object that is not open (closed, or failed to open),
      `openUsk` keeps reporting success without reopening it, nothing moves
      it back to an open port, and no frame is ever written again. */
  lemma StepOnClosedPort(e: Engine, i: Input)
    requires e.port == Port(false)
    ensures Step(e, i).port == Port(false) && Step(e, i).written == e.written
  {
  }

  lemma {:induction false} ClosedPortNeverWrites(e: Engine, inputs: seq<Input>)
    requires e.port == Port(false)
    ensures Run(e, inputs).port == Port(false) && Run(e, inputs).written == e.written
    decreases |inputs|
  {
    if inputs != [] {
      StepOnClosedPort(e, inputs[0]);
      ClosedPortNeverWrites(Step(e, inputs[0]), inputs[1..]);
    }
  }

  /** After `closeUsk` the status is never "closed" again, and `openUsk`
      reports success without reopening. */
  lemma CloseKeepsHandle(e: Engine, openOk: bool, configOk: bool, now: DateTime)
    requires e.port.Port?
    ensures Status(Close(e)) != Signals.Closed
    ensures Open(Close(e), openOk, configOk, now) == (Close(e), true)
    ensures Close(e).port == Port(false)
  {
  }

  /** The response is five bytes: they are consumed, the command is done,
      the device is marked present, and what follows is parsed as frames. */
  lemma AckConsumesResponse(e: Engine)
    requires Consistent(e) && e.state == WaitResponse && |e.buffer| >= AckLength
    ensures var r := ParseIncoming(e);
      var rest := e.buffer[AckLength..];
      && r.state == WaitData && r.current.None? && r.present
      && r.buffer == rest[|rest| / FrameLength * FrameLength..]
      && r.queue == e.queue && r.written == e.written
  {
    LeftoverIsPartialFrame(e.buffer[AckLength..]);
  }

  /** A response with fewer than five bytes only restarts the short wait. */
  lemma PartialResponseWaits(e: Engine, data: seq<byte>)
    requires e.state == WaitResponse && |e.buffer| + |data| < AckLength
    ensures ReadyRead(e, data) == e.(buffer := e.buffer + data, timer := Running(WaitForRemainingDataTimeout))
  {
  }

  /** The response's checksum is checked: a wrong-packet error is reported
      exactly when the fifth byte is not the wrapped sum of the first four. */
  lemma AckChecksum(e: Engine)
    requires |e.buffer| >= AckLength
    ensures Signals.Error(Signals.ErrorUskWrongPacket) in TakeAck(e).events[|e.events|..]
            <==> Checksum(e.buffer[..4]) != e.buffer[4]
  {
    var ack := e.buffer[..AckLength];
    assert ack[..4] == e.buffer[..4];
  }

  /** A response timeout reports which way the response failed, then the
      device as missing. */
  lemma TimeoutReportsMissing(e: Engine)
    requires e.state == WaitResponse
    ensures var r := TimerTimeout(e);
      && |r.events| >= |e.events| + 2
      && r.events[|e.events|] == Signals.Error(
           if e.buffer == [] then Signals.ErrorUskIsntResponse else Signals.ErrorTimeoutWhileWaitResponse)
      && r.events[|e.events| + 1] == Signals.UskIsPresent(false, e.firstUse)
      && r.buffer == [] && !r.present && !r.firstUse
  {
  }

  /** Two correct frames in one read while the device is marked missing
      both report it present: the idle loop never sets the flag. */
  lemma RepeatedPresence(p1: seq<byte>, p2: seq<byte>, firstUse: bool)
    requires IsCorrectPacket(p1) && IsCorrectPacket(p2)
    ensures ScanReport(p1 + p2, false, FramesReport([], firstUse))
      == FramesReport(FrameEvents(p1) + [Signals.UskIsPresent(true, firstUse)]
                      + FrameEvents(p2) + [Signals.UskIsPresent(true, false)], false)
  {
    var b := p1 + p2;
    var r0 := FramesReport([], firstUse);
    var r1 := NextReport(r0, FrameEvents(p1), true, false);
    var r2 := NextReport(r1, FrameEvents(p2), true, false);
    assert b[..FrameLength] == p1 && b[FrameLength..] == p2;
    assert ScanReport(b, false, r0) == ScanReport(p2, false, r1);
    assert p2[..FrameLength] == p2 && p2[FrameLength..] == [];
    assert ScanReport(p2, false, r1) == r2;
    assert [] + FrameEvents(p1) == FrameEvents(p1);
  }

  /** A frame that arrives in two reads while the engine is idle: the first
      part is kept and the short wait starts, with nothing reported; the
      second read completes the frame, which is reported as if it had
      arrived in one read, and the buffer is empty with the timer stopped. */
  lemma SplitDelivery(e: Engine, a: seq<byte>, b: seq<byte>)
    requires e.state == WaitData && e.buffer == [] && 0 < |a| < FrameLength && |a| + |b| == FrameLength
    ensures var e1 := ReadyRead(e, a);
      && e1.state == WaitData && e1.buffer == a && e1.events == e.events
      && e1.timer == Running(WaitForRemainingDataTimeout)
    ensures var r := ReadyRead(ReadyRead(e, a), b);
      && r == ReadyRead(e, a + b)
      && r.state == WaitData && r.buffer == [] && r.timer == Stopped
      && r.events == e.events + NextReport(FramesReport([], e.firstUse), FrameEvents(a + b),
                                           IsCorrectPacket(a + b), e.present).events
  {
    var r0 := FramesReport([], e.firstUse);
    assert e.buffer + a == a;
    assert ScanReport(a, e.present, r0) == r0 && Leftover(a) == a;
    assert e.events + [] == e.events;
    var e1 := ReadyRead(e, a);
    assert e1 == e.(timer := Running(WaitForRemainingDataTimeout), buffer := a);
    var ab := a + b;
    var e2 := e.(timer := Stopped, buffer := ab);
    assert e1.(timer := Stopped, buffer := e1.buffer + b) == e2;
    assert ab[..FrameLength] == ab && ab[FrameLength..] == [];
    var r1 := NextReport(r0, FrameEvents(ab), IsCorrectPacket(ab), e.present);
    assert ScanReport(ab, e.present, r0) == ScanReport([], e.present, r1) == r1;
    assert Leftover(ab) == Leftover([]) == [];
    assert ReadyRead(e1, b) == IdleParse(e2);
    assert e.buffer + ab == ab;
    assert ReadyRead(e, ab) == IdleParse(e2);
  }

  /** The new-device scenario: a new-device frame split over two reads to a
      device already present reports the new device once and nothing else. */
  lemma SplitNewKpu(e: Engine, a: seq<byte>, b: seq<byte>)
    requires e.state == WaitData && e.buffer == [] && 0 < |a| < FrameLength && |a| + |b| == FrameLength
    requires e.present
    requires IsCorrectPacket(a + b)
    requires !HasTextFlag(FlagsOf((a + b)[2], (a + b)[3], (a + b)[4], (a + b)[5]))
    requires Cp1251.ToLower(FrameText(a + b))[..9] == NewKpuPrefix
    ensures var m := Cp1251.ToLower(FrameText(a + b));
      ReadyRead(ReadyRead(e, a), b).events
      == e.events + [Signals.DetectedNewKpu(Cp1251.DigitValue(m[15]), Cp1251.DigitValue(m[9]))]
  {
    var ab := a + b;
    SplitDelivery(e, a, b);
    NewKpuFrameEvents(ab);
    PresentReport(e.firstUse, FrameEvents(ab), IsCorrectPacket(ab));
  }

  /** While the device is present, one frame's report is its own signals. */
  lemma PresentReport(firstUse: bool, frameEvents: seq<Signals.Event>, correct: bool)
    ensures NextReport(FramesReport([], firstUse), frameEvents, correct, true).events == frameEvents
  {
    assert [] + frameEvents == frameEvents;
  }

  /** A new-device frame reports the new device and nothing else. */
  lemma NewKpuFrameEvents(packet: seq<byte>)
    requires IsCorrectPacket(packet)
    requires !HasTextFlag(FlagsOf(packet[2], packet[3], packet[4], packet[5]))
    requires Cp1251.ToLower(FrameText(packet))[..9] == NewKpuPrefix
    ensures var m := Cp1251.ToLower(FrameText(packet));
      FrameEvents(packet) == [Signals.DetectedNewKpu(Cp1251.DigitValue(m[15]), Cp1251.DigitValue(m[9]))]
  {
    NewKpuReport(packet);
  }

  /** A reset frame reports the reset and the reset information packet. */
  lemma ResetFrameEvents(packet: seq<byte>)
    requires IsCorrectPacket(packet)
    requires Cp1251.ToLower(Cp1251.Trimmed(FrameText(packet))) == ResetText
    ensures FrameEvents(packet) == [Signals.UskReset, Signals.UskInfoPacketReceived(Signals.PacketUskReset)]
  {
    ResetReport(packet);
  }

  /** A sensor frame reports one change per relay whose state differs
      between the two spare bytes: as many as the bits set in their XOR. */
  lemma SensorFrameEvents(packet: seq<byte>)
    requires IsCorrectPacket(packet)
    requires !HasTextFlag(FlagsOf(packet[2], packet[3], packet[4], packet[5]))
    requires var m := Cp1251.ToLower(FrameText(packet)); m[0..2] == "l=" && m[4..6] == "k="
    ensures var m := Cp1251.ToLower(FrameText(packet));
      FrameEvents(packet)
      == SensorEvents(Cp1251.DigitValue(m[2]), Cp1251.DigitValue(m[6]), ChangedRelays(packet[23], packet[24]))
    ensures |FrameEvents(packet)| == Popcount(Xor(packet[23], packet[24]) % 256)
  {
    SensorReport(packet);
    ChangedRelaysCount(packet[23], packet[24]);
  }

  /** The idle loop consumes whole frames only: what it leaves is the
      trailing partial frame of the buffer. */
  lemma {:induction false} LeftoverIsPartialFrame(b: seq<byte>)
    ensures Leftover(b) == b[|b| / FrameLength * FrameLength..]
    decreases |b|
  {
    if |b| >= FrameLength {
      var t := b[FrameLength..];
      LeftoverIsPartialFrame(t);
      assert |t| / FrameLength * FrameLength + FrameLength == |b| / FrameLength * FrameLength;
      assert t[|t| / FrameLength * FrameLength..] == b[|b| / FrameLength * FrameLength..];
    }
  }

  /** The idle branch keeps exactly the trailing partial frame of the
      buffer, and starts the short wait exactly when that part is not empty. */
  lemma IdleParseLeaves(e: Engine)
    ensures var r := IdleParse(e);
      var n := |e.buffer| / FrameLength * FrameLength;
      && r.buffer == e.buffer[n..]
      && |r.buffer| == |e.buffer| % FrameLength
      && (|e.buffer| % FrameLength != 0 ==> r.timer == Running(WaitForRemainingDataTimeout))
      && (|e.buffer| % FrameLength == 0 ==> r.timer == e.timer)
  {
    LeftoverIsPartialFrame(e.buffer);
  }

  /** How many signals report a first use. */
  function FirstUseReports(events: seq<Signals.Event>): nat
  {
    if events == [] then 0
    else FirstUseReports(events[..|events| - 1])
         + (if events[|events| - 1].UskIsPresent? && events[|events| - 1].firstUse then 1 else 0)
  }

  lemma {:induction false} FirstUseReportsAppend(a: seq<Signals.Event>, b: seq<Signals.Event>)
    ensures FirstUseReports(a + b) == FirstUseReports(a) + FirstUseReports(b)
    decreases |b|
  {
    if b == [] {
      assert a + b == a;
    } else {
      var ab := a + b;
      assert ab[..|ab| - 1] == a + b[..|b| - 1];
      assert ab[|ab| - 1] == b[|b| - 1];
      FirstUseReportsAppend(a, b[..|b| - 1]);
    }
  }

  /** Signals other than presence reports report no first use. */
  lemma {:induction false} NoFirstUseReports(events: seq<Signals.Event>)
    requires forall k :: 0 <= k < |events| ==> !events[k].UskIsPresent?
    ensures FirstUseReports(events) == 0
    decreases |events|
  {
    if events != [] {
      NoFirstUseReports(events[..|events| - 1]);
    }
  }

  lemma FrameEventsNoFirstUse(packet: seq<byte>)
    ensures FirstUseReports(FrameEvents(packet)) == 0
  {
    match Classify(packet)
    case None =>
    case Some(k) =>
      match Accepts(k, packet)
      case None =>
      case Some(d) =>
        InformEventsNoPresence(d);
        NoFirstUseReports(InformEvents(d));
  }

  /** First-use reports plus a pending first use: what is left of the single
      first-use report an opening grants. */
  function FirstUseBudget(e: Engine): nat
  {
    FirstUseReports(e.events) + (if e.firstUse then 1 else 0)
  }

  /** The idle loop spends the first use at most once. */
  lemma {:induction false} ScanReportBudget(b: seq<byte>, present: bool, r: FramesReport)
    ensures var s := ScanReport(b, present, r);
      FirstUseReports(s.events) + (if s.firstUse then 1 else 0)
      == FirstUseReports(r.events) + (if r.firstUse then 1 else 0)
    decreases |b|
  {
    if |b| >= FrameLength {
      var packet := b[..FrameLength];
      FrameEventsNoFirstUse(packet);
      FirstUseReportsAppend(r.events, FrameEvents(packet));
      FirstUseReportsAppend(r.events + FrameEvents(packet), [Signals.UskIsPresent(true, r.firstUse)]);
      ScanReportBudget(b[FrameLength..], present, NextReport(r, FrameEvents(packet), IsCorrectPacket(packet), present));
    }
  }

  lemma IdleParseBudget(e: Engine)
    ensures FirstUseBudget(IdleParse(e)) == FirstUseBudget(e) && e.events <= IdleParse(e).events
  {
    var r := ScanReport(e.buffer, e.present, FramesReport([], e.firstUse));
    ScanReportBudget(e.buffer, e.present, FramesReport([], e.firstUse));
    FirstUseReportsAppend(e.events, r.events);
  }

  /** Appending signals that are not presence reports keeps the budget. */
  lemma AppendPlain(e: Engine, r: Engine, extra: seq<Signals.Event>)
    requires r.events == e.events + extra && r.firstUse == e.firstUse
    requires forall k :: 0 <= k < |extra| ==> !extra[k].UskIsPresent?
    ensures FirstUseBudget(r) == FirstUseBudget(e) && e.events <= r.events
  {
    NoFirstUseReports(extra);
    FirstUseReportsAppend(e.events, extra);
  }

  /** The signals of a response are its plain signals followed by the
      presence report when the device was not known to be present. */
  lemma AckEventsSplit(ack: seq<byte>, current: Option<OutgoingCommand>, present: bool, firstUse: bool)
    requires |ack| == AckLength
    ensures AckEvents(ack, current, present, firstUse)
      == AckEvents(ack, current, true, firstUse) + (if !present then [Signals.UskIsPresent(true, firstUse)] else [])
  {
  }

  /** The plain signals of a response hold no presence report. */
  lemma AckEventsNoFirstUse(ack: seq<byte>, current: Option<OutgoingCommand>, firstUse: bool)
    requires |ack| == AckLength
    ensures FirstUseReports(AckEvents(ack, current, true, firstUse)) == 0
  {
    var plain := AckEvents(ack, current, true, firstUse);
    forall k | 0 <= k < |plain|
      ensures !plain[k].UskIsPresent?
    {
    }
    NoFirstUseReports(plain);
  }

  lemma TakeAckBudget(e: Engine)
    requires |e.buffer| >= AckLength
    ensures FirstUseBudget(TakeAck(e)) == FirstUseBudget(e) && e.events <= TakeAck(e).events
  {
    var ack := e.buffer[..AckLength];
    var plain := AckEvents(ack, e.current, true, e.firstUse);
    var tail := if !e.present then [Signals.UskIsPresent(true, e.firstUse)] else [];
    AckEventsSplit(ack, e.current, e.present, e.firstUse);
    AckEventsNoFirstUse(ack, e.current, e.firstUse);
    FirstUseReportsAppend(e.events, plain + tail);
    FirstUseReportsAppend(plain, tail);
  }

  lemma ParseIncomingBudget(e: Engine)
    ensures FirstUseBudget(ParseIncoming(e)) == FirstUseBudget(e) && e.events <= ParseIncoming(e).events
    ensures ParseIncoming(e).port == e.port
  {
    if e.state != WaitResponse {
      IdleParseBudget(e);
    } else if |e.buffer| >= AckLength {
      TakeAckBudget(e);
      var e1 := TakeAck(e);
      if e1.buffer != [] {
        IdleParseBudget(e1);
      }
    }
  }

  lemma TimerTimeoutBudget(e: Engine)
    ensures FirstUseBudget(TimerTimeout(e)) == FirstUseBudget(e) && e.events <= TimerTimeout(e).events
    ensures TimerTimeout(e).port == e.port
  {
    var r := TimerTimeout(e);
    if e.state == WaitResponse {
      var code := if e.buffer == [] then Signals.ErrorUskIsntResponse else Signals.ErrorTimeoutWhileWaitResponse;
      var tail := r.events[|e.events| + 2..];
      assert r.events == e.events + [Signals.Error(code), Signals.UskIsPresent(false, e.firstUse)] + tail;
      MissingBudget(e, r, code, tail);
    } else if e.state == WaitData {
      AppendPlain(e, r, [Signals.Error(Signals.ErrorTimeoutWhileWaitData)]);
    }
  }

  /** Reporting the device missing spends a pending first use. */
  lemma MissingBudget(e: Engine, r: Engine, code: Signals.ErrorCode, tail: seq<Signals.Event>)
    requires r.events == e.events + [Signals.Error(code), Signals.UskIsPresent(false, e.firstUse)] + tail
    requires !r.firstUse && forall k :: 0 <= k < |tail| ==> !tail[k].UskIsPresent?
    ensures FirstUseBudget(r) == FirstUseBudget(e) && e.events <= r.events
  {
    var two := [Signals.Error(code), Signals.UskIsPresent(false, e.firstUse)];
    FirstUseReportsAppend(e.events + two, tail);
    FirstUseReportsAppend(e.events, two);
    assert two[..1] == [Signals.Error(code)] && two[..1][..0] == [];
    assert FirstUseReports(two[..1]) == 0;
    assert FirstUseReports(two) == if e.firstUse then 1 else 0;
    NoFirstUseReports(tail);
  }

  /** Once a port object exists, every event keeps it and keeps the budget. */
  lemma StepBudget(e: Engine, i: Input)
    requires e.port.Port?
    ensures Step(e, i).port.Port?
    ensures FirstUseBudget(Step(e, i)) == FirstUseBudget(e) && e.events <= Step(e, i).events
  {
    var r := Step(e, i);
    match i
    case ClosePort => AppendPlain(e, r, [Signals.PortIsClose]);
    case DataArrived(data) =>
      if PortOpen(e) {
        ParseIncomingBudget(e.(timer := Stopped, buffer := e.buffer + data));
      }
    case TimerFired =>
      if e.timer.Running? {
        TimerTimeoutBudget(e);
      }
    case CheckTimerFired =>
      if e.checkTimer.Running? && CanDispatch(e) {
        AppendPlain(e, r, r.events[|e.events|..]);
      }
    case _ =>
  }

  /** Once the port has been opened, the device is reported with the
      first-use marker at most once, whatever happens afterwards. */
  lemma {:induction false} FirstUseAtMostOnce(e: Engine, inputs: seq<Input>)
    requires e.port.Port?
    ensures e.events <= Run(e, inputs).events
    ensures FirstUseReports(Run(e, inputs).events[|e.events|..]) <= (if e.firstUse then 1 else 0)
    decreases |inputs|
  {
    var r := Run(e, inputs);
    if inputs == [] {
      assert r.events[|e.events|..] == [];
    } else {
      StepBudget(e, inputs[0]);
      var e1 := Step(e, inputs[0]);
      FirstUseAtMostOnce(e1, inputs[1..]);
      assert r.events == e.events + r.events[|e.events|..];
      FirstUseReportsAppend(e.events, r.events[|e.events|..]);
      RunBudget(e1, inputs[1..]);
    }
  }

  lemma {:induction false} RunBudget(e: Engine, inputs: seq<Input>)
    requires e.port.Port?
    ensures FirstUseBudget(Run(e, inputs)) == FirstUseBudget(e) && e.events <= Run(e, inputs).events
    decreases |inputs|
  {
    if inputs != [] {
      StepBudget(e, inputs[0]);
      RunBudget(Step(e, inputs[0]), inputs[1..]);
    }
  }
}
