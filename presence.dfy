/** The first-use marker of `emitUskIsPresent`: once the port is opened, the
    first presence report carries the marker, and the marker stays pending
    exactly until that report. */
module PresenceLaws {
  import opened Bytes
  import opened Outgoing
  import opened Incoming
  import opened Protocol
  import ProtocolLaws
  import Signals

  /** The first-use marker of the earliest presence report in `events`, if
      there is one. */
  function FirstPresenceMark(events: seq<Signals.Event>): Option<bool>
    decreases |events|
  {
    if events == [] then None
    else if events[0].UskIsPresent? then Some(events[0].firstUse)
    else FirstPresenceMark(events[1..])
  }

  /** Signals `emitted` were emitted while the marker went from `f0` to `f1`:
      a marker still pending means no presence report yet, and a marker
      spent means the earliest report carried it. */
  predicate Tracks(f0: bool, emitted: seq<Signals.Event>, f1: bool)
  {
    && (f1 ==> f0 && FirstPresenceMark(emitted).None?)
    && (f0 && !f1 ==> FirstPresenceMark(emitted) == Some(true))
  }

  predicate NoPresence(events: seq<Signals.Event>)
  {
    forall k :: 0 <= k < |events| ==> !events[k].UskIsPresent?
  }

  lemma {:induction false} MarkAppend(a: seq<Signals.Event>, b: seq<Signals.Event>)
    ensures FirstPresenceMark(a + b)
      == if FirstPresenceMark(a).Some? then FirstPresenceMark(a) else FirstPresenceMark(b)
    decreases |a|
  {
    if a == [] {
      assert a + b == b;
    } else {
      assert (a + b)[0] == a[0];
      assert (a + b)[1..] == a[1..] + b;
      MarkAppend(a[1..], b);
    }
  }

  lemma {:induction false} MarkPlain(events: seq<Signals.Event>)
    requires NoPresence(events)
    ensures FirstPresenceMark(events).None?
    decreases |events|
  {
    if events != [] {
      assert !events[0].UskIsPresent?;
      MarkPlain(events[1..]);
    }
  }

  /** Two stretches of signals chain. */
  lemma TracksCompose(f0: bool, a: seq<Signals.Event>, f1: bool, b: seq<Signals.Event>, f2: bool)
    requires Tracks(f0, a, f1) && Tracks(f1, b, f2)
    ensures Tracks(f0, a + b, f2)
  {
    MarkAppend(a, b);
  }

  /** Signals other than presence reports leave the marker alone. */
  lemma TracksPlain(f: bool, plain: seq<Signals.Event>)
    requires NoPresence(plain)
    ensures Tracks(f, plain, f)
  {
    MarkPlain(plain);
  }

  /** A presence report made with the pending marker spends it. */
  lemma TracksReport(f: bool, plain: seq<Signals.Event>, present: bool, tail: seq<Signals.Event>)
    requires NoPresence(plain)
    ensures Tracks(f, plain + [Signals.UskIsPresent(present, f)] + tail, false)
  {
    MarkPlain(plain);
    MarkAppend(plain, [Signals.UskIsPresent(present, f)] + tail);
    assert plain + [Signals.UskIsPresent(present, f)] + tail == plain + ([Signals.UskIsPresent(present, f)] + tail);
  }

  lemma FrameEventsPlain(packet: seq<byte>)
    ensures NoPresence(FrameEvents(packet))
  {
    match Classify(packet)
    case None =>
    case Some(k) =>
      match Accepts(k, packet)
      case None =>
      case Some(d) => InformEventsNoPresence(d);
  }

  /** One pass of the idle loop. */
  lemma NextReportTracks(r: FramesReport, packet: seq<byte>, present: bool)
    ensures var n := NextReport(r, FrameEvents(packet), IsCorrectPacket(packet), present);
      r.events <= n.events && Tracks(r.firstUse, n.events[|r.events|..], n.firstUse)
  {
    var fe := FrameEvents(packet);
    var n := NextReport(r, fe, IsCorrectPacket(packet), present);
    FrameEventsPlain(packet);
    if !present && IsCorrectPacket(packet) {
      assert n.events[|r.events|..] == fe + [Signals.UskIsPresent(true, r.firstUse)] + [];
      TracksReport(r.firstUse, fe, true, []);
    } else {
      assert n.events[|r.events|..] == fe;
      TracksPlain(r.firstUse, fe);
    }
  }

  lemma Split(a: seq<Signals.Event>, b: seq<Signals.Event>, c: seq<Signals.Event>)
    requires a <= b <= c
    ensures a <= c && c[|a|..] == b[|a|..] + c[|b|..]
  {
  }

  /** The idle loop: the first correct frame seen while the device is not
      marked present spends the marker. */
  lemma {:induction false} ScanReportTracks(b: seq<byte>, present: bool, r: FramesReport)
    ensures var s := ScanReport(b, present, r);
      r.events <= s.events && Tracks(r.firstUse, s.events[|r.events|..], s.firstUse)
    decreases |b|
  {
    var s := ScanReport(b, present, r);
    if |b| < FrameLength {
      TracksPlain(r.firstUse, []);
      assert s.events[|r.events|..] == [];
    } else {
      var packet := b[..FrameLength];
      var n := NextReport(r, FrameEvents(packet), IsCorrectPacket(packet), present);
      NextReportTracks(r, packet, present);
      ScanReportTracks(b[FrameLength..], present, n);
      Split(r.events, n.events, s.events);
      TracksCompose(r.firstUse, n.events[|r.events|..], n.firstUse, s.events[|n.events|..], s.firstUse);
    }
  }

  lemma IdleParseTracks(e: Engine)
    ensures var r := IdleParse(e);
      e.events <= r.events && Tracks(e.firstUse, r.events[|e.events|..], r.firstUse)
  {
    var s := ScanReport(e.buffer, e.present, FramesReport([], e.firstUse));
    ScanReportTracks(e.buffer, e.present, FramesReport([], e.firstUse));
    assert IdleParse(e).events[|e.events|..] == s.events[0..];
  }

  /** A response reports the device present, spending the marker, unless
      it was already marked present. */
  lemma TakeAckTracks(e: Engine)
    requires |e.buffer| >= AckLength
    ensures var r := TakeAck(e);
      e.events <= r.events && Tracks(e.firstUse, r.events[|e.events|..], r.firstUse)
  {
    var ack := e.buffer[..AckLength];
    var plain := AckEvents(ack, e.current, true, e.firstUse);
    ProtocolLaws.AckEventsSplit(ack, e.current, e.present, e.firstUse);
    assert NoPresence(plain);
    var r := TakeAck(e);
    if e.present {
      assert r.events[|e.events|..] == plain;
      TracksPlain(e.firstUse, plain);
    } else {
      assert r.events[|e.events|..] == plain + [Signals.UskIsPresent(true, e.firstUse)] + [];
      TracksReport(e.firstUse, plain, true, []);
    }
  }

  lemma ParseIncomingTracks(e: Engine)
    ensures var r := ParseIncoming(e);
      e.events <= r.events && Tracks(e.firstUse, r.events[|e.events|..], r.firstUse)
  {
    var r := ParseIncoming(e);
    if e.state != WaitResponse {
      IdleParseTracks(e);
    } else if |e.buffer| < AckLength {
      TracksPlain(e.firstUse, []);
      assert r.events[|e.events|..] == [];
    } else {
      var e1 := TakeAck(e);
      TakeAckTracks(e);
      if e1.buffer != [] {
        IdleParseTracks(e1);
        Split(e.events, e1.events, r.events);
        TracksCompose(e.firstUse, e1.events[|e.events|..], e1.firstUse, r.events[|e1.events|..], r.firstUse);
      }
    }
  }

  /** A response timeout reports the device missing with the marker, then
      perhaps gives the command up. */
  lemma ResponseTimedOutTracks(e: Engine)
    ensures var r := ResponseTimedOut(e);
      e.events <= r.events && Tracks(e.firstUse, r.events[|e.events|..], r.firstUse)
  {
    var r := ResponseTimedOut(e);
    var m := ReportMissing(e);
    var tail := r.events[|m.events|..];
    assert r.events == m.events + tail;
    assert NoPresence(tail);
    assert r.events[|e.events|..] == [Signals.Error(ResponseError(e.buffer))]
      + [Signals.UskIsPresent(false, e.firstUse)] + tail;
    TracksReport(e.firstUse, [Signals.Error(ResponseError(e.buffer))], false, tail);
  }

  lemma TimerTimeoutTracks(e: Engine)
    ensures var r := TimerTimeout(e);
      e.events <= r.events && Tracks(e.firstUse, r.events[|e.events|..], r.firstUse)
  {
    var r := TimerTimeout(e);
    match e.state
    case WaitResponse => ResponseTimedOutTracks(e.(timer := Stopped));
    case WaitData =>
      assert r.events[|e.events|..] == [Signals.Error(Signals.ErrorTimeoutWhileWaitData)];
      TracksPlain(e.firstUse, [Signals.Error(Signals.ErrorTimeoutWhileWaitData)]);
    case WaitIncomingCommand =>
      assert r.events[|e.events|..] == [];
      TracksPlain(e.firstUse, []);
    case WaitTime =>
      assert r.events[|e.events|..] == [];
      TracksPlain(e.firstUse, []);
  }

  /** Once a port object exists, every event keeps it, and the marker
      follows the presence reports. */
  lemma StepTracks(e: Engine, i: Input)
    requires e.port.Port?
    ensures var r := Step(e, i);
      r.port.Port? && e.events <= r.events && Tracks(e.firstUse, r.events[|e.events|..], r.firstUse)
  {
    var r := Step(e, i);
    match i
    case DataArrived(data) => DataArrivedTracks(e, data);
    case TimerFired => TimerFiredTracks(e);
    case CheckTimerFired =>
      assert NoPresence(r.events[|e.events|..]);
      StepTracksPlain(e, r);
    case ClosePort =>
      assert r.events[|e.events|..] == [Signals.PortIsClose];
      StepTracksPlain(e, r);
    case _ =>
      StepTracksPlain(e, r);
  }

  lemma DataArrivedTracks(e: Engine, data: seq<byte>)
    requires e.port.Port?
    ensures var r := Step(e, DataArrived(data));
      r.port.Port? && e.events <= r.events && Tracks(e.firstUse, r.events[|e.events|..], r.firstUse)
  {
    if PortOpen(e) {
      ParseIncomingTracks(e.(timer := Stopped, buffer := e.buffer + data));
    } else {
      StepTracksPlain(e, e);
    }
  }

  lemma TimerFiredTracks(e: Engine)
    requires e.port.Port?
    ensures var r := Step(e, TimerFired);
      r.port.Port? && e.events <= r.events && Tracks(e.firstUse, r.events[|e.events|..], r.firstUse)
  {
    if e.timer.Running? {
      TimerTimeoutTracks(e);
      ProtocolLaws.TimerTimeoutBudget(e);
    } else {
      StepTracksPlain(e, e);
    }
  }

  lemma StepTracksPlain(e: Engine, r: Engine)
    requires e.events <= r.events && r.firstUse == e.firstUse && NoPresence(r.events[|e.events|..])
    ensures Tracks(e.firstUse, r.events[|e.events|..], r.firstUse)
  {
    TracksPlain(e.firstUse, r.events[|e.events|..]);
  }

  lemma {:induction false} RunTracks(e: Engine, inputs: seq<Input>)
    requires e.port.Port?
    ensures var r := Run(e, inputs);
      e.events <= r.events && Tracks(e.firstUse, r.events[|e.events|..], r.firstUse)
    decreases |inputs|
  {
    var r := Run(e, inputs);
    if inputs == [] {
      TracksPlain(e.firstUse, []);
      assert r.events[|e.events|..] == [];
    } else {
      var e1 := Step(e, inputs[0]);
      StepTracks(e, inputs[0]);
      RunTracks(e1, inputs[1..]);
      Split(e.events, e1.events, r.events);
      TracksCompose(e.firstUse, e1.events[|e.events|..], e1.firstUse, r.events[|e1.events|..], r.firstUse);
    }
  }

  /** After a successful opening, whatever happens next: the earliest
      presence report, present or missing, carries the first-use marker,
      and the marker is still pending exactly while no report was made. */
  lemma FirstReportAfterOpen(e: Engine, openOk: bool, configOk: bool, now: DateTime, inputs: seq<Input>)
    requires e.port.NoPort?
    ensures var (o, ok) := Open(e, openOk, configOk, now);
      ok ==> (var r := Run(o, inputs);
              && o.events <= r.events
              && FirstPresenceMark(r.events[|o.events|..]) != Some(false)
              && (FirstPresenceMark(r.events[|o.events|..]).None? <==> r.firstUse))
  {
    var (o, ok) := Open(e, openOk, configOk, now);
    if ok {
      assert o.port.Port? && o.firstUse;
      RunTracks(o, inputs);
    }
  }
}
