/** The inbound decoder objects and their factory. `Usk1IncomingCommand` and
    its eight subclasses are one class tagged by its decoder kind; every
    method is proved against the specification functions of module Incoming. */
module IncomingCommands {
  import opened Bytes
  import Cp1251
  import Signals
  import opened Incoming

  class IncomingCommand {
    /** Which subclass this object is. */
    const kind: Kind
    var isCorrectPacket: bool
    var uskNumber: nat
    var flags: nat
    var packetData: seq<byte>
    var u1: byte
    var u2: byte
    /** The subclasses' own fields. */
    var rayNum: int
    var kpuNum: int
    var numOutput: int
    var on: bool
    var prevState: byte
    var curState: byte
    var message: string

    /** The subclass constructors: their own fields start at zero. */
    constructor(kind: Kind)
      ensures this.kind == kind && !isCorrectPacket
      ensures rayNum == 0 && kpuNum == 0 && numOutput == 0 && !on && prevState == 0 && curState == 0
    {
      this.kind := kind;
      isCorrectPacket := false;
      uskNumber, flags, packetData, u1, u2 := 0, 0, [], 0, 0;
      rayNum, kpuNum, numOutput, on, prevState, curState, message := 0, 0, 0, false, 0, 0, "";
    }

    /** What `informAboutCommand` reports from the stored fields; `None` for
        an information decoder whose message is not in the table. */
    function Stored(): Option<Decoded>
      reads this
    {
      match kind
      case BadKind => Some(Bad)
      case UnknownKind => Some(Unknown(Cp1251.Decode(packetData)))
      case ResetKind => Some(Reset)
      case TextKind => Some(Text(Cp1251.Decode(packetData)))
      case NewKpuKind => Some(NewKpu(rayNum, kpuNum))
      case DisconnectedKind => Some(Disconnected(rayNum, kpuNum))
      case VoltageKind => Some(Voltage(numOutput, on))
      case SensorKind => Some(Sensor(rayNum, kpuNum, prevState, curState))
      case InfoKind =>
        match InfoLookup(message)
        case None => None
        case Some(code) => Some(Info(code))
    }

    /** The signals `informAboutCommand` causes. */
    function Informs(): seq<Signals.Event>
      reads this
    {
      match Stored()
      case None => []
      case Some(d) => InformEvents(d)
    }

    /** `parsePacket`: sums bytes 0..24 in a wrapping accumulator and, when the
        frame is 26 bytes and the sum matches byte 25, stores its fields. */
    method ParsePacket(packet: seq<byte>) returns (ok: bool)
      modifies this
      ensures ok == IsCorrectPacket(packet) && isCorrectPacket == ok
      ensures ok ==> Parse(packet) == Some(Frame(uskNumber, flags, packetData, u1, u2))
      ensures !ok ==> uskNumber == old(uskNumber) && flags == old(flags) && packetData == old(packetData)
                      && u1 == old(u1) && u2 == old(u2)
      ensures rayNum == old(rayNum) && kpuNum == old(kpuNum) && numOutput == old(numOutput) && on == old(on)
      ensures prevState == old(prevState) && curState == old(curState) && message == old(message)
    {
      isCorrectPacket := false;
      if |packet| != 26 {
        return false;
      }
      var crc := AccumulateCrc(packet, 25);
      if crc != packet[25] {
        return false;
      }
      ParseCorrect(packet);
      uskNumber := UskNumberOf(packet[0], packet[1]);
      u1 := packet[23];
      u2 := packet[24];
      flags := FlagsOf(packet[2], packet[3], packet[4], packet[5]);
      packetData := packet[7..23];
      isCorrectPacket := true;
      ok := true;
    }

    /** `isMyPacket` of each subclass: accepts exactly when the decoder's
        specification does, and then holds what that specification reports. */
    method IsMyPacket(packet: seq<byte>) returns (mine: bool)
      modifies this
      ensures mine == Accepts(kind, packet).Some?
      ensures isCorrectPacket == IsCorrectPacket(packet)
      ensures mine ==> Stored() == Accepts(kind, packet)
    {
      var ok := ParsePacket(packet);
      if kind == BadKind {
        mine := !ok;
      } else if ok {
        mine := DecodeFields();
      } else {
        mine := false;
      }
    }

    /** The frame `parsePacket` stored. */
    function StoredFrame(): Frame
      reads this
    {
      Frame(uskNumber, flags, packetData, u1, u2)
    }

    /** The subclass half of `isMyPacket`, once the frame parsed: decodes the
        stored text and keeps the frame's fields. */
    method DecodeFields() returns (mine: bool)
      requires |packetData| == 16
      modifies this
      ensures mine == AcceptsFrame(kind, old(StoredFrame())).Some?
      ensures mine ==> Stored() == AcceptsFrame(kind, old(StoredFrame()))
      ensures isCorrectPacket == old(isCorrectPacket) && StoredFrame() == old(StoredFrame())
    {
      match kind
      case BadKind =>
        mine := false;
      case UnknownKind =>
        mine := true;
      case ResetKind =>
        mine := Cp1251.ToLower(Cp1251.Trimmed(Cp1251.Decode(packetData))) == ResetText;
      case TextKind =>
        mine := HasTextFlag(flags);
      case NewKpuKind =>
        mine := DecodeKpu(NewKpuPrefix);
      case DisconnectedKind =>
        mine := DecodeKpu(DisconnectedPrefix);
      case VoltageKind =>
        mine := DecodeVoltage();
      case SensorKind =>
        mine := DecodeSensor();
      case InfoKind =>
        mine := DecodeInfo();
    }

    /** The two device decoders: the prefix, then the device digit at 9 and
        the ray digit at 15. */
    method DecodeKpu(prefix: string) returns (mine: bool)
      requires |packetData| == 16
      requires (kind == NewKpuKind && prefix == NewKpuPrefix) || (kind == DisconnectedKind && prefix == DisconnectedPrefix)
      modifies this
      ensures var d := KpuDecoder(Cp1251.Decode(old(packetData)), prefix, kind == NewKpuKind);
        && mine == d.Some?
        && (mine ==> d == Some(if kind == NewKpuKind then NewKpu(rayNum, kpuNum) else Disconnected(rayNum, kpuNum)))
      ensures isCorrectPacket == old(isCorrectPacket) && StoredFrame() == old(StoredFrame())
    {
      var m := Cp1251.ToLower(Cp1251.Decode(packetData));
      mine := m[..9] == prefix;
      if mine {
        rayNum := Cp1251.DigitValue(m[15]);
        kpuNum := Cp1251.DigitValue(m[9]);
      }
    }

    /** The voltage decoder: output number and the on/off word. */
    method DecodeVoltage() returns (mine: bool)
      requires |packetData| == 16 && kind == VoltageKind
      modifies this
      ensures mine == VoltageDecoder(Cp1251.Decode(old(packetData))).Some?
      ensures mine ==> VoltageDecoder(Cp1251.Decode(old(packetData))) == Some(Voltage(numOutput, on))
      ensures isCorrectPacket == old(isCorrectPacket) && StoredFrame() == old(StoredFrame())
    {
      mine := false;
      var m := Cp1251.Trimmed(Cp1251.ToLower(Cp1251.Decode(packetData)));
      var found := FirstMatch(m, 0);
      if found.Some? {
        mine := true;
        numOutput := Cp1251.DigitValue(found.value.digit);
        if found.value.word == OnWord {
          on := true;
        } else if found.value.word == OffWord {
          on := false;
        } else {
          mine := false;
        }
      }
    }

    /** The sensor decoder: ray and device digits, and both relay states. */
    method DecodeSensor() returns (mine: bool)
      requires |packetData| == 16 && kind == SensorKind
      modifies this
      ensures mine == SensorDecoder(Cp1251.Decode(old(packetData)), u1, u2).Some?
      ensures mine ==> SensorDecoder(Cp1251.Decode(old(packetData)), u1, u2) == Some(Sensor(rayNum, kpuNum, prevState, curState))
      ensures isCorrectPacket == old(isCorrectPacket) && StoredFrame() == old(StoredFrame())
    {
      var m := Cp1251.ToLower(Cp1251.Decode(packetData));
      mine := m[0..2] == "l=" && m[4..6] == "k=";
      if mine {
        rayNum := Cp1251.DigitValue(m[2]);
        kpuNum := Cp1251.DigitValue(m[6]);
        prevState := u1;
        curState := u2;
      }
    }

    /** The information decoder: keeps the normalised text as its message. */
    method DecodeInfo() returns (mine: bool)
      requires |packetData| == 16 && kind == InfoKind
      modifies this
      ensures mine == InfoDecoder(Cp1251.Decode(old(packetData))).Some?
      ensures mine == InfoLookup(message).Some?
      ensures mine ==> InfoDecoder(Cp1251.Decode(old(packetData))) == Some(Info(InfoLookup(message).value))
      ensures isCorrectPacket == old(isCorrectPacket) && StoredFrame() == old(StoredFrame())
    {
      message := Cp1251.Trimmed(Cp1251.ToLower(Cp1251.Decode(packetData)));
      mine := InfoLookup(message).Some?;
    }

    /** `getChangedRelays`: walks the mask from bit 0 up while the label runs
        from 8 down, collecting (label, bit of `cur`) where the states differ. */
    method GetChangedRelays() returns (r: seq<RelayChange>)
      ensures r == ChangedRelays(prevState, curState)
    {
      r := [];
      var prev, cur := prevState, curState;
      var x := Xor(prev, cur);
      var bit := 1;
      var i := 8;
      while i != 0
        invariant 0 <= i <= 8
        invariant bit == Pow2(8 - i)
        invariant r + ChangedDown(prev, cur, i) == ChangedRelays(prev, cur)
      {
        var differs := MaskTest(x, bit, 8 - i);
        var now := MaskTest(cur, bit, 8 - i);
        var step := if differs then [RelayChange(i, if now then 1 else 0)] else [];
        ChangedRelaysStep(prev, cur, i, differs, now, r);
        assert Pow2(8 - (i - 1)) == 2 * Pow2(8 - i);
        r := r + step;
        bit := bit * 2;
        i := i - 1;
      }
    }

    /** `informAboutCommand`: the signals of the stored decision, one
        `sensorChanged` per changed relay for the sensor decoder. */
    method InformAboutCommand() returns (events: seq<Signals.Event>)
      ensures events == Informs()
    {
      match kind
      case SensorKind =>
        var changes := GetChangedRelays();
        events := [];
        var j := 0;
        while j < |changes|
          invariant 0 <= j <= |changes|
          invariant |events| == j
          invariant forall k :: 0 <= k < j ==>
            events[k] == Signals.SensorChanged(rayNum, kpuNum, changes[k].sensor, changes[k].state)
        {
          events := events + [Signals.SensorChanged(rayNum, kpuNum, changes[j].sensor, changes[j].state)];
          j := j + 1;
        }
        forall k | 0 <= k < |changes|
          ensures SensorEvents(rayNum, kpuNum, changes)[k] == events[k]
        {
          SensorEventsAt(rayNum, kpuNum, changes, k);
        }
      case InfoKind =>
        events := match InfoLookup(message)
          case None => []
          case Some(code) => [Signals.UskInfoPacketReceived(code)];
      case BadKind => events := [Signals.Error(Signals.ErrorUskWrongPacket)];
      case UnknownKind => events := [Signals.UnknownCommand(Cp1251.Decode(packetData))];
      case ResetKind => events := [Signals.UskReset, Signals.UskInfoPacketReceived(Signals.PacketUskReset)];
      case TextKind => events := [Signals.ReceivedTextMessage(Cp1251.Decode(packetData))];
      case NewKpuKind => events := [Signals.DetectedNewKpu(rayNum, kpuNum)];
      case DisconnectedKind => events := [Signals.DetectedDisconnectedKpu(rayNum, kpuNum)];
      case VoltageKind => events := [Signals.VoltageStatusChanged(numOutput, on)];
    }
  }

  /** The wrapping `unsigned char` accumulator of `parsePacket` over the
      first `n` bytes. */
  method AccumulateCrc(packet: seq<byte>, n: nat) returns (crc: byte)
    requires n <= |packet|
    ensures crc == Checksum(packet[..n])
  {
    crc := 0;
    var i := 0;
    while i < n
      invariant 0 <= i <= n
      invariant crc == Checksum(packet[..i])
    {
      ChecksumStep(packet, i);
      crc := (crc + packet[i]) % 256;
      i := i + 1;
    }
  }

  /** One round of `getChangedRelays`: label `i` contributes a change
      exactly when its bit of `prev ^ cur` is set. */
  lemma ChangedDownStep(prev: byte, cur: byte, i: nat, differs: bool, now: bool)
    requires 0 < i <= 8
    requires differs == (BitOf(Xor(prev, cur), 8 - i) == 1) && now == (BitOf(cur, 8 - i) == 1)
    ensures ChangedDown(prev, cur, i)
      == (if differs then [RelayChange(i, if now then 1 else 0)] else []) + ChangedDown(prev, cur, i - 1)
  {
  }

  /** The invariant of the `getChangedRelays` loop survives one round. */
  lemma ChangedRelaysStep(prev: byte, cur: byte, i: nat, differs: bool, now: bool, r: seq<RelayChange>)
    requires 0 < i <= 8
    requires differs == (BitOf(Xor(prev, cur), 8 - i) == 1) && now == (BitOf(cur, 8 - i) == 1)
    requires r + ChangedDown(prev, cur, i) == ChangedRelays(prev, cur)
    ensures r + (if differs then [RelayChange(i, if now then 1 else 0)] else []) + ChangedDown(prev, cur, i - 1)
      == ChangedRelays(prev, cur)
  {
    var step := if differs then [RelayChange(i, if now then 1 else 0)] else [];
    ChangedDownStep(prev, cur, i, differs, now);
    Regroup(r, step, ChangedDown(prev, cur, i - 1));
  }

  lemma Regroup<T>(a: seq<T>, b: seq<T>, c: seq<T>)
    ensures a + b + c == a + (b + c)
  {
  }

  /** The test `x & bit` of `getChangedRelays`, with `bit` the mask of bit
      `k`: whether bit `k` of `x` is set. */
  method MaskTest(x: nat, bit: nat, k: nat) returns (isSet: bool)
    requires bit == Pow2(k)
    ensures isSet == (BitOf(x, k) == 1)
  {
    BitOfShift(x, k);
    isSet := (x / bit) % 2 == 1;
  }

  /** `EvaluationOrder` splits at any key index. */
  lemma {:induction false} EvaluationOrderAppend(xs: seq<Bucket>, ys: seq<Bucket>)
    ensures EvaluationOrder(xs + ys) == EvaluationOrder(xs) + EvaluationOrder(ys)
  {
    if xs == [] {
      assert xs + ys == ys;
    } else {
      assert (xs + ys)[0] == xs[0];
      assert (xs + ys)[1..] == xs[1..] + ys;
      EvaluationOrderAppend(xs[1..], ys);
      Regroup(xs[0].kinds, EvaluationOrder(xs[1..]), EvaluationOrder(ys));
    }
  }

  /** The producers of key `b` sit right after those of the keys before it. */
  lemma EvaluationOrderAt(bs: seq<Bucket>, b: nat)
    requires b < |bs|
    ensures EvaluationOrder(bs[..b + 1]) == EvaluationOrder(bs[..b]) + bs[b].kinds
  {
    var before, upTo := bs[..b], bs[..b + 1];
    assert upTo == before + [bs[b]];
    EvaluationOrderAppend(before, [bs[b]]);
    EvaluationOrderSingle(bs[b]);
  }

  /** The whole order is the order up to key `b` followed by the rest. */
  lemma EvaluationOrderSplit(bs: seq<Bucket>, b: nat)
    requires b < |bs|
    ensures EvaluationOrder(bs) == EvaluationOrder(bs[..b + 1]) + EvaluationOrder(bs[b + 1..])
  {
    var upTo, after := bs[..b + 1], bs[b + 1..];
    assert bs == upTo + after;
    EvaluationOrderAppend(upTo, after);
  }

  /** The producer at `k` of key `b` is the first that accepts when every
      producer before it, in earlier keys or earlier in its list, declines. */
  lemma FoundInBucket(bs: seq<Bucket>, b: nat, k: nat, packet: seq<byte>)
    requires b < |bs| && k < |bs[b].kinds| && Accepts(bs[b].kinds[k], packet).Some?
    requires AllDecline(EvaluationOrder(bs[..b]), packet)
    requires forall j :: 0 <= j < k ==> Accepts(bs[b].kinds[j], packet).None?
    ensures var order := EvaluationOrder(bs);
      var i := FirstAccepting(order, packet);
      i < |order| && order[i] == bs[b].kinds[k]
  {
    var before, list, order := EvaluationOrder(bs[..b]), bs[b].kinds, EvaluationOrder(bs);
    EvaluationOrderAt(bs, b);
    EvaluationOrderSplit(bs, b);
    assert order == before + list + EvaluationOrder(bs[b + 1..]);
    forall j | 0 <= j < |before| + k
      ensures Accepts(order[j], packet).None?
    {
      if j < |before| {
        assert order[j] == before[j];
      } else {
        assert order[j] == list[j - |before|];
      }
    }
    FirstAcceptingAt(order, packet, |before| + k);
  }

  /** When every producer of key `b` declines, so does every producer of the
      keys up to and including `b`. */
  lemma NoneInBucket(bs: seq<Bucket>, b: nat, packet: seq<byte>)
    requires b < |bs|
    requires AllDecline(EvaluationOrder(bs[..b]), packet)
    requires AllDecline(bs[b].kinds, packet)
    ensures AllDecline(EvaluationOrder(bs[..b + 1]), packet)
  {
    var before, list := EvaluationOrder(bs[..b]), bs[b].kinds;
    EvaluationOrderAt(bs, b);
    forall j | 0 <= j < |before + list|
      ensures Accepts((before + list)[j], packet).None?
    {
      if j < |before| {
        assert (before + list)[j] == before[j];
      } else {
        assert (before + list)[j] == list[j - |before|];
      }
    }
  }

  /** A single key contributes exactly its own producers. */
  lemma EvaluationOrderSingle(x: Bucket)
    ensures EvaluationOrder([x]) == x.kinds
  {
    assert [x][1..] == [];
  }

  class IncomingCommandFactory {
    /** `m_functions`: the priority map, keys ascending. */
    var functions: seq<Bucket>

    /** The factory constructor's nine registrations. */
    constructor()
      ensures functions == StandardRegistry()
    {
      functions := [];
      new;
      RegisterClass(0, BadKind);
      RegisterClass(65535, UnknownKind);
      RegisterClass(10, ResetKind);
      RegisterClass(10, TextKind);
      RegisterClass(10, NewKpuKind);
      RegisterClass(10, DisconnectedKind);
      RegisterClass(10, VoltageKind);
      RegisterClass(10, SensorKind);
      RegisterClass(10, InfoKind);
      StandardRegistryShape();
    }

    /** `registerClass<A>(priority)`: appends the producer under its key. */
    method RegisterClass(priority: int, kind: Kind)
      modifies this
      ensures functions == Register(old(functions), priority, kind)
    {
      functions := Register(functions, priority, kind);
    }

    /** The inner loop of `getCommandByPacket` over one key's producers: a
        fresh decoder per producer, stopping at the first that accepts, whose
        index is `k` (`|list|` when none does). */
    method ProduceFrom(list: seq<Kind>, packet: seq<byte>) returns (cmd: IncomingCommand?, k: nat)
      ensures k <= |list| && (cmd == null <==> k == |list|)
      ensures forall j :: 0 <= j < k ==> Accepts(list[j], packet).None?
      ensures cmd != null ==> fresh(cmd) && cmd.kind == list[k] && Accepts(cmd.kind, packet).Some?
                              && cmd.Stored() == Accepts(cmd.kind, packet) && cmd.isCorrectPacket == IsCorrectPacket(packet)
    {
      k := 0;
      while k < |list|
        invariant 0 <= k <= |list|
        invariant forall j :: 0 <= j < k ==> Accepts(list[j], packet).None?
      {
        var command := new IncomingCommand(list[k]);
        var mine := command.IsMyPacket(packet);
        if mine {
          return command, k;
        }
        k := k + 1;
      }
      cmd := null;
    }

    /** `getCommandByPacket`: keys ascending, each key's producers in order;
        a fresh decoder per producer, the first that accepts is returned. */
    method GetCommandByPacket(packet: seq<byte>) returns (cmd: IncomingCommand?)
      ensures var order := EvaluationOrder(functions);
        var i := FirstAccepting(order, packet);
        && (cmd == null <==> i == |order|)
        && (cmd != null ==> fresh(cmd) && cmd.kind == order[i] && cmd.Stored() == Accepts(cmd.kind, packet)
                            && cmd.isCorrectPacket == IsCorrectPacket(packet))
    {
      var b := 0;
      while b < |functions|
        invariant 0 <= b <= |functions|
        invariant AllDecline(EvaluationOrder(functions[..b]), packet)
      {
        var command, k := ProduceFrom(functions[b].kinds, packet);
        if command != null {
          FoundInBucket(functions, b, k, packet);
          return command;
        }
        NoneInBucket(functions, b, packet);
        b := b + 1;
      }
      assert functions[..b] == functions;
      NoneAccepts(EvaluationOrder(functions), packet);
      return null;
    }
  }
}
