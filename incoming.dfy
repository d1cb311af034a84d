/** Inbound frames: validation and field extraction, what each decoder
    accepts and reports, the priority registry the factory walks, and the
    classification that results. This module is the specification the decoder
    classes are proved against. */
module Incoming {
  import opened Bytes
  import Cp1251
  import Signals

  /** A 26-byte frame whose last byte is the additive checksum of the other 25. */
  predicate IsCorrectPacket(packet: seq<byte>)
  {
    |packet| == 26 && packet[25] == Checksum(packet[..25])
  }

  /** The fields `parsePacket` stores from a correct frame. */
  datatype Frame = Frame(uskNumber: nat, flags: nat, packetData: seq<byte>, u1: byte, u2: byte)

  /** `(ushort)packet.at(0) + (ushort)packet.at(1) * 0x100`, stored in a
      `ushort`: each byte is read as a signed `char` and widened. */
  function UskNumberOf(b0: byte, b1: byte): (n: nat)
    ensures n < 0x1_0000
  {
    (SignedChar(b0) % 0x1_0000 + (SignedChar(b1) % 0x1_0000) * 0x100) % 0x1_0000
  }

  /** The four flag bytes, each read as a signed `char`, widened to `quint32`
      and summed little-endian in 32-bit arithmetic. */
  function FlagsOf(b2: byte, b3: byte, b4: byte, b5: byte): (f: nat)
    ensures f < 0x1_0000_0000
  {
    (SignedChar(b2) + SignedChar(b3) * 0x100 + SignedChar(b4) * 0x1_0000 + SignedChar(b5) * 0x100_0000)
      % 0x1_0000_0000
  }

  /** `parsePacket`: `None` for a frame of the wrong length or checksum. */
  function Parse(packet: seq<byte>): (r: Option<Frame>)
    ensures r.Some? <==> IsCorrectPacket(packet)
    ensures r.Some? ==> (|r.value.packetData| == 16 && r.value.packetData == packet[7..23]
                         && r.value.u1 == packet[23] && r.value.u2 == packet[24])
  {
    if !IsCorrectPacket(packet) then None
    else Some(Frame(UskNumberOf(packet[0], packet[1]), FlagsOf(packet[2], packet[3], packet[4], packet[5]),
                    packet[7..23], packet[23], packet[24]))
  }

  lemma ParseCorrect(packet: seq<byte>)
    requires IsCorrectPacket(packet)
    ensures Parse(packet) == Some(Frame(UskNumberOf(packet[0], packet[1]),
                                        FlagsOf(packet[2], packet[3], packet[4], packet[5]),
                                        packet[7..23], packet[23], packet[24]))
  {
  }

  /** `flags & 0x10000`: the text-message flag. */
  predicate HasTextFlag(flags: nat)
  {
    (flags / 0x1_0000) % 2 == 1
  }

  /** The decoders, one per registered class. */
  datatype Kind =
    | BadKind | UnknownKind | ResetKind | TextKind | NewKpuKind
    | DisconnectedKind | VoltageKind | SensorKind | InfoKind

  /** One (sensor label, new state) pair of `getChangedRelays`. */
  datatype RelayChange = RelayChange(sensor: int, state: int)

  /** What an accepting decoder stored and will report. */
  datatype Decoded =
    | Bad
    | Unknown(text: string)
    | Reset
    | Text(message: string)
    | NewKpu(ray: int, kpu: int)
    | Disconnected(lostRay: int, lostKpu: int)
    | Voltage(output: int, on: bool)
    | Sensor(sensorRay: int, sensorKpu: int, prev: byte, cur: byte)
    | Info(code: Signals.InfoCode)

  const ResetText: string := "полный сброс уск"
  const NewKpuPrefix: string := "новый оу:"
  const DisconnectedPrefix: string := "неисп.оу:"
  const OnWord: string := "включение"
  const OffWord: string := "выключение"

  /** The info decoder's table from message text to info code. */
  function InfoLookup(message: string): (r: Option<Signals.InfoCode>)
    ensures r.Some? <==> message in {"включение уск", "установка часов", "ошибка приема rs"}
  {
    if message == "включение уск" then Some(Signals.PacketUskOn)
    else if message == "установка часов" then Some(Signals.PacketUskSettingTime)
    else if message == "ошибка приема rs" then Some(Signals.PacketUskErrorReceivingRS)
    else None
  }

  /** The two captures of `\b(\w+) 220-([12])\b`. */
  datatype VoltageMatch = VoltageMatch(word: string, digit: char)

  /** First index at or after `p` that does not hold a word character. */
  function WordEnd(m: string, p: nat): (q: nat)
    requires p <= |m|
    ensures p <= q <= |m|
    ensures forall j :: p <= j < q ==> Cp1251.IsWordChar(m[j])
    ensures q == |m| || !Cp1251.IsWordChar(m[q])
    decreases |m| - p
  {
    if p == |m| || !Cp1251.IsWordChar(m[p]) then p else WordEnd(m, p + 1)
  }

  /** `\b\w` at `p`: a word character with no word character before it. */
  predicate WordStart(m: string, p: nat)
  {
    p < |m| && Cp1251.IsWordChar(m[p]) && (p == 0 || !Cp1251.IsWordChar(m[p - 1]))
  }

  /** The pattern matched from position `p`. `\w+` must be followed by a
      space, so of its greedy choices only the whole word can match. */
  function MatchAt(m: string, p: nat): (r: Option<VoltageMatch>)
    requires p <= |m|
    ensures r.Some? ==> WordStart(m, p) && (r.value.digit == '1' || r.value.digit == '2')
    ensures r.Some? ==> p + |r.value.word| + 6 <= |m| && m[p..p + |r.value.word|] == r.value.word
  {
    if !WordStart(m, p) then None
    else
      var q := WordEnd(m, p);
      if q + 6 <= |m| && m[q..q + 5] == " 220-" && (m[q + 5] == '1' || m[q + 5] == '2')
         && (q + 6 == |m| || !Cp1251.IsWordChar(m[q + 6]))
      then Some(VoltageMatch(m[p..q], m[q + 5]))
      else None
  }

  /** `QRegExp::indexIn` from `from`: the leftmost match. */
  function FirstMatch(m: string, from: nat): (r: Option<VoltageMatch>)
    ensures r.Some? ==> r.value.digit == '1' || r.value.digit == '2'
    ensures r.Some? ==> from + |r.value.word| + 6 <= |m|
    decreases |m| - from
  {
    if from >= |m| then None
    else match MatchAt(m, from)
      case Some(v) => Some(v)
      case None => FirstMatch(m, from + 1)
  }

  /** `isMyPacket` of each decoder: `Some` with what the decoder stored when it
      accepts, `None` when it declines. */
  function Accepts(kind: Kind, packet: seq<byte>): (r: Option<Decoded>)
    ensures kind == BadKind ==> (r.Some? <==> !IsCorrectPacket(packet))
    ensures kind != BadKind && r.Some? ==> IsCorrectPacket(packet)
    ensures kind == UnknownKind ==> (r.Some? <==> IsCorrectPacket(packet))
  {
    if kind == BadKind then (if IsCorrectPacket(packet) then None else Some(Bad))
    else match Parse(packet)
      case None => None
      case Some(f) => AcceptsFrame(kind, f)
  }

  /** The decision of each decoder once the frame parsed. */
  function AcceptsFrame(kind: Kind, f: Frame): (r: Option<Decoded>)
    requires |f.packetData| == 16
    ensures kind == BadKind ==> r.None?
    ensures kind == UnknownKind ==> r.Some?
  {
    var text := Cp1251.Decode(f.packetData);
    match kind
    case BadKind => None
    case UnknownKind => Some(Unknown(text))
    case ResetKind => ResetDecoder(text)
    case TextKind => if HasTextFlag(f.flags) then Some(Text(text)) else None
    case NewKpuKind => KpuDecoder(text, NewKpuPrefix, true)
    case DisconnectedKind => KpuDecoder(text, DisconnectedPrefix, false)
    case VoltageKind => VoltageDecoder(text)
    case SensorKind => SensorDecoder(text, f.u1, f.u2)
    case InfoKind => InfoDecoder(text)
  }

  /** The reset decoder: the trimmed, lower-cased text is the reset phrase. */
  function ResetDecoder(text: string): (r: Option<Decoded>)
    ensures r.Some? <==> Cp1251.ToLower(Cp1251.Trimmed(text)) == ResetText
    ensures r.Some? ==> r == Some(Reset)
  {
    if Cp1251.ToLower(Cp1251.Trimmed(text)) == ResetText then Some(Reset) else None
  }

  /** The new-device and lost-device decoders: a nine-character prefix, the
      device digit at 9 and the ray digit at 15 of the lower-cased text. */
  function KpuDecoder(text: string, prefix: string, isNew: bool): (r: Option<Decoded>)
    requires |text| == 16
    ensures r.Some? <==> Cp1251.ToLower(text)[..9] == prefix
    ensures r.Some? ==> (if isNew then r.value.NewKpu? else r.value.Disconnected?)
    ensures r.Some? && isNew ==> 0 <= r.value.ray <= 9 && 0 <= r.value.kpu <= 9
    ensures r.Some? && !isNew ==> 0 <= r.value.lostRay <= 9 && 0 <= r.value.lostKpu <= 9
  {
    var m := Cp1251.ToLower(text);
    if m[..9] != prefix then None
    else if isNew then Some(NewKpu(Cp1251.DigitValue(m[15]), Cp1251.DigitValue(m[9])))
    else Some(Disconnected(Cp1251.DigitValue(m[15]), Cp1251.DigitValue(m[9])))
  }

  /** The voltage decoder: the first match of the voltage pattern in the
      lower-cased, trimmed text, with an "on" or "off" word. */
  function VoltageDecoder(text: string): (r: Option<Decoded>)
    ensures var v := FirstMatch(Cp1251.Trimmed(Cp1251.ToLower(text)), 0);
      r.Some? <==> v.Some? && (v.value.word == OnWord || v.value.word == OffWord)
    ensures r.Some? ==> r.value.Voltage? && (r.value.output == 1 || r.value.output == 2)
    ensures r.Some? ==> r.value.on == (FirstMatch(Cp1251.Trimmed(Cp1251.ToLower(text)), 0).value.word == OnWord)
  {
    var m := Cp1251.Trimmed(Cp1251.ToLower(text));
    match FirstMatch(m, 0)
    case None => None
    case Some(v) =>
      var output := Cp1251.DigitValue(v.digit);
      if v.word == OnWord then Some(Voltage(output, true))
      else if v.word == OffWord then Some(Voltage(output, false))
      else None
  }

  /** The sensor decoder: `l=` at 0 and `k=` at 4 of the lower-cased text. */
  function SensorDecoder(text: string, u1: byte, u2: byte): (r: Option<Decoded>)
    requires |text| == 16
    ensures var m := Cp1251.ToLower(text); r.Some? <==> m[0..2] == "l=" && m[4..6] == "k="
    ensures r.Some? ==> r.value.Sensor? && r.value.prev == u1 && r.value.cur == u2
    ensures r.Some? ==> var m := Cp1251.ToLower(text);
      r.value.sensorRay == Cp1251.DigitValue(m[2]) && r.value.sensorKpu == Cp1251.DigitValue(m[6])
  {
    var m := Cp1251.ToLower(text);
    if m[0..2] == "l=" && m[4..6] == "k="
    then Some(Sensor(Cp1251.DigitValue(m[2]), Cp1251.DigitValue(m[6]), u1, u2)) else None
  }

  /** The information decoder: the trimmed, lower-cased text is a key of the
      information table. */
  function InfoDecoder(text: string): (r: Option<Decoded>)
    ensures r.Some? <==> InfoLookup(Cp1251.Trimmed(Cp1251.ToLower(text))).Some?
  {
    match InfoLookup(Cp1251.Trimmed(Cp1251.ToLower(text)))
    case None => None
    case Some(code) => Some(Info(code))
  }

  /** `getChangedRelays` from label `i` down to 1: label `l` tests bit `8 - l`
      of `prev ^ cur` and reports that bit of `cur`. */
  function ChangedDown(prev: byte, cur: byte, i: nat): seq<RelayChange>
    requires i <= 8
  {
    if i == 0 then []
    else
      (if BitOf(Xor(prev, cur), 8 - i) == 1 then [RelayChange(i, BitOf(cur, 8 - i))] else [])
        + ChangedDown(prev, cur, i - 1)
  }

  /** `getChangedRelays`: labels 8 down to 1. */
  function ChangedRelays(prev: byte, cur: byte): (r: seq<RelayChange>)
    ensures forall j, k :: 0 <= j < k < |r| ==> r[j].sensor > r[k].sensor
    ensures forall j :: 0 <= j < |r| ==> 1 <= r[j].sensor <= 8
  {
    ChangedDownOrder(prev, cur, 8);
    ChangedDown(prev, cur, 8)
  }

  /** One `sensorChanged` notification per changed relay, in list order. */
  function SensorEvents(ray: int, kpu: int, changes: seq<RelayChange>): (r: seq<Signals.Event>)
    ensures |r| == |changes|
  {
    if changes == [] then []
    else [Signals.SensorChanged(ray, kpu, changes[0].sensor, changes[0].state)]
           + SensorEvents(ray, kpu, changes[1..])
  }

  /** The `i`-th notification is about the `i`-th changed relay. */
  lemma {:induction false} SensorEventsAt(ray: int, kpu: int, changes: seq<RelayChange>, i: nat)
    requires i < |changes|
    ensures SensorEvents(ray, kpu, changes)[i]
      == Signals.SensorChanged(ray, kpu, changes[i].sensor, changes[i].state)
  {
    if i > 0 {
      SensorEventsAt(ray, kpu, changes[1..], i - 1);
    }
  }

  /** `informAboutCommand` of a decoder that accepted: the signals it causes. */
  function InformEvents(d: Decoded): (r: seq<Signals.Event>)
    ensures d.Sensor? ==> |r| == |ChangedRelays(d.prev, d.cur)|
    ensures !d.Sensor? ==> 1 <= |r| <= 2
  {
    match d
    case Bad => [Signals.Error(Signals.ErrorUskWrongPacket)]
    case Unknown(text) => [Signals.UnknownCommand(text)]
    case Reset => [Signals.UskReset, Signals.UskInfoPacketReceived(Signals.PacketUskReset)]
    case Text(message) => [Signals.ReceivedTextMessage(message)]
    case NewKpu(ray, kpu) => [Signals.DetectedNewKpu(ray, kpu)]
    case Disconnected(ray, kpu) => [Signals.DetectedDisconnectedKpu(ray, kpu)]
    case Voltage(output, on) => [Signals.VoltageStatusChanged(output, on)]
    case Sensor(ray, kpu, prev, cur) => SensorEvents(ray, kpu, ChangedRelays(prev, cur))
    case Info(code) => [Signals.UskInfoPacketReceived(code)]
  }

  /** No decoder reports the device's presence: only the engine does. */
  lemma InformEventsNoPresence(d: Decoded)
    ensures forall k :: 0 <= k < |InformEvents(d)| ==> !InformEvents(d)[k].UskIsPresent?
  {
    if d.Sensor? {
      var changes := ChangedRelays(d.prev, d.cur);
      forall k | 0 <= k < |InformEvents(d)|
        ensures !InformEvents(d)[k].UskIsPresent?
      {
        SensorEventsAt(d.sensorRay, d.sensorKpu, changes, k);
      }
    }
  }

  /** One key of the factory's `QMap`: a priority and its producers in
      registration order. */
  datatype Bucket = Bucket(priority: int, kinds: seq<Kind>)

  /** `QMap` keeps its keys in ascending order, each once. */
  predicate SortedByPriority(bs: seq<Bucket>)
  {
    forall i, j :: 0 <= i < j < |bs| ==> bs[i].priority < bs[j].priority
  }

  /** `m_functions[priority].append(...)`: the key is created empty when
      missing, in key order. */
  function Register(bs: seq<Bucket>, priority: int, kind: Kind): (r: seq<Bucket>)
    ensures |r| > 0
  {
    if bs == [] then [Bucket(priority, [kind])]
    else if bs[0].priority == priority then [bs[0].(kinds := bs[0].kinds + [kind])] + bs[1..]
    else if priority < bs[0].priority then [Bucket(priority, [kind])] + bs
    else [bs[0]] + Register(bs[1..], priority, kind)
  }

  /** Registration adds no key below a bound that `priority` and every
      existing key are above. */
  lemma {:induction false} RegisterAbove(bs: seq<Bucket>, priority: int, kind: Kind, bound: int)
    requires bound < priority && forall i :: 0 <= i < |bs| ==> bound < bs[i].priority
    ensures forall i :: 0 <= i < |Register(bs, priority, kind)| ==> bound < Register(bs, priority, kind)[i].priority
  {
    if bs != [] && bs[0].priority < priority {
      RegisterAbove(bs[1..], priority, kind, bound);
    }
  }

  /** Registration keeps the keys sorted. */
  lemma {:induction false} RegisterSorted(bs: seq<Bucket>, priority: int, kind: Kind)
    requires SortedByPriority(bs)
    ensures SortedByPriority(Register(bs, priority, kind))
  {
    if bs != [] && bs[0].priority < priority {
      RegisterSorted(bs[1..], priority, kind);
      RegisterAbove(bs[1..], priority, kind, bs[0].priority);
    }
  }

  /** The producers registered under `priority`. */
  function KindsAt(bs: seq<Bucket>, priority: int): seq<Kind>
  {
    if bs == [] then []
    else if bs[0].priority == priority then bs[0].kinds
    else KindsAt(bs[1..], priority)
  }

  /** The map semantics of registration: the producer is appended to its
      own priority's list and every other list is unchanged. */
  lemma {:induction false} RegisterAppends(bs: seq<Bucket>, priority: int, kind: Kind, q: int)
    requires SortedByPriority(bs)
    ensures KindsAt(Register(bs, priority, kind), q)
      == if q == priority then KindsAt(bs, q) + [kind] else KindsAt(bs, q)
  {
    if bs == [] {
    } else if bs[0].priority == priority {
      assert Register(bs, priority, kind)[1..] == bs[1..];
      if q != priority {
        assert KindsAt(Register(bs, priority, kind), q) == KindsAt(bs[1..], q);
      }
    } else if priority < bs[0].priority {
      assert Register(bs, priority, kind)[1..] == bs;
      if q == priority {
        AbsentBelow(bs, q);
      }
    } else {
      var r := Register(bs, priority, kind);
      assert r[1..] == Register(bs[1..], priority, kind);
      RegisterAppends(bs[1..], priority, kind, q);
    }
  }

  /** A key below every key of the map has no producers. */
  lemma {:induction false} AbsentBelow(bs: seq<Bucket>, q: int)
    requires SortedByPriority(bs) && bs != [] && q < bs[0].priority
    ensures KindsAt(bs, q) == []
    decreases |bs|
  {
    if |bs| > 1 {
      AbsentBelow(bs[1..], q);
    }
  }

  /** The order `getCommandByPacket` tries producers: keys ascending, each
      key's list in registration order. */
  function EvaluationOrder(bs: seq<Bucket>): seq<Kind>
  {
    if bs == [] then [] else bs[0].kinds + EvaluationOrder(bs[1..])
  }

  /** The map the factory constructor leaves: Bad at key 0, the seven
      specific decoders in registration order at key 10, Unknown at key
      65535 (`StandardRegistryShape` derives it from the registrations). */
  function StandardRegistry(): seq<Bucket>
  {
    [Bucket(0, [BadKind]),
     Bucket(10, [ResetKind, TextKind, NewKpuKind, DisconnectedKind, VoltageKind, SensorKind, InfoKind]),
     Bucket(65535, [UnknownKind])]
  }

  const StandardOrder: seq<Kind> :=
    [BadKind, ResetKind, TextKind, NewKpuKind, DisconnectedKind, VoltageKind, SensorKind, InfoKind, UnknownKind]

  /** Registering under the middle key of a three-key map appends to that
      key's list. */
  lemma RegisterMiddle(lo: Bucket, mid: Bucket, hi: Bucket, kind: Kind)
    requires lo.priority < mid.priority < hi.priority
    ensures Register([lo, mid, hi], mid.priority, kind) == [lo, mid.(kinds := mid.kinds + [kind]), hi]
  {
    var bs := [lo, mid, hi];
    assert bs[1..] == [mid, hi] && bs[1..][1..] == [hi];
  }

  /** Registering a priority-10 producer into a map of keys 0, 10 and 65535
      appends it to the priority-10 list. */
  lemma RegisterTen(r: seq<Bucket>, kinds: seq<Kind>, kind: Kind)
    requires r == [Bucket(0, [BadKind]), Bucket(10, kinds), Bucket(65535, [UnknownKind])]
    ensures Register(r, 10, kind) == [Bucket(0, [BadKind]), Bucket(10, kinds + [kind]), Bucket(65535, [UnknownKind])]
  {
    assert r[1..] == [Bucket(10, kinds), Bucket(65535, [UnknownKind])];
    assert r[1..][1..] == [Bucket(65535, [UnknownKind])];
  }

  /** The first three registrations leave keys 0, 10 and 65535. */
  lemma RegistryFirstThree()
    ensures Register(Register(Register([], 0, BadKind), 65535, UnknownKind), 10, ResetKind)
      == [Bucket(0, [BadKind]), Bucket(10, [ResetKind]), Bucket(65535, [UnknownKind])]
  {
    var lo, hi := Bucket(0, [BadKind]), Bucket(65535, [UnknownKind]);
    var r0 := Register([], 0, BadKind);
    var r1 := Register(r0, 65535, UnknownKind);
    assert r1 == [lo, hi] by {
      assert r0 == [lo];
      assert r0[1..] == [];
    }
    assert r1[1..] == [hi];
    assert Register(r1[1..], 10, ResetKind) == [Bucket(10, [ResetKind]), hi];
  }

  /** The factory constructor's nine registrations, in its order, build
      the standard registry. */
  lemma StandardRegistryShape()
    ensures Register(Register(Register(Register(Register(Register(Register(Register(Register(
      [], 0, BadKind), 65535, UnknownKind), 10, ResetKind), 10, TextKind), 10, NewKpuKind),
      10, DisconnectedKind), 10, VoltageKind), 10, SensorKind), 10, InfoKind) == StandardRegistry()
  {
    var r2 := Register(Register(Register([], 0, BadKind), 65535, UnknownKind), 10, ResetKind);
    RegistryFirstThree();
    var r3 := Register(r2, 10, TextKind);
    assert [ResetKind] + [TextKind] == [ResetKind, TextKind];
    RegisterTen(r2, [ResetKind], TextKind);
    var r4 := Register(r3, 10, NewKpuKind);
    assert [ResetKind, TextKind] + [NewKpuKind] == [ResetKind, TextKind, NewKpuKind];
    RegisterTen(r3, [ResetKind, TextKind], NewKpuKind);
    var r5 := Register(r4, 10, DisconnectedKind);
    assert [ResetKind, TextKind, NewKpuKind] + [DisconnectedKind] == [ResetKind, TextKind, NewKpuKind, DisconnectedKind];
    RegisterTen(r4, [ResetKind, TextKind, NewKpuKind], DisconnectedKind);
    var r6 := Register(r5, 10, VoltageKind);
    assert [ResetKind, TextKind, NewKpuKind, DisconnectedKind] + [VoltageKind]
      == [ResetKind, TextKind, NewKpuKind, DisconnectedKind, VoltageKind];
    RegisterTen(r5, [ResetKind, TextKind, NewKpuKind, DisconnectedKind], VoltageKind);
    var r7 := Register(r6, 10, SensorKind);
    assert [ResetKind, TextKind, NewKpuKind, DisconnectedKind, VoltageKind] + [SensorKind]
      == [ResetKind, TextKind, NewKpuKind, DisconnectedKind, VoltageKind, SensorKind];
    RegisterTen(r6, [ResetKind, TextKind, NewKpuKind, DisconnectedKind, VoltageKind], SensorKind);
    assert [ResetKind, TextKind, NewKpuKind, DisconnectedKind, VoltageKind, SensorKind] + [InfoKind]
      == [ResetKind, TextKind, NewKpuKind, DisconnectedKind, VoltageKind, SensorKind, InfoKind];
    RegisterTen(r7, [ResetKind, TextKind, NewKpuKind, DisconnectedKind, VoltageKind, SensorKind], InfoKind);
  }

  /** The registry tries Bad first, then the seven priority-10 decoders in
      registration order, then Unknown. */
  lemma StandardRegistryOrder()
    ensures EvaluationOrder(StandardRegistry()) == StandardOrder
  {
    ThreeKeyOrder(StandardRegistry(), [ResetKind, TextKind, NewKpuKind, DisconnectedKind, VoltageKind, SensorKind, InfoKind]);
  }

  lemma ThreeKeyOrder(r: seq<Bucket>, mid: seq<Kind>)
    requires r == [Bucket(0, [BadKind]), Bucket(10, mid), Bucket(65535, [UnknownKind])]
    ensures EvaluationOrder(r) == [BadKind] + mid + [UnknownKind]
  {
    assert r[1..][1..][1..] == [];
    assert EvaluationOrder(r[1..][1..]) == [UnknownKind];
  }

  /** Index of the first `Some` among decoder answers, or `|answers|` when
      every answer is `None`. */
  function FirstSome(answers: seq<Option<Decoded>>): (i: nat)
    ensures i <= |answers|
  {
    if answers == [] then 0
    else if answers[0].Some? then 0
    else 1 + FirstSome(answers[1..])
  }

  /** The answer at the first `Some` index is indeed `Some`. */
  lemma {:induction false} FirstSomeFound(answers: seq<Option<Decoded>>)
    ensures FirstSome(answers) < |answers| ==> answers[FirstSome(answers)].Some?
  {
    if answers != [] && answers[0].None? {
      FirstSomeFound(answers[1..]);
    }
  }

  /** An answer that is `Some` bounds the first such index. */
  lemma {:induction false} FirstSomeBound(answers: seq<Option<Decoded>>, j: nat)
    requires j < |answers| && answers[j].Some?
    ensures FirstSome(answers) <= j
  {
    if j > 0 && answers[0].None? {
      FirstSomeBound(answers[1..], j - 1);
    }
  }

  /** Every answer before the first `Some` is `None`. */
  lemma {:induction false} FirstSomeMinimal(answers: seq<Option<Decoded>>)
    ensures forall j :: 0 <= j < FirstSome(answers) ==> answers[j].None?
  {
    if answers != [] && answers[0].None? {
      FirstSomeMinimal(answers[1..]);
      forall j | 0 < j < FirstSome(answers)
        ensures answers[j].None?
      {
        assert answers[j] == answers[1..][j - 1];
      }
    }
  }

  /** The first `Some` is at `i` when it is `Some` there and `None` before. */
  lemma {:induction false} FirstSomeAt(answers: seq<Option<Decoded>>, i: nat)
    requires i < |answers| && answers[i].Some?
    requires forall j :: 0 <= j < i ==> answers[j].None?
    ensures FirstSome(answers) == i
  {
    if i > 0 {
      FirstSomeAt(answers[1..], i - 1);
    }
  }

  /** `FirstSomeAt` for the third answer. */
  lemma FirstSomeThird(answers: seq<Option<Decoded>>)
    requires |answers| > 2 && answers[0].None? && answers[1].None? && answers[2].Some?
    ensures FirstSome(answers) == 2
  {
    forall j | 0 <= j < 2
      ensures answers[j].None?
    {
    }
    FirstSomeAt(answers, 2);
  }

  /** What each producer of `kinds`, in order, answers for the packet. */
  function Answers(kinds: seq<Kind>, packet: seq<byte>): (r: seq<Option<Decoded>>)
    ensures |r| == |kinds|
    ensures forall j :: 0 <= j < |kinds| ==> r[j] == Accepts(kinds[j], packet)
  {
    seq(|kinds|, j requires 0 <= j < |kinds| => Accepts(kinds[j], packet))
  }

  /** Index of the first producer in `kinds` whose decoder accepts the
      packet, or `|kinds|` when none does. */
  function FirstAccepting(kinds: seq<Kind>, packet: seq<byte>): (i: nat)
    ensures i <= |kinds|
  {
    FirstSome(Answers(kinds, packet))
  }

  /** The producer at the first accepting index accepts. */
  lemma FirstAcceptingFound(kinds: seq<Kind>, packet: seq<byte>)
    ensures FirstAccepting(kinds, packet) < |kinds| ==> Accepts(kinds[FirstAccepting(kinds, packet)], packet).Some?
  {
    FirstSomeFound(Answers(kinds, packet));
  }

  /** A producer that accepts bounds the first accepting index. */
  lemma FirstAcceptingBound(kinds: seq<Kind>, packet: seq<byte>, j: nat)
    requires j < |kinds| && Accepts(kinds[j], packet).Some?
    ensures FirstAccepting(kinds, packet) <= j
  {
    FirstSomeBound(Answers(kinds, packet), j);
  }

  /** Every producer before the first accepting one declines. */
  lemma FirstAcceptingMinimal(kinds: seq<Kind>, packet: seq<byte>)
    ensures AllDecline(kinds[..FirstAccepting(kinds, packet)], packet)
  {
    var answers, i := Answers(kinds, packet), FirstAccepting(kinds, packet);
    FirstSomeMinimal(answers);
    forall j | 0 <= j < i
      ensures Accepts(kinds[..i][j], packet).None?
    {
      assert answers[j].None?;
    }
  }

  /** When every producer declines, the first accepting index is past the end. */
  lemma NoneAccepts(kinds: seq<Kind>, packet: seq<byte>)
    requires AllDecline(kinds, packet)
    ensures FirstAccepting(kinds, packet) == |kinds|
  {
    FirstAcceptingFound(kinds, packet);
  }

  /** The first accepting decoder is the one at `i` when it accepts and every
      earlier one declines. */
  lemma FirstAcceptingAt(kinds: seq<Kind>, packet: seq<byte>, i: nat)
    requires i < |kinds| && Accepts(kinds[i], packet).Some?
    requires forall j :: 0 <= j < i ==> Accepts(kinds[j], packet).None?
    ensures FirstAccepting(kinds, packet) == i
  {
    var answers := Answers(kinds, packet);
    forall j | 0 <= j < i
      ensures answers[j].None?
    {
    }
    FirstSomeAt(answers, i);
  }

  /** Every producer in `kinds` declines the packet. */
  predicate AllDecline(kinds: seq<Kind>, packet: seq<byte>)
  {
    forall j :: 0 <= j < |kinds| ==> Accepts(kinds[j], packet).None?
  }

  /** The decoder the standard registry picks for a packet. */
  function Classify(packet: seq<byte>): (r: Option<Kind>)
    ensures r.Some? ==> Accepts(r.value, packet).Some?
    ensures r.None? <==> AllDecline(StandardOrder, packet)
  {
    FirstAcceptingFound(StandardOrder, packet);
    FirstAcceptingMinimal(StandardOrder, packet);
    var i := FirstAccepting(StandardOrder, packet);
    assert i == |StandardOrder| ==> StandardOrder[..i] == StandardOrder;
    if i < |StandardOrder| then Some(StandardOrder[i]) else None
  }

  /** The registry is total: some decoder always accepts, so the factory
      never returns a null command. */
  lemma ClassifyTotal(packet: seq<byte>)
    ensures Classify(packet).Some?
  {
    assert StandardOrder[0] == BadKind && StandardOrder[8] == UnknownKind;
    if IsCorrectPacket(packet) {
      FirstAcceptingBound(StandardOrder, packet, 8);
    } else {
      FirstAcceptingBound(StandardOrder, packet, 0);
    }
  }

  /** The bad-packet decoder is chosen exactly for frames that fail
      validation, so the chosen command reports a correct packet exactly
      when it is not the bad-packet one. */
  lemma ClassifyBad(packet: seq<byte>)
    ensures Classify(packet) == Some(BadKind) <==> !IsCorrectPacket(packet)
  {
    ClassifyTotal(packet);
    if !IsCorrectPacket(packet) {
      assert StandardOrder[0] == BadKind;
      FirstAcceptingBound(StandardOrder, packet, 0);
    }
  }

  /** A correct frame no specific decoder accepts reaches the unknown-command
      decoder, which reports its payload text. */
  lemma ClassifyUnknown(packet: seq<byte>)
    requires IsCorrectPacket(packet)
    requires forall j :: 1 <= j < 8 ==> Accepts(StandardOrder[j], packet).None?
    ensures Classify(packet) == Some(UnknownKind)
    ensures Accepts(UnknownKind, packet) == Some(Unknown(Cp1251.Decode(packet[7..23])))
  {
    assert StandardOrder[0] == BadKind && StandardOrder[8] == UnknownKind;
    FirstAcceptingAt(StandardOrder, packet, 8);
  }

  /** The address with sign extension: a low byte of 0x80 or more borrows one
      from the high byte. */
  lemma UskNumberSignExtension(b0: byte, b1: byte)
    ensures UskNumberOf(b0, b1) == b0 + 0x100 * ((b1 + (if b0 >= 0x80 then 0xFF else 0)) % 0x100)
    ensures b0 < 0x80 ==> UskNumberOf(b0, b1) == b0 + 0x100 * b1
  {
    var s0 := SignedChar(b0) % 0x1_0000;
    var s1 := SignedChar(b1) % 0x1_0000;
    assert s0 == if b0 >= 0x80 then b0 + 0xFF00 else b0;
    assert s1 == if b1 >= 0x80 then b1 + 0xFF00 else b1;
  }

  /** Flag bit 16, which selects the text decoder, is bit 0 of byte 4 flipped
      by the borrow the sign extension of bytes 2 and 3 causes: byte 3 of
      0x80 or more, or byte 3 zero and byte 2 of 0x80 or more. */
  lemma TextFlagSignExtension(b2: byte, b3: byte, b4: byte, b5: byte)
    ensures HasTextFlag(FlagsOf(b2, b3, b4, b5))
      <==> ((b4 % 2 == 1) != (b3 >= 0x80 || (b3 == 0 && b2 >= 0x80)))
  {
    var s2, s3, s4, s5 := SignedChar(b2), SignedChar(b3), SignedChar(b4), SignedChar(b5);
    var low := s2 + 0x100 * s3;
    var borrow := if low < 0 then -1 else 0;
    LowBorrow(b2, b3);
    var y := s4 + 0x100 * s5 + borrow;
    FlagBit16(s2 + s3 * 0x100 + s4 * 0x1_0000 + s5 * 0x100_0000, y, low - 0x1_0000 * borrow);
    ParityShift(s4 + borrow, 0x80 * s5);
    ParityShift(b4 + borrow, if b4 >= 0x80 then -0x80 else 0);
    assert y % 2 == (b4 + borrow) % 2;
    if borrow == -1 {
      ParityPred(b4);
    }
  }

  /** One less flips the parity. */
  lemma ParityPred(a: int)
    ensures ((a - 1) % 2 == 1) == (a % 2 == 0)
  {
    var q := a / 2;
    if a % 2 == 1 {
      DivModUnique(a - 1, 2, q, 0);
    } else {
      DivModUnique(a - 1, 2, q - 1, 1);
    }
  }

  lemma ParityShift(a: int, k: int)
    ensures (a + 2 * k) % 2 == a % 2
  {
    DivModUnique(a + 2 * k, 2, a / 2 + k, a % 2);
  }

  /** The low half of the sign-extended flags is negative exactly when byte 3
      is 0x80 or more, or byte 3 is zero and byte 2 is 0x80 or more. */
  lemma LowBorrow(b2: byte, b3: byte)
    ensures SignedChar(b2) + 0x100 * SignedChar(b3) < 0 <==> (b3 >= 0x80 || (b3 == 0 && b2 >= 0x80))
  {
  }

  /** Bit 16 of `x` taken modulo 2^32 is the parity of `y` when `x` is
      `0x10000 * y` plus a remainder below 0x10000. */
  lemma FlagBit16(x: int, y: int, rest: int)
    requires 0 <= rest < 0x1_0000 && x == 0x1_0000 * y + rest
    ensures HasTextFlag(x % 0x1_0000_0000) <==> y % 2 == 1
  {
    var yq, yr := y / 0x1_0000, y % 0x1_0000;
    var low := 0x1_0000 * yr + rest;
    assert y == yq * 0x1_0000 + yr;
    assert x == yq * 0x1_0000_0000 + low;
    DivModUnique(x, 0x1_0000_0000, yq, low);
    DivModUnique(low, 0x1_0000, yr, rest);
    assert y == (yq * 0x8000 + yr / 2) * 2 + yr % 2;
    DivModUnique(y, 2, yq * 0x8000 + yr / 2, yr % 2);
  }

  /** Flag bytes below 0x80 read as their plain little-endian value. */
  lemma FlagsOfPlain(b2: byte, b3: byte, b4: byte, b5: byte)
    requires b2 < 0x80 && b3 < 0x80 && b4 < 0x80 && b5 < 0x80
    ensures FlagsOf(b2, b3, b4, b5) == b2 + 0x100 * b3 + 0x1_0000 * b4 + 0x100_0000 * b5
  {
  }

  /** A frame whose flag bytes read `80 00 00 00` (unsigned value 0x80, bit 16
      clear) still reaches the text decoder whenever the reset decoder
      declines it. */
  lemma TextMisclassification(packet: seq<byte>)
    requires IsCorrectPacket(packet)
    requires packet[2] == 0x80 && packet[3] == 0 && packet[4] == 0 && packet[5] == 0
    requires Accepts(ResetKind, packet).None?
    ensures Classify(packet) == Some(TextKind)
  {
    TextFlagOf(packet);
    ClassifyText(packet);
  }

  /** A frame the reset decoder declines and the text decoder
      accepts is classified as a text message. */
  lemma ClassifyText(packet: seq<byte>)
    requires Accepts(ResetKind, packet).None? && Accepts(TextKind, packet).Some?
    ensures Classify(packet) == Some(TextKind)
  {
    var order := StandardOrder;
    assert order[0] == BadKind && order[1] == ResetKind && order[2] == TextKind;
    FirstAcceptingThird(order, packet);
    ClassifyAt(packet, 2);
  }

  /** The registry picks the producer at the first accepting index. */
  lemma ClassifyAt(packet: seq<byte>, i: nat)
    requires i < |StandardOrder| && FirstAccepting(StandardOrder, packet) == i
    ensures Classify(packet) == Some(StandardOrder[i])
  {
  }

  /** When the first two producers decline and the third accepts, the third
      is the first accepting one. */
  lemma FirstAcceptingThird(kinds: seq<Kind>, packet: seq<byte>)
    requires |kinds| > 2
    requires Accepts(kinds[0], packet).None? && Accepts(kinds[1], packet).None?
    requires Accepts(kinds[2], packet).Some?
    ensures FirstAccepting(kinds, packet) == 2
  {
    FirstSomeThird(Answers(kinds, packet));
  }

  lemma TextFlagOf(packet: seq<byte>)
    requires IsCorrectPacket(packet)
    requires packet[2] == 0x80 && packet[3] == 0 && packet[4] == 0 && packet[5] == 0
    ensures Accepts(TextKind, packet).Some?
  {
    SignExtendedLowByte();
  }

  /** The flag bytes `80 00 00 00` widen to 0xFFFFFF80, which has bit 16 set. */
  lemma SignExtendedLowByte()
    ensures FlagsOf(0x80, 0, 0, 0) == 0xFFFF_FF80 && HasTextFlag(0xFFFF_FF80)
  {
  }

  /** A frame built from a 7-byte header, 16 payload bytes and the two state
      bytes, with its checksum appended, as the device sends it. */
  function DeviceFrame(header: seq<byte>, data: seq<byte>, u1: byte, u2: byte): (f: seq<byte>)
    requires |header| == 7 && |data| == 16
    ensures |f| == 26
  {
    var body := header + data + [u1, u2];
    body + [Checksum(body)]
  }

  /** `parsePacket` inverts the device's framing: the payload and state bytes
      come back unchanged, the address and flags as their bytes read with
      sign extension. */
  lemma ParseDeviceFrame(header: seq<byte>, data: seq<byte>, u1: byte, u2: byte)
    requires |header| == 7 && |data| == 16
    ensures Parse(DeviceFrame(header, data, u1, u2))
      == Some(Frame(UskNumberOf(header[0], header[1]), FlagsOf(header[2], header[3], header[4], header[5]),
                    data, u1, u2))
  {
    var body := header + data + [u1, u2];
    var f := DeviceFrame(header, data, u1, u2);
    assert f == body + [Checksum(body)];
    assert f[..25] == body;
    assert f[7..23] == data;
  }

  /** With every address and flag byte below 0x80 the device's framing round
      trips to the plain little-endian values. */
  lemma ParseDeviceFramePlain(header: seq<byte>, data: seq<byte>, u1: byte, u2: byte)
    requires |header| == 7 && |data| == 16
    requires forall j :: 0 <= j < 6 ==> header[j] < 0x80
    ensures Parse(DeviceFrame(header, data, u1, u2))
      == Some(Frame(header[0] as int + 0x100 * (header[1] as int),
                    header[2] as int + 0x100 * (header[3] as int) + 0x1_0000 * (header[4] as int)
                      + 0x100_0000 * (header[5] as int),
                    data, u1, u2))
  {
    ParseDeviceFrame(header, data, u1, u2);
    UskNumberSignExtension(header[0], header[1]);
    FlagsOfPlain(header[2], header[3], header[4], header[5]);
  }

  /** Label `l` appears in `ChangedDown(prev, cur, i)` (with `l <= i`) exactly
      when bit `8 - l` of `prev` and `cur` differ, and its state is that bit
      of `cur`. */
  lemma {:induction false} ChangedDownMembers(prev: byte, cur: byte, i: nat, l: int, v: int)
    requires i <= 8
    ensures RelayChange(l, v) in ChangedDown(prev, cur, i)
      <==> 1 <= l <= i && BitOf(prev, 8 - l) != BitOf(cur, 8 - l) && v == BitOf(cur, 8 - l)
  {
    if i > 0 {
      ChangedDownMembers(prev, cur, i - 1, l, v);
      XorBit(prev, cur, 8 - i);
    }
  }

  /** `getChangedRelays` reports each of the eight sensors whose bit changed,
      once, with its new state, and no other. */
  lemma ChangedRelaysMembers(prev: byte, cur: byte, l: int, v: int)
    ensures RelayChange(l, v) in ChangedRelays(prev, cur)
      <==> 1 <= l <= 8 && BitOf(prev, 8 - l) != BitOf(cur, 8 - l) && v == BitOf(cur, 8 - l)
  {
    ChangedDownMembers(prev, cur, 8, l, v);
  }

  lemma {:induction false} ChangedDownCount(prev: byte, cur: byte, i: nat)
    requires i <= 8
    ensures |ChangedDown(prev, cur, i)| + PopcountBelow(Xor(prev, cur), 8 - i) == PopcountBelow(Xor(prev, cur), 8)
  {
    if i > 0 {
      var x := Xor(prev, cur);
      ChangedDownCount(prev, cur, i - 1);
      assert PopcountBelow(x, 8 - i + 1) == PopcountBelow(x, 8 - i) + BitOf(x, 8 - i);
      assert |ChangedDown(prev, cur, i)| == (if BitOf(x, 8 - i) == 1 then 1 else 0) + |ChangedDown(prev, cur, i - 1)|;
    }
  }

  lemma XorBelow256(a: byte, b: byte)
    ensures Xor(a, b) < 256
  {
    XorBound(a, b, 8);
  }

  lemma {:induction false} XorBound(a: nat, b: nat, n: nat)
    requires a < Pow2(n) && b < Pow2(n)
    ensures Xor(a, b) < Pow2(n)
    decreases a + b
  {
    if !(a == 0 && b == 0) {
      if n == 0 {
      } else {
        XorBound(a / 2, b / 2, n - 1);
      }
    }
  }

  /** `getChangedRelays` yields one pair per set bit of `prev ^ cur`. */
  lemma ChangedRelaysCount(prev: byte, cur: byte)
    ensures |ChangedRelays(prev, cur)| == Popcount(Xor(prev, cur) % 256)
  {
    var x := Xor(prev, cur);
    ChangedDownCount(prev, cur, 8);
    XorBelow256(prev, cur);
    DivModUnique(x, 256, 0, x);
  }

  /** Labels come out strictly decreasing, from 8 down to 1. */
  lemma {:induction false} ChangedDownOrder(prev: byte, cur: byte, i: nat)
    requires i <= 8
    ensures forall j, k :: 0 <= j < k < |ChangedDown(prev, cur, i)| ==>
      ChangedDown(prev, cur, i)[j].sensor > ChangedDown(prev, cur, i)[k].sensor
    ensures forall j :: 0 <= j < |ChangedDown(prev, cur, i)| ==> 1 <= ChangedDown(prev, cur, i)[j].sensor <= i
  {
    if i > 0 {
      ChangedDownOrder(prev, cur, i - 1);
    }
  }

  /** The device's own voltage message, `<word> 220-<digit>`, is matched with
      the whole word and the digit as the two captures. */
  lemma VoltageMessageMatches(word: string, digit: char)
    requires |word| > 0 && forall j :: 0 <= j < |word| ==> Cp1251.IsWordChar(word[j])
    requires digit == '1' || digit == '2'
    ensures FirstMatch(word + " 220-" + [digit], 0) == Some(VoltageMatch(word, digit))
  {
    var m := word + " 220-" + [digit];
    assert WordStart(m, 0);
    assert forall j :: 0 <= j < |word| ==> m[j] == word[j];
    WordEndOf(m, 0, |word|);
    assert m[|word|..|word| + 5] == " 220-";
    assert m[0..|word|] == word;
  }

  lemma {:induction false} WordEndOf(m: string, p: nat, q: nat)
    requires p <= q < |m|
    requires forall j :: p <= j < q ==> Cp1251.IsWordChar(m[j])
    requires !Cp1251.IsWordChar(m[q])
    ensures WordEnd(m, p) == q
    decreases q - p
  {
    if p < q {
      WordEndOf(m, p + 1, q);
    }
  }

  /** The text of a correct frame, as the decoders see it. */
  function FrameText(packet: seq<byte>): (t: string)
    requires IsCorrectPacket(packet)
    ensures |t| == 16
  {
    Cp1251.Decode(packet[7..23])
  }

  /** A text whose first character lowers to neither a blank nor the first
      letter of the reset phrase is not the reset phrase once trimmed. */
  lemma ResetDeclines(text: string)
    requires |text| > 0 && !Cp1251.IsSpace(text[0]) && Cp1251.LowerChar(text[0]) != ResetText[0]
    ensures ResetDecoder(text).None?
  {
    var t := Cp1251.TrimStart(text);
    assert |t| == |text| && t[0] == text[0];
    var u := Cp1251.TrimEnd(t);
    if u != [] {
      assert Cp1251.ToLower(u)[0] == Cp1251.LowerChar(text[0]);
    }
  }

  /** Trailing spaces after a core that ends in a non-blank are exactly what
      `trimmed` removes at the end. */
  lemma {:induction false} TrimEndSpaces(core: string, pad: string)
    requires core != [] && !Cp1251.IsSpace(core[|core| - 1])
    requires forall j :: 0 <= j < |pad| ==> pad[j] == ' '
    ensures Cp1251.TrimEnd(core + pad) == core
    decreases |pad|
  {
    if pad == [] {
      assert core + pad == core;
    } else {
      var s := core + pad;
      assert s[|s| - 1] == ' ';
      assert s[..|s| - 1] == core + pad[..|pad| - 1];
      TrimEndSpaces(core, pad[..|pad| - 1]);
    }
  }

  /** A correct frame without the text flag whose text starts with a letter
      other than the reset phrase's passes the bad-packet, reset and text
      decoders. */
  lemma FrontDecline(packet: seq<byte>)
    requires IsCorrectPacket(packet)
    requires !HasTextFlag(FlagsOf(packet[2], packet[3], packet[4], packet[5]))
    requires Cp1251.LowerChar(FrameText(packet)[0]) in {'н', 'в', 'l'}
    ensures forall j :: 0 <= j < 3 ==> Accepts(StandardOrder[j], packet).None?
  {
    ParseCorrect(packet);
    var text := FrameText(packet);
    ResetDeclines(text);
  }

  /** `новый оу:`: a correct frame without the text flag whose lower-cased
      text starts with the new-device prefix is classified as a new device,
      whose ray is the digit at 15 and device the digit at 9. */
  lemma NewKpuReport(packet: seq<byte>)
    requires IsCorrectPacket(packet)
    requires !HasTextFlag(FlagsOf(packet[2], packet[3], packet[4], packet[5]))
    requires Cp1251.ToLower(FrameText(packet))[..9] == NewKpuPrefix
    ensures var m := Cp1251.ToLower(FrameText(packet));
      && Classify(packet) == Some(NewKpuKind)
      && Accepts(NewKpuKind, packet) == Some(NewKpu(Cp1251.DigitValue(m[15]), Cp1251.DigitValue(m[9])))
  {
    var m := Cp1251.ToLower(FrameText(packet));
    assert m[0] == NewKpuPrefix[0];
    FrontDecline(packet);
    assert StandardOrder[3] == NewKpuKind;
    FirstAcceptingAt(StandardOrder, packet, 3);
  }

  /** `неисп.оу:`: the same for the lost-device decoder, which the
      new-device decoder leaves alone since the prefixes differ. */
  lemma DisconnectedReport(packet: seq<byte>)
    requires IsCorrectPacket(packet)
    requires !HasTextFlag(FlagsOf(packet[2], packet[3], packet[4], packet[5]))
    requires Cp1251.ToLower(FrameText(packet))[..9] == DisconnectedPrefix
    ensures var m := Cp1251.ToLower(FrameText(packet));
      && Classify(packet) == Some(DisconnectedKind)
      && Accepts(DisconnectedKind, packet) == Some(Disconnected(Cp1251.DigitValue(m[15]), Cp1251.DigitValue(m[9])))
  {
    var m := Cp1251.ToLower(FrameText(packet));
    assert m[0] == DisconnectedPrefix[0];
    assert m[1] != NewKpuPrefix[1];
    FrontDecline(packet);
    assert StandardOrder[3] == NewKpuKind && StandardOrder[4] == DisconnectedKind;
    FirstAcceptingAt(StandardOrder, packet, 4);
  }

  /** The lower-cased text `word 220-d` followed by spaces: `trimmed` drops
      the spaces and the pattern captures the word and the digit. */
  lemma VoltageText(word: string, digit: char, pad: string)
    requires word == OnWord || word == OffWord
    requires digit == '1' || digit == '2'
    requires forall j :: 0 <= j < |pad| ==> pad[j] == ' '
    ensures FirstMatch(Cp1251.Trimmed(word + " 220-" + [digit] + pad), 0) == Some(VoltageMatch(word, digit))
  {
    var core := word + " 220-" + [digit];
    var m := core + pad;
    assert m[0] == word[0];
    assert Cp1251.TrimStart(m) == m by {
      var t := Cp1251.TrimStart(m);
      assert |t| == |m|;
    }
    TrimEndSpaces(core, pad);
    assert forall j :: 0 <= j < |word| ==> Cp1251.IsWordChar(word[j]);
    VoltageMessageMatches(word, digit);
  }

  /** `включение 220-d` / `выключение 220-d`: a correct frame without the
      text flag whose lower-cased text is an on/off word, ` 220-`, the output
      digit and trailing spaces is classified as a voltage change of that
      output, on exactly for the "on" word. */
  lemma VoltageReport(packet: seq<byte>, word: string, digit: char, pad: string)
    requires IsCorrectPacket(packet)
    requires !HasTextFlag(FlagsOf(packet[2], packet[3], packet[4], packet[5]))
    requires word == OnWord || word == OffWord
    requires digit == '1' || digit == '2'
    requires forall j :: 0 <= j < |pad| ==> pad[j] == ' '
    requires Cp1251.ToLower(FrameText(packet)) == word + " 220-" + [digit] + pad
    ensures Classify(packet) == Some(VoltageKind)
    ensures Accepts(VoltageKind, packet) == Some(Voltage(digit as int - '0' as int, word == OnWord))
  {
    VoltageFrontDecline(packet);
    VoltageText(word, digit, pad);
    ParseCorrect(packet);
    assert StandardOrder[5] == VoltageKind;
    FirstAcceptingAt(StandardOrder, packet, 5);
  }

  /** Every decoder before the voltage decoder declines a text starting
      with `в`, which neither device prefix nor the reset phrase does. */
  lemma VoltageFrontDecline(packet: seq<byte>)
    requires IsCorrectPacket(packet)
    requires !HasTextFlag(FlagsOf(packet[2], packet[3], packet[4], packet[5]))
    requires Cp1251.ToLower(FrameText(packet))[0] == 'в'
    ensures forall j :: 0 <= j < 5 ==> Accepts(StandardOrder[j], packet).None?
  {
    var m := Cp1251.ToLower(FrameText(packet));
    assert m[..9][0] == 'в';
    FrontDecline(packet);
    ParseCorrect(packet);
    assert StandardOrder[3] == NewKpuKind && StandardOrder[4] == DisconnectedKind;
  }

  /** `полный сброс уск`: a correct frame whose trimmed, lower-cased text is
      the reset phrase is classified as a reset, whatever its flags. */
  lemma ResetReport(packet: seq<byte>)
    requires IsCorrectPacket(packet)
    requires Cp1251.ToLower(Cp1251.Trimmed(FrameText(packet))) == ResetText
    ensures Classify(packet) == Some(ResetKind)
    ensures Accepts(ResetKind, packet) == Some(Reset)
  {
    ParseCorrect(packet);
    assert StandardOrder[0] == BadKind && StandardOrder[1] == ResetKind;
    FirstAcceptingAt(StandardOrder, packet, 1);
  }

  /** Neither of the first two positions of a text starting `l=` begins a
      match: `l` is a one-letter word followed by `=`, and `=` is no word. */
  lemma NoMatchAtFront(t: string)
    requires |t| >= 2 && t[0] == 'l' && t[1] == '='
    ensures FirstMatch(t, 0) == FirstMatch(t, 2)
  {
    assert WordEnd(t, 1) == 1;
    assert WordEnd(t, 0) == 1;
    assert MatchAt(t, 0).None?;
    assert MatchAt(t, 1).None?;
  }

  /** A text of at most 16 characters that starts `l=` has no room left
      for `включение 220-d` or `выключение 220-d`. */
  lemma NoVoltageWord(t: string)
    requires |t| <= 16
    requires |t| >= 2 ==> t[0] == 'l' && t[1] == '='
    ensures FirstMatch(t, 0).None? || (FirstMatch(t, 0).value.word != OnWord && FirstMatch(t, 0).value.word != OffWord)
  {
    if |t| >= 2 {
      NoMatchAtFront(t);
    }
  }

  /** The voltage decoder declines a 16-character text starting `l=`. */
  lemma SensorTextNoVoltage(text: string)
    requires |text| == 16
    requires Cp1251.ToLower(text)[0..2] == "l="
    ensures VoltageDecoder(text).None?
  {
    var m := Cp1251.ToLower(text);
    assert m[0] == 'l' && m[1] == '=' by {
      assert m[0..2][0] == m[0] && m[0..2][1] == m[1];
    }
    var t0 := Cp1251.TrimStart(m);
    assert |t0| == |m| && t0[0] == 'l' && t0[1] == '=';
    var t := Cp1251.TrimEnd(t0);
    NoVoltageWord(t);
  }

  /** `l=r k=k`: a correct frame without the text flag whose lower-cased
      text has `l=` at 0 and `k=` at 4 is classified as a sensor change,
      with the ray digit at 2, the device digit at 6 and the two relay
      states from the spare bytes. */
  lemma SensorReport(packet: seq<byte>)
    requires IsCorrectPacket(packet)
    requires !HasTextFlag(FlagsOf(packet[2], packet[3], packet[4], packet[5]))
    requires var m := Cp1251.ToLower(FrameText(packet)); m[0..2] == "l=" && m[4..6] == "k="
    ensures var m := Cp1251.ToLower(FrameText(packet));
      && Classify(packet) == Some(SensorKind)
      && Accepts(SensorKind, packet)
         == Some(Sensor(Cp1251.DigitValue(m[2]), Cp1251.DigitValue(m[6]), packet[23], packet[24]))
  {
    SensorFrontDecline(packet);
    ParseCorrect(packet);
    assert StandardOrder[6] == SensorKind;
    FirstAcceptingAt(StandardOrder, packet, 6);
  }

  /** Every decoder before the sensor decoder declines a sensor text. */
  lemma SensorFrontDecline(packet: seq<byte>)
    requires IsCorrectPacket(packet)
    requires !HasTextFlag(FlagsOf(packet[2], packet[3], packet[4], packet[5]))
    requires Cp1251.ToLower(FrameText(packet))[0..2] == "l="
    ensures forall j :: 0 <= j < 6 ==> Accepts(StandardOrder[j], packet).None?
  {
    var text := FrameText(packet);
    var m := Cp1251.ToLower(text);
    assert m[0] == 'l' by {
      assert m[0..2][0] == m[0];
    }
    assert m[..9][0] == 'l';
    FrontDecline(packet);
    ParseCorrect(packet);
    SensorTextNoVoltage(text);
    assert StandardOrder[3] == NewKpuKind && StandardOrder[4] == DisconnectedKind;
    assert StandardOrder[5] == VoltageKind;
  }
}
