/** Outgoing commands: the five request kinds, the frames they encode to, and
    the attempt bookkeeping of `sendCommand`. A frame is an 8-byte header
    (except for reset), a body, and an appended 8-bit additive checksum. */
module Outgoing {
  import opened Bytes
  import Cp1251

  /** The calendar fields `QDateTime` hands the time encoder. Day, month and
      the time-of-day fields are never negative; the year may be. */
  datatype DateTime = DateTime(year: int, month: nat, day: nat, hour: nat, minute: nat, second: nat)

  predicate ValidDateTime(d: DateTime)
  {
    1 <= d.month <= 12 && 1 <= d.day <= 31 && d.hour < 24 && d.minute < 60 && d.second < 60
  }

  /** What a command asks the device to do; the immutable part of a command. */
  datatype Payload =
    | SendTime(time: DateTime)
    | SendMessage(message: string)
    | ResetUsk
    | ChangeRelay(rayNum: int, kpuNum: int, sensorNum: int, relayStatus: int, sensorName: string)
    | ChangeVoltage(numOutput: int, on: bool)

  /** A queued command: its payload, the device number it was built for, the
      attempts left, whether it has never been sent, and whether it captured a
      serial port when it was created (`m_serialPort != nullptr`). */
  datatype OutgoingCommand = OutgoingCommand(
    payload: Payload, uskNumber: int, attempts: int, isFirstAttempt: bool, portBound: bool)
  {
    /** `needToInformAboutStartSending`: every kind but the periodic time set. */
    predicate NeedToInformAboutStartSending()
    {
      !payload.SendTime?
    }

    predicate IsAnotherAttemptPresent()
    {
      attempts > 0
    }

    function Packet(): seq<byte>
    {
      OutgoingBinaryPacket(payload, uskNumber)
    }
  }

  /** The constructor of `Usk1OutgoingCommand`: first attempt still to come. */
  function NewCommand(payload: Payload, uskNumber: int, attempts: int, portBound: bool): (c: OutgoingCommand)
    ensures c.isFirstAttempt && c.attempts == attempts && c.payload == payload
  {
    OutgoingCommand(payload, uskNumber, attempts, true, portBound)
  }

  /** Whether `sendCommand` writes: the captured port exists and is open. */
  predicate Transmits(c: OutgoingCommand, portOpen: bool)
  {
    c.portBound && portOpen
  }

  /** The command after `sendCommand`: never again a first attempt, and one
      attempt fewer exactly when the frame was written. */
  function AfterSend(c: OutgoingCommand, portOpen: bool): (c': OutgoingCommand)
    ensures !c'.isFirstAttempt
    ensures c'.attempts == if Transmits(c, portOpen) then c.attempts - 1 else c.attempts
    ensures c'.payload == c.payload && c'.uskNumber == c.uskNumber && c'.portBound == c.portBound
  {
    c.(isFirstAttempt := false, attempts := if Transmits(c, portOpen) then c.attempts - 1 else c.attempts)
  }

  /** Little-endian value of a byte string. */
  function LittleEndian(s: seq<byte>): nat
  {
    if s == [] then 0 else s[0] + 256 * LittleEndian(s[1..])
  }

  /** `getFirstPartOfPacket`: `[0x00, addr lo, addr hi, f0, f1, f2, f3, priority]`
      with the device number truncated to `ushort`. */
  function FirstPartOfPacket(uskNumber: int, flags: nat, priority: byte): (r: seq<byte>)
    ensures |r| == 8 && r[0] == 0 && r[7] == priority
    ensures LittleEndian(r[1..3]) == uskNumber % 0x1_0000
    ensures LittleEndian(r[3..7]) == flags % 0x1_0000_0000
  {
    var n := uskNumber % 0x1_0000;
    var r := [0, n % 256, n / 256,
              flags % 256, (flags / 0x100) % 256, (flags / 0x1_0000) % 256, (flags / 0x100_0000) % 256,
              priority];
    LittleEndianPair(r[1..3]);
    FlagsBytes(flags, r[3..7]);
    r
  }

  lemma LittleEndianPair(s: seq<byte>)
    requires |s| == 2
    ensures LittleEndian(s) == s[0] as int + 256 * s[1] as int
  {
    assert s[1..][1..] == [];
    assert LittleEndian(s[1..]) == s[1] as int + 256 * LittleEndian(s[1..][1..]);
  }

  lemma FlagsBytes(flags: nat, s: seq<byte>)
    requires s == [flags % 256, (flags / 0x100) % 256, (flags / 0x1_0000) % 256, (flags / 0x100_0000) % 256]
    ensures LittleEndian(s) == flags % 0x1_0000_0000
  {
    var a: int, b: int, c: int, d: int := s[0], s[1], s[2], s[3];
    var s1, s2, s3 := s[1..], s[1..][1..], s[1..][1..][1..];
    assert s3[1..] == [];
    assert LittleEndian(s3) == d;
    assert LittleEndian(s2) == c + 256 * d;
    assert LittleEndian(s1) == b + 256 * (c + 256 * d);
    assert LittleEndian(s) == a + 256 * (b + 256 * (c + 256 * d));
    var q1, q2, q3 := flags / 0x100, flags / 0x1_0000, flags / 0x100_0000;
    DivModUnique(flags, 0x100, q1, a);
    DivModUnique(q1, 256, q1 / 256, b);
    DivModUnique(flags, 0x1_0000, q1 / 256, b * 256 + a);
    DivModUnique(q2, 256, q2 / 256, c);
    DivModUnique(flags, 0x100_0000, q2 / 256, c * 0x1_0000 + b * 256 + a);
    DivModUnique(q3, 256, q3 / 256, d);
    DivModUnique(flags, 0x1_0000_0000, q3 / 256, d * 0x100_0000 + c * 0x1_0000 + b * 256 + a);
  }

  /** The frame with its checksum appended, as `appendCrcToPacket` leaves it. */
  function WithCrc(packet: seq<byte>): (r: seq<byte>)
    ensures |r| == |packet| + 1 && r[..|packet|] == packet
    ensures ChecksumOk(r)
  {
    var r := packet + [Checksum(packet)];
    assert r[..|packet|] == packet;
    r
  }

  /** `appendCrcToPacket`: sums the bytes in a `char` accumulator, wrapping at
      256, and appends the result. */
  method AppendCrcToPacket(packet: seq<byte>) returns (r: seq<byte>)
    ensures r == WithCrc(packet)
  {
    var crc: byte := 0;
    var i := 0;
    while i < |packet|
      invariant 0 <= i <= |packet|
      invariant crc == Checksum(packet[..i])
    {
      ChecksumStep(packet, i);
      crc := (crc + packet[i]) % 256;
      i := i + 1;
    }
    assert packet[..i] == packet;
    r := packet + [crc];
  }

  /** `QString::number` of a non-negative integer. */
  function DecimalText(n: nat): (s: string)
    ensures |s| >= 1
    ensures n < 10 ==> s == [('0' as int + n) as char]
    ensures forall i :: 0 <= i < |s| ==> '0' <= s[i] <= '9'
    decreases n
  {
    if n < 10 then [('0' as int + n) as char] else DecimalText(n / 10) + DecimalText(n % 10)
  }

  /** `QString::number` of any integer. */
  function NumberText(n: int): (s: string)
    ensures n >= 0 ==> s == DecimalText(n)
    ensures n < 0 ==> s == "-" + DecimalText(-n)
  {
    if n < 0 then "-" + DecimalText(-n) else DecimalText(n)
  }

  /** `QString("%0").arg(n, 2, 10, QChar('0'))`: at least two digits, zero padded. */
  function Pad2(n: nat): (s: string)
    ensures n < 100 ==> |s| == 2 && s[0] == ('0' as int + n / 10) as char && s[1] == ('0' as int + n % 10) as char
    ensures forall i :: 0 <= i < |s| ==> '0' <= s[i] <= '9'
  {
    if n < 10 then "0" + DecimalText(n) else DecimalText(n)
  }

  /** C++ `a % 10` on `int`: the remainder truncates toward zero, so it takes
      the sign of the dividend. */
  function TruncRem10(a: int): (r: int)
    ensures -10 < r < 10
    ensures a >= 0 ==> r == a % 10
    ensures r <= 0 <== a < 0
    ensures (a - r) % 10 == 0
  {
    if a >= 0 then a % 10 else -((-a) % 10)
  }

  /** The clock text `DD/MM/Y HH:MM:SS` of the time command. */
  function TimeText(d: DateTime): (r: string)
    ensures ValidDateTime(d) ==> |r| == if d.year < 0 && d.year % 10 != 0 then 17 else 16
  {
    Pad2(d.day) + "/" + Pad2(d.month) + "/" + NumberText(TruncRem10(d.year)) + " "
      + Pad2(d.hour) + ":" + Pad2(d.minute) + ":" + Pad2(d.second)
  }

  /** The text of a relay command, `КПУ ray/kpu/sensor/state`. */
  function RelayText(rayNum: int, kpuNum: int, sensorNum: int, relayStatus: int): (r: string)
    ensures |r| == 16 + SignWidth(rayNum) + SignWidth(kpuNum) + SignWidth(sensorNum)
  {
    "КПУ " + NumberText(TruncRem10(rayNum)) + "/" + NumberText(TruncRem10(kpuNum))
      + "/" + NumberText(TruncRem10(sensorNum)) + "/"
      + (if relayStatus == 1 then "Вкл 0 " else "Выкл 0")
  }

  /** The extra character a number's last digit takes in the text: the
      minus sign of a negative number not divisible by ten. */
  function SignWidth(n: int): nat
  {
    if n < 0 && n % 10 != 0 then 1 else 0
  }

  /** The two trailing bytes of a relay command: the ray number, then the
      device, sensor and state packed as `kpu * 16 + (sensor - 1) * 2 + state`,
      each truncated to a byte. */
  function RelayBytes(ray: int, kpu: int, sensor: int, status: int): (r: seq<byte>)
    ensures |r| == 2
  {
    [ToByte(ray), ToByte(kpu * 0x10 + (sensor - 1) * 2 + status)]
  }

  /** The flags word of a voltage command. */
  function VoltageFlags(numOutput: int, on: bool): (f: nat)
    ensures f == 0x20 || f == 0x100 || f == 0x2000 || f == 0x4000
    ensures f >= 0x2000 <==> numOutput == 2
    ensures f == 0x20 || f == 0x2000 <==> on
  {
    if numOutput == 2 then (if on then 0x2000 else 0x4000)
    else (if on then 0x20 else 0x100)
  }

  /** Sixteen bytes of message text: the first (at most) sixteen characters
      encoded, then spaces. */
  function MessageField(message: string): (r: seq<byte>)
    ensures |r| == 16
  {
    var n := if |message| > 16 then 16 else |message|;
    Cp1251.Encode(message[..n]) + Spaces(16 - n)
  }

  function Spaces(n: nat): (r: seq<byte>)
    ensures |r| == n && forall i :: 0 <= i < n ==> r[i] == ' ' as int
  {
    seq(n, _ => ' ' as int)
  }

  function Zeros(n: nat): (r: seq<byte>)
    ensures |r| == n && forall i :: 0 <= i < n ==> r[i] == 0
  {
    seq(n, _ => 0)
  }

  /** `outgoingBinaryPacket` of each command kind. */
  function OutgoingBinaryPacket(payload: Payload, uskNumber: int): (r: seq<byte>)
    ensures ChecksumOk(r)
    ensures payload.ResetUsk? || payload.SendMessage? || payload.ChangeVoltage? ==> |r| == 27
  {
    match payload
    case SendTime(d) =>
      WithCrc(FirstPartOfPacket(uskNumber, 2, 0) + Cp1251.Encode(TimeText(d)) + [0, 0])
    case SendMessage(message) =>
      WithCrc(FirstPartOfPacket(uskNumber, 4, 0) + MessageField(message) + [0, 0])
    case ResetUsk =>
      var n := uskNumber % 0x1_0000;
      WithCrc(Zeros(26)[1 := n % 256][2 := n / 256][3 := 1])
    case ChangeRelay(ray, kpu, sensor, status, _) =>
      WithCrc(FirstPartOfPacket(uskNumber, 0x1000, 0) + Cp1251.Encode(RelayText(ray, kpu, sensor, status))
              + RelayBytes(ray, kpu, sensor, status))
    case ChangeVoltage(output, on) =>
      WithCrc(FirstPartOfPacket(uskNumber, VoltageFlags(output, on), 0) + Spaces(16) + [0, 0])
  }
}
