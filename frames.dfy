/** Layout of every outgoing frame: the header round trip, the body each kind
    carries, and the appended checksum. */
module Frames {
  import opened Bytes
  import Cp1251
  import opened Outgoing

  /** The flags word the header of each kind carries (reset has no header). */
  function PayloadFlags(payload: Payload): (r: nat)
    ensures r < 0x1_0000
  {
    match payload
    case SendTime(_) => 2
    case SendMessage(_) => 4
    case ResetUsk => 0
    case ChangeRelay(_, _, _, _, _) => 0x1000
    case ChangeVoltage(output, on) => VoltageFlags(output, on)
  }

  /** The body that follows the header: text or spaces, then the two trailing
      bytes (zeros, or the relay's coordinate bytes). */
  function Body(payload: Payload): seq<byte>
    requires !payload.ResetUsk?
  {
    match payload
    case SendTime(d) => Cp1251.Encode(TimeText(d)) + [0, 0]
    case SendMessage(message) => MessageField(message) + [0, 0]
    case ChangeRelay(ray, kpu, sensor, status, _) =>
      Cp1251.Encode(RelayText(ray, kpu, sensor, status)) + RelayBytes(ray, kpu, sensor, status)
    case ChangeVoltage(_, _) => Spaces(16) + [0, 0]
  }

  /** A frame with an 8-byte header: the header, then the body, then the checksum. */
  lemma FrameSplit(h: seq<byte>, body: seq<byte>)
    requires |h| == 8
    ensures var f := WithCrc(h + body);
      && |f| == 9 + |body| && ChecksumOk(f) && f[..8] == h && f[8..8 + |body|] == body
      && f[0] == h[0] && f[1..3] == h[1..3] && f[3..7] == h[3..7] && f[7] == h[7]
  {
    var f := WithCrc(h + body);
    assert f[..8] == (h + body)[..8];
    assert f[1..3] == f[..8][1..3];
    assert f[3..7] == f[..8][3..7];
    assert f[8..8 + |body|] == (h + body)[8..];
  }

  /** Every frame but reset is the kind's header, its body and the checksum. */
  lemma PacketShape(payload: Payload, uskNumber: int)
    requires !payload.ResetUsk?
    ensures OutgoingBinaryPacket(payload, uskNumber)
      == WithCrc(FirstPartOfPacket(uskNumber, PayloadFlags(payload), 0) + Body(payload))
  {
    match payload {
      case SendTime(d) => TimeShape(d, uskNumber);
      case SendMessage(m) => MessageShape(m, uskNumber);
      case ChangeRelay(ray, kpu, sensor, status, name) => RelayShape(ray, kpu, sensor, status, name, uskNumber);
      case ChangeVoltage(output, on) => VoltageShape(output, on, uskNumber);
    }
  }

  lemma TimeShape(d: DateTime, uskNumber: int)
    ensures OutgoingBinaryPacket(SendTime(d), uskNumber)
      == WithCrc(FirstPartOfPacket(uskNumber, 2, 0) + (Cp1251.Encode(TimeText(d)) + [0, 0]))
  {
    var h := FirstPartOfPacket(uskNumber, 2, 0);
    Regroup(h, Cp1251.Encode(TimeText(d)), [0, 0]);
  }

  lemma MessageShape(m: string, uskNumber: int)
    ensures OutgoingBinaryPacket(SendMessage(m), uskNumber)
      == WithCrc(FirstPartOfPacket(uskNumber, 4, 0) + (MessageField(m) + [0, 0]))
  {
    var h := FirstPartOfPacket(uskNumber, 4, 0);
    Regroup(h, MessageField(m), [0, 0]);
  }

  lemma RelayShape(ray: int, kpu: int, sensor: int, status: int, name: string, uskNumber: int)
    ensures OutgoingBinaryPacket(ChangeRelay(ray, kpu, sensor, status, name), uskNumber)
      == WithCrc(FirstPartOfPacket(uskNumber, 0x1000, 0)
                 + (Cp1251.Encode(RelayText(ray, kpu, sensor, status)) + RelayBytes(ray, kpu, sensor, status)))
  {
    var h := FirstPartOfPacket(uskNumber, 0x1000, 0);
    var t := Cp1251.Encode(RelayText(ray, kpu, sensor, status));
    var tail := RelayBytes(ray, kpu, sensor, status);
    Regroup(h, t, tail);
  }

  lemma Regroup(h: seq<byte>, t: seq<byte>, tail: seq<byte>)
    ensures h + t + tail == h + (t + tail)
  {
  }

  lemma VoltageShape(output: int, on: bool, uskNumber: int)
    ensures OutgoingBinaryPacket(ChangeVoltage(output, on), uskNumber)
      == WithCrc(FirstPartOfPacket(uskNumber, VoltageFlags(output, on), 0) + (Spaces(16) + [0, 0]))
  {
    var h := FirstPartOfPacket(uskNumber, VoltageFlags(output, on), 0);
    Regroup(h, Spaces(16), [0, 0]);
  }

  /** The header's address and flags bytes read back (little-endian) as the
      device number and the flags word. */
  lemma HeaderFields(uskNumber: int, flags: nat, body: seq<byte>)
    requires flags < 0x1_0000_0000
    ensures var f := WithCrc(FirstPartOfPacket(uskNumber, flags, 0) + body);
      && f[0] == 0 && f[7] == 0
      && LittleEndian(f[1..3]) == uskNumber % 0x1_0000
      && LittleEndian(f[3..7]) == flags
  {
    FrameSplit(FirstPartOfPacket(uskNumber, flags, 0), body);
  }

  /** In every frame but reset the header carries the device number and the
      kind's flags word. */
  lemma HeaderRoundTrip(payload: Payload, uskNumber: int)
    requires !payload.ResetUsk?
    ensures var f := OutgoingBinaryPacket(payload, uskNumber);
      && f[0] == 0 && f[7] == 0
      && LittleEndian(f[1..3]) == uskNumber % 0x1_0000
      && LittleEndian(f[3..7]) == PayloadFlags(payload)
  {
    PacketShape(payload, uskNumber);
    HeaderFields(uskNumber, PayloadFlags(payload), Body(payload));
  }

  /** Every character of `s` is one the code page carries. */
  predicate Carried(s: string)
  {
    forall i :: 0 <= i < |s| ==> Cp1251.Representable(s[i])
  }

  /** ASCII or the contiguous Cyrillic block: the characters the frames'
      own texts use, all of which the code page carries. */
  predicate Plain(s: string)
  {
    forall i :: 0 <= i < |s| ==> s[i] as int < 0x80 || 0x410 <= s[i] as int < 0x450
  }

  lemma PlainCarried(s: string)
    requires Plain(s)
    ensures Carried(s)
  {
  }

  lemma PlainConcat(a: string, b: string)
    requires Plain(a) && Plain(b)
    ensures Plain(a + b)
  {
    assert forall i :: |a| <= i < |a + b| ==> (a + b)[i] == b[i - |a|];
  }

  lemma PlainNumber(n: int)
    requires 0 <= n < 10
    ensures Plain(NumberText(n)) && |NumberText(n)| == 1
  {
  }

  function Digit(n: nat): char
    requires n < 10
  {
    ('0' as int + n) as char
  }

  lemma Pad2Digits(n: nat)
    requires n < 100
    ensures Pad2(n) == [Digit(n / 10), Digit(n % 10)]
  {
  }

  /** The clock text is `DD/MM/Y HH:MM:SS`: sixteen ASCII characters with the
      two-digit day, month, hour, minute and second and the last digit of the
      year. */
  lemma TimeTextLayout(d: DateTime)
    requires ValidDateTime(d) && d.year >= 0
    ensures TimeText(d) == [Digit(d.day / 10), Digit(d.day % 10)] + "/" + [Digit(d.month / 10), Digit(d.month % 10)]
                           + "/" + [Digit(d.year % 10)] + " " + [Digit(d.hour / 10), Digit(d.hour % 10)]
                           + ":" + [Digit(d.minute / 10), Digit(d.minute % 10)]
                           + ":" + [Digit(d.second / 10), Digit(d.second % 10)]
  {
    Pad2Digits(d.day); Pad2Digits(d.month); Pad2Digits(d.hour); Pad2Digits(d.minute); Pad2Digits(d.second);
    assert NumberText(TruncRem10(d.year)) == [Digit(d.year % 10)];
  }

  lemma DigitsPlain(s: string)
    requires forall i :: 0 <= i < |s| ==> '0' <= s[i] <= '9'
    ensures Plain(s)
  {
  }

  lemma TimeTextCarried(d: DateTime)
    requires ValidDateTime(d) && d.year >= 0
    ensures |TimeText(d)| == 16 && Carried(TimeText(d))
  {
    var y := NumberText(TruncRem10(d.year));
    var dd, mm, hh, mi, ss := Pad2(d.day), Pad2(d.month), Pad2(d.hour), Pad2(d.minute), Pad2(d.second);
    DigitsPlain(y); DigitsPlain(dd); DigitsPlain(mm); DigitsPlain(hh); DigitsPlain(mi); DigitsPlain(ss);
    assert Plain("/") && Plain(" ") && Plain(":");
    var t := dd + "/";
    PlainConcat(dd, "/");
    PlainConcat(t, mm); t := t + mm;
    PlainConcat(t, "/"); t := t + "/";
    PlainConcat(t, y); t := t + y;
    PlainConcat(t, " "); t := t + " ";
    PlainConcat(t, hh); t := t + hh;
    PlainConcat(t, ":"); t := t + ":";
    PlainConcat(t, mi); t := t + mi;
    PlainConcat(t, ":"); t := t + ":";
    PlainConcat(t, ss); t := t + ss;
    assert t == TimeText(d);
    PlainCarried(t);
  }

  /** A frame whose body is sixteen characters of carried text and two more
      bytes: the text decodes back from bytes 8..23. */
  lemma TextFrame(h: seq<byte>, text: string, tail: seq<byte>)
    requires |h| == 8 && |text| == 16 && Carried(text) && |tail| == 2
    ensures var f := WithCrc(h + (Cp1251.Encode(text) + tail));
      && |f| == 27 && ChecksumOk(f)
      && Cp1251.Decode(f[8..24]) == text && f[24] == tail[0] && f[25] == tail[1]
  {
    var body := Cp1251.Encode(text) + tail;
    FrameSplit(h, body);
    var f := WithCrc(h + body);
    assert f[8..24] == f[8..26][..16];
    assert body[..16] == Cp1251.Encode(text);
    Cp1251.DecodeEncode(text);
    assert f[24] == body[16] && f[25] == body[17];
  }

  /** A time frame is 27 bytes: header with flags 2, the clock text, two zero
      bytes and the checksum. */
  lemma TimeFrame(d: DateTime, uskNumber: int)
    requires ValidDateTime(d) && d.year >= 0
    ensures var f := OutgoingBinaryPacket(SendTime(d), uskNumber);
      && |f| == 27 && ChecksumOk(f)
      && Cp1251.Decode(f[8..24]) == TimeText(d)
      && f[24] == 0 && f[25] == 0
  {
    TimeTextCarried(d);
    TimeShape(d, uskNumber);
    TextFrame(FirstPartOfPacket(uskNumber, 2, 0), TimeText(d), [0, 0]);
  }

  /** A message frame is 27 bytes: header with flags 4, the first (at most)
      sixteen characters of the message, space padding, two zero bytes and the
      checksum; text the code page can carry decodes back unchanged. */
  lemma MessageFrame(message: string, uskNumber: int)
    ensures var f := OutgoingBinaryPacket(SendMessage(message), uskNumber);
      var n := if |message| > 16 then 16 else |message|;
      && |f| == 27 && ChecksumOk(f)
      && f[8..8 + n] == Cp1251.Encode(message[..n])
      && (forall i :: 8 + n <= i < 24 ==> f[i] == ' ' as int)
      && f[24] == 0 && f[25] == 0
      && (Carried(message[..n]) ==> Cp1251.Decode(f[8..8 + n]) == message[..n])
  {
    var n := if |message| > 16 then 16 else |message|;
    var h := FirstPartOfPacket(uskNumber, 4, 0);
    var m := MessageField(message);
    var body := m + [0, 0];
    var f := OutgoingBinaryPacket(SendMessage(message), uskNumber);
    MessageShape(message, uskNumber);
    FrameSplit(h, body);
    assert m == Cp1251.Encode(message[..n]) + Spaces(16 - n);
    assert forall i :: 8 <= i < 26 ==> f[i] == body[i - 8];
    assert f[8..8 + n] == Cp1251.Encode(message[..n]);
    if Carried(message[..n]) {
      Cp1251.DecodeEncode(message[..n]);
    }
  }

  lemma SumFour(a: byte, b: byte, c: byte, d: byte)
    ensures Sum([a, b, c, d]) == a + b + c + d
  {
    SumSnoc([], a);
    assert [a] == [] + [a];
    SumSnoc([a], b);
    SumSnoc([a, b], c);
    SumSnoc([a, b, c], d);
    assert [a, b] == [a] + [b] && [a, b, c] == [a, b] + [c] && [a, b, c, d] == [a, b, c] + [d];
  }

  lemma {:induction false} ZerosSum(k: nat)
    ensures Sum(Zeros(k)) == 0
  {
    if k > 0 {
      assert Zeros(k)[..k - 1] == Zeros(k - 1);
      ZerosSum(k - 1);
    }
  }

  /** The reset frame has no header: 26 zero bytes except the device number
      at 1..2 and the constant 1 at 3, then the checksum appended at index 26. */
  lemma ResetFrame(uskNumber: int)
    ensures var f := OutgoingBinaryPacket(ResetUsk, uskNumber);
      var n := uskNumber % 0x1_0000;
      && |f| == 27 && ChecksumOk(f)
      && f[0] == 0 && f[1] == n % 256 && f[2] == n / 256 && f[3] == 1
      && (forall i :: 4 <= i < 26 ==> f[i] == 0)
      && LittleEndian(f[1..3]) == n
      && f[26] == (n % 256 + n / 256 + 1) % 256
  {
    var n := uskNumber % 0x1_0000;
    var z := Zeros(26)[1 := n % 256][2 := n / 256][3 := 1];
    var f := OutgoingBinaryPacket(ResetUsk, uskNumber);
    assert f == z + [Checksum(z)];
    assert z == [0, n % 256, n / 256, 1] + Zeros(22);
    SumAppend([0, n % 256, n / 256, 1], Zeros(22));
    ZerosSum(22);
    SumFour(0, n % 256, n / 256, 1);
    assert f[1..3] == [n % 256, n / 256];
    LittleEndianPair(f[1..3]);
  }

  /** The relay text is sixteen characters the code page carries when ray,
      node and sensor are not negative. */
  lemma RelayTextLayout(ray: int, kpu: int, sensor: int, status: int)
    requires ray >= 0 && kpu >= 0 && sensor >= 0
    ensures |RelayText(ray, kpu, sensor, status)| == 16 && Carried(RelayText(ray, kpu, sensor, status))
  {
    var r, k, s := NumberText(TruncRem10(ray)), NumberText(TruncRem10(kpu)), NumberText(TruncRem10(sensor));
    PlainNumber(TruncRem10(ray)); PlainNumber(TruncRem10(kpu)); PlainNumber(TruncRem10(sensor));
    var st := if status == 1 then "Вкл 0 " else "Выкл 0";
    assert Plain("КПУ ") && Plain(st) && Plain("/");
    PlainConcat("КПУ ", r); PlainConcat("КПУ " + r, "/"); PlainConcat("КПУ " + r + "/", k);
    PlainConcat("КПУ " + r + "/" + k, "/"); PlainConcat("КПУ " + r + "/" + k + "/", s);
    PlainConcat("КПУ " + r + "/" + k + "/" + s, "/");
    PlainConcat("КПУ " + r + "/" + k + "/" + s + "/", st);
    PlainCarried(RelayText(ray, kpu, sensor, status));
  }

  /** A relay frame is 27 bytes with no trailing zeros: header with flags
      0x1000, the sixteen-character text, the ray byte and the packed
      node/sensor/state byte. */
  lemma RelayFrame(ray: int, kpu: int, sensor: int, status: int, name: string, uskNumber: int)
    requires ray >= 0 && kpu >= 0 && sensor >= 0
    ensures var f := OutgoingBinaryPacket(ChangeRelay(ray, kpu, sensor, status, name), uskNumber);
      && |f| == 27 && ChecksumOk(f)
      && Cp1251.Decode(f[8..24]) == RelayText(ray, kpu, sensor, status)
      && f[24] == ToByte(ray)
      && f[25] == ToByte(kpu * 0x10 + (sensor - 1) * 2 + status)
  {
    var p := ChangeRelay(ray, kpu, sensor, status, name);
    RelayTextLayout(ray, kpu, sensor, status);
    RelayShape(ray, kpu, sensor, status, name, uskNumber);
    TextFrame(FirstPartOfPacket(uskNumber, 0x1000, 0), RelayText(ray, kpu, sensor, status),
              RelayBytes(ray, kpu, sensor, status));
  }

  /** A voltage frame is 27 bytes: header with the output's on/off flags,
      sixteen spaces, two zero bytes and the checksum. */
  lemma VoltageFrame(output: int, on: bool, uskNumber: int)
    ensures var f := OutgoingBinaryPacket(ChangeVoltage(output, on), uskNumber);
      && |f| == 27 && ChecksumOk(f)
      && LittleEndian(f[3..7]) == (if output == 2 then (if on then 0x2000 else 0x4000)
                                   else (if on then 0x20 else 0x100))
      && (forall i :: 8 <= i < 24 ==> f[i] == ' ' as int)
      && f[24] == 0 && f[25] == 0
  {
    var body := Spaces(16) + [0, 0];
    VoltageShape(output, on, uskNumber);
    HeaderFields(uskNumber, VoltageFlags(output, on), body);
    FrameSplit(FirstPartOfPacket(uskNumber, VoltageFlags(output, on), 0), body);
    var f := OutgoingBinaryPacket(ChangeVoltage(output, on), uskNumber);
    assert forall i :: 8 <= i < 26 ==> f[i] == body[i - 8];
  }

  /** The node/sensor/state byte of a relay frame unpacks to the node, the
      sensor and the state when each fits its bit field. */
  lemma RelayByteRoundTrip(kpu: int, sensor: int, status: int)
    requires 0 <= kpu < 16 && 1 <= sensor <= 8 && 0 <= status <= 1
    ensures var b := ToByte(kpu * 0x10 + (sensor - 1) * 2 + status);
      b / 16 == kpu && (b % 16) / 2 + 1 == sensor && b % 2 == status
  {
  }
}
