# SendUsk1 in Dafny

A model of the per-device engine of SendUsk1, a Qt driver for the USK
series-1 controller on a serial line. The model covers three parts.

- **Inbound frames** (`incoming.dfy`, `decoders.dfy`). The device sends
  26-byte frames. Each frame has a device number, four flag bytes, sixteen
  bytes of Windows-1251 text, two spare bytes and an additive 8-bit
  checksum. The factory `Usk1IncomingCommandFactory` walks its decoders in
  ascending priority order and returns the first that accepts the frame.
  The decoders are: bad checksum, reset, text message, new device,
  disconnected device, voltage, sensor change, information, and unknown
  (the catch-all). The module `Incoming` states what each decoder accepts
  and reports, as functions. The class `IncomingCommand` (the decoder
  object, tagged by its kind) and the class `IncomingCommandFactory` are
  proved against those functions.
- **Outgoing frames** (`outgoing.dfy`, `frames.dfy`). There are five
  commands: set the clock, send a message, reset, switch a relay, switch a
  voltage output. Each encodes to a 27-byte frame: an 8-byte header (the
  reset frame has none), a body, and an appended checksum. Lemmas give
  each frame's layout and prove that its checksum is correct.
- **The engine** `SendUsk1Protocol` (`protocol.dfy`, `engine.dfy`,
  `protocol_laws.dfy`, `presence.dfy`). It holds a queue of outgoing
  commands, sends them one at a time and waits for a 5-byte response. On a
  timeout it retries while attempts remain. Between responses it parses
  inbound frames and reports what they say. `Protocol` is the state machine
  over values, with one function per slot. The class `SendUsk1Protocol`
  has one method per slot, and each method is proved to move its fields as
  that function says. `ProtocolLaws` and `PresenceLaws` prove what the
  machine guarantees across many events.

`bytes.dfy` holds the byte arithmetic (checksums, signed `char`, bits).
`cp1251.dfy` holds the code page and the `QString` operations the
decoders use. `signals.dfy` holds the error codes, the info codes and one
event per Qt signal of the engine.

Quirks of the source are modelled as written and stated as lemmas:

- **Signed bytes.** `parsePacket` reads every byte as a signed `char`, so
  a flag byte of 0x80 or more sign-extends into the higher flag bytes. A
  frame with flag bytes `80 00 00 00` therefore counts as a text message
  (`Incoming.TextFlagSignExtension`, `Incoming.TextMisclassification`).
- **Port handle.** `closeUsk` never clears the port handle, so after a
  close `openUsk` reports success without reopening
  (`ProtocolLaws.CloseKeepsHandle`).
- **Early commands.** A command created before the port exists never uses
  up an attempt. It is retried for ever and blocks the queue
  (`ProtocolLaws.StuckCommand`, `ProtocolLaws.EarlyRequestBlocksQueue`).
- **Repeated presence reports.** The idle parser never marks the device
  present, so every correct frame reports it present again
  (`ProtocolLaws.RepeatedPresence`).

## Model

| member | source | states |
|---|---|---|
| Bytes.SingleByteCorruptionDetected | usk1incomingcommand.cpp:20-25 | changing any single byte of a frame whose checksum holds makes the checksum fail |
| Bytes.SignedChar | usk1incomingcommand.cpp:26-32 | a byte read as `char` is the value in -128..127 congruent to it mod 256, negative exactly when the byte is 0x80 or more |
| Bytes.ToByte | usk1outgoingcommand.cpp:216-217 | `static_cast<char>` keeps the value mod 256 and leaves a value in 0..255 unchanged |
| Bytes.AsciiBytes | usk1outgoingcommand.cpp:251 | an ASCII string appended to a byte array gives its character codes, one byte each |
| Cp1251.Decode | usk1incomingcommand.cpp:43-47 | the Windows-1251 decoder maps each byte to one character, position by position |
| Cp1251.Encode | usk1outgoingcommand.cpp:51-55 | the encoder maps each character to one byte, position by position |
| Cp1251.DecodeEncode | usk1outgoingcommand.cpp:146 | decoding the encoding of text made of code-page characters gives the text back |
| Cp1251.ToLower | usk1incomingcommand.cpp:202 | `toLower` keeps the length and lowers each character |
| Cp1251.TrimStart | usk1incomingcommand.cpp:144 | leading trim removes exactly the leading white space and keeps the rest in order |
| Cp1251.TrimEnd | usk1incomingcommand.cpp:144 | trailing trim removes exactly the trailing white space and keeps the rest in order |
| Incoming.UskNumberOf | usk1incomingcommand.cpp:26 | the device number fits a `ushort` |
| Incoming.FlagsOf | usk1incomingcommand.cpp:29-32 | the flags word fits a `quint32` |
| Incoming.Parse | usk1incomingcommand.cpp:14-36 | parsing succeeds exactly for a 26-byte frame whose last byte is the checksum of the other 25; it then stores bytes 7..22 as the text and bytes 23 and 24 as the spare bytes |
| Incoming.ParseDeviceFrame | usk1incomingcommand.cpp:26-33 | any header, text and spare bytes, framed with the checksum, parse back to their fields |
| Incoming.ParseDeviceFramePlain | usk1incomingcommand.cpp:26-33 | with header bytes below 0x80, the parsed device number and flags are the little-endian values of those bytes |
| Incoming.UskNumberSignExtension | usk1incomingcommand.cpp:26 | the device number is byte 0 plus 256 times byte 1, where byte 1 is less one when byte 0 is 0x80 or more |
| Incoming.FlagsOfPlain | usk1incomingcommand.cpp:29-32 | flag bytes below 0x80 give the plain little-endian flags word |
| Incoming.TextFlagSignExtension | usk1incomingcommand.cpp:29-32 | bit 16 of the flags is set exactly when bit 0 of byte 4 differs from "the low two bytes read negative" |
| Incoming.SignExtendedLowByte | usk1incomingcommand.cpp:29-32 | flag bytes `80 00 00 00` give 0xFFFFFF80, which has the text bit set |
| Incoming.TextMisclassification | usk1incomingcommand.cpp:167-173 | a correct frame with flag bytes `80 00 00 00` that is not a reset is classified as a text message |
| Incoming.Accepts | usk1incomingcommand.cpp:89-118 | the bad-frame decoder accepts exactly the incorrect frames, the unknown decoder exactly the correct ones, and every other decoder only correct ones |
| Incoming.AcceptsFrame | usk1incomingcommand.cpp:89-92 | once a frame parsed, the bad-frame decoder declines and the unknown decoder accepts |
| Incoming.ResetDecoder | usk1incomingcommand.cpp:139-146 | the reset decoder accepts exactly when the trimmed, lower-cased text is `полный сброс уск`, and then reports a reset |
| Incoming.KpuDecoder | usk1incomingcommand.cpp:198-210 | a decoder accepts exactly when the first nine lower-cased characters are its prefix; it then reports a new or a lost device, with ray and device numbers in 0..9 |
| Incoming.VoltageDecoder | usk1incomingcommand.cpp:272-293 | the decoder accepts exactly when the pattern matches the lower-cased, trimmed text and captures the "on" or "off" word; it reports output 1 or 2, switched on exactly for the "on" word |
| Incoming.SensorDecoder | usk1incomingcommand.cpp:321-336 | the sensor decoder accepts exactly when the lower-cased text has `l=` at 0 and `k=` at 4; it reports the digit at 2 as the ray, the digit at 6 as the device, and the two spare bytes as previous and current relay states |
| Incoming.InfoLookup | usk1incomingcommand.cpp:381-389 | the information table has exactly the three keys |
| Incoming.InfoDecoder | usk1incomingcommand.cpp:391-399 | the information decoder accepts exactly when the lower-cased, trimmed text is a key of the table |
| Incoming.WordEnd | usk1incomingcommand.cpp:277 | `\w+` from a position extends over word characters up to the first non-word character |
| Incoming.MatchAt | usk1incomingcommand.cpp:277 | a match of the voltage pattern starts at a word boundary and captures digit 1 or 2 |
| Incoming.FirstMatch | usk1incomingcommand.cpp:278 | the leftmost match captures digit 1 or 2 |
| Incoming.WordEndOf | usk1incomingcommand.cpp:277 | the word ends at the first non-word character |
| Incoming.VoltageMessageMatches | usk1incomingcommand.cpp:277-283 | a word followed by ` 220-1` or ` 220-2` matches, capturing the word and the digit |
| Incoming.VoltageText | usk1incomingcommand.cpp:275-278 | for the text `включение 220-d` or `выключение 220-d` followed by spaces, trimming and matching capture the word and the digit |
| Incoming.NewKpuReport | usk1incomingcommand.cpp:197-209 | a correct frame without the text flag whose lower-cased text starts with `новый оу:` goes to the new-device decoder, which reports the digit at 15 as the ray and the digit at 9 as the device |
| Incoming.DisconnectedReport | usk1incomingcommand.cpp:234-246 | a correct frame without the text flag whose lower-cased text starts with `неисп.оу:` goes to the lost-device decoder, which reports the digit at 15 as the ray and the digit at 9 as the device |
| Incoming.VoltageReport | usk1incomingcommand.cpp:272-293 | a correct frame without the text flag whose lower-cased text is `включение 220-d` or `выключение 220-d` plus spaces goes to the voltage decoder, which reports output d, switched on exactly for `включение` |
| Incoming.ResetReport | usk1incomingcommand.cpp:139-146 | a correct frame whose trimmed, lower-cased text is the reset phrase goes to the reset decoder, whatever its flags |
| Incoming.SensorTextNoVoltage | usk1incomingcommand.cpp:272-293 | the voltage pattern cannot capture its on/off word in a 16-character text starting `l=`, so the voltage decoder declines it |
| Incoming.SensorReport | usk1incomingcommand.cpp:321-336 | a correct frame without the text flag whose lower-cased text has `l=` at 0 and `k=` at 4 goes to the sensor decoder, which reports the digits at 2 and 6 and the two spare bytes |
| Incoming.SensorEvents | usk1incomingcommand.cpp:351-358 | one notification per changed relay |
| Incoming.SensorEventsAt | usk1incomingcommand.cpp:351-358 | the i-th notification carries the ray, the device and the i-th changed relay |
| Incoming.InformEvents | sendusk1protocol.cpp:153-197 | the sensor decoder emits one notification per changed relay; every other decoder emits one or two |
| Incoming.InformEventsNoPresence | sendusk1protocol.cpp:153-197 | no decoder's notifications include a presence report |
| Incoming.ChangedDownMembers | usk1incomingcommand.cpp:365-374 | after rounds for labels i down to 1, a pair is reported exactly when its label is in 1..i and that relay's bit changed, and its state is the new bit |
| Incoming.ChangedRelaysMembers | usk1incomingcommand.cpp:360-376 | a (label, state) pair is reported exactly when label l in 1..8 has bit 8-l changed and the state is the new bit |
| Incoming.ChangedRelays | usk1incomingcommand.cpp:360-376 | the changed relays come with labels in 1..8, strictly decreasing |
| Incoming.ChangedDownCount | usk1incomingcommand.cpp:365-374 | the rounds report as many pairs as there are set bits of `prev ^ cur` among the bits they examined |
| Incoming.XorBound | usk1incomingcommand.cpp:368 | the xor of two n-bit numbers has n bits |
| Incoming.ChangedRelaysCount | usk1incomingcommand.cpp:360-376 | the list has as many pairs as `prev ^ cur` has set bits |
| Incoming.ChangedDownOrder | usk1incomingcommand.cpp:365-374 | labels are reported strictly decreasing, within 1..8 |
| Incoming.Register | usk1incomingcommand.h:46-48 | registering always leaves at least one key |
| Incoming.RegisterAbove | usk1incomingcommand.h:46-48 | registering under a key above a bound keeps every key above it |
| Incoming.RegisterSorted | usk1incomingcommand.h:46-48 | registering keeps the keys strictly ascending, as `QMap` does |
| Incoming.RegisterAppends | usk1incomingcommand.h:46-48 | registering appends the producer to its own key's list and changes no other key's list |
| Incoming.AbsentBelow | usk1incomingcommand.h:53 | a key below the smallest key has no producers |
| Incoming.RegisterMiddle | usk1incomingcommand.h:46-48 | registering under an existing middle key appends to that key's list only |
| Incoming.RegistryFirstThree | usk1incomingcommand.cpp:53-55 | the first three registrations give keys 0, 10 and 65535 holding bad, reset and unknown |
| Incoming.StandardRegistryShape | usk1incomingcommand.cpp:50-62 | the nine registrations give key 0 with the bad-frame decoder, key 10 with the seven content decoders in registration order, and key 65535 with the unknown decoder |
| Incoming.StandardRegistryOrder | usk1incomingcommand.cpp:50-62 | decoders are tried bad first, then reset, text, new device, lost device, voltage, sensor, information, and unknown last |
| Incoming.ThreeKeyOrder | usk1incomingcommand.cpp:67-71 | three keys are walked in ascending order, each list in order |
| Incoming.FirstAccepting | usk1incomingcommand.cpp:64-80 | the first accepting position is within the order, or just past it |
| Incoming.FirstAcceptingFound | usk1incomingcommand.cpp:73-75 | the decoder at the first accepting position accepts |
| Incoming.FirstAcceptingBound | usk1incomingcommand.cpp:69-77 | any decoder that accepts sits at or after the first accepting position |
| Incoming.FirstAcceptingMinimal | usk1incomingcommand.cpp:69-77 | every decoder before the first accepting position declines |
| Incoming.NoneAccepts | usk1incomingcommand.cpp:78 | when every decoder declines, the position is past the end |
| Incoming.FirstAcceptingAt | usk1incomingcommand.cpp:69-77 | a decoder that accepts after all earlier ones declined is the first accepting one |
| Incoming.Classify | usk1incomingcommand.cpp:64-80 | the decoder picked accepts the frame, and there is none exactly when every decoder declines |
| Incoming.ClassifyTotal | usk1incomingcommand.cpp:53-54 | with the standard registry some decoder always accepts, so the factory never returns null |
| Incoming.ClassifyBad | usk1incomingcommand.cpp:115-118 | a frame goes to the bad-frame decoder exactly when it is incorrect |
| Incoming.ClassifyUnknown | usk1incomingcommand.cpp:89-92 | a correct frame that every content decoder declines goes to the unknown decoder, which reports its text |
| Incoming.ClassifyText | usk1incomingcommand.cpp:167-173 | a frame the reset decoder declines and the text decoder accepts is a text message |
| Incoming.DeviceFrame | usk1incomingcommand.cpp:17 | a device frame is 26 bytes long |
| IncomingCommands.IncomingCommand.constructor | usk1incomingcommand.cpp:310-319 | a fresh decoder holds no correct packet and its own fields are zero |
| IncomingCommands.IncomingCommand.ParsePacket | usk1incomingcommand.cpp:14-36 | returns and records whether the frame is correct; a correct frame's fields are stored; an incorrect frame leaves every stored field as it was |
| IncomingCommands.IncomingCommand.IsMyPacket | usk1incomingcommand.h:22 | each subclass's `isMyPacket` accepts exactly as `Accepts` says and, when it accepts, stores what `Accepts` reports |
| IncomingCommands.IncomingCommand.DecodeFields | usk1incomingcommand.cpp:139-173 | after parsing, the subclass test accepts exactly as the frame decision says |
| IncomingCommands.IncomingCommand.DecodeKpu | usk1incomingcommand.cpp:198-210 | stores the ray and device numbers the decoder reports, and accepts exactly when it reports |
| IncomingCommands.IncomingCommand.DecodeVoltage | usk1incomingcommand.cpp:272-293 | stores the output and on/off state the decoder reports, and accepts exactly when it reports |
| IncomingCommands.IncomingCommand.DecodeSensor | usk1incomingcommand.cpp:321-336 | stores the ray, device and both relay states the decoder reports, and accepts exactly when it reports |
| IncomingCommands.IncomingCommand.DecodeInfo | usk1incomingcommand.cpp:391-399 | stores the normalised message and accepts exactly when it is a key of the table |
| IncomingCommands.IncomingCommand.GetChangedRelays | usk1incomingcommand.cpp:360-376 | the loop over labels 8 down to 1 builds the changed-relay list (membership, count and order as proved above) |
| IncomingCommands.IncomingCommand.InformAboutCommand | usk1incomingcommand.h:24 | the notifications sent are those of what the decoder stored |
| IncomingCommands.AccumulateCrc | usk1incomingcommand.cpp:20-22 | the `char` accumulator over the first n bytes is their checksum |
| IncomingCommands.MaskTest | usk1incomingcommand.cpp:368 | `x & bit` with `bit` the k-th mask tests bit k of x |
| IncomingCommands.ChangedRelaysStep | usk1incomingcommand.cpp:365-374 | one round of the loop appends label i's change exactly when its bit differs |
| IncomingCommands.FoundInBucket | usk1incomingcommand.cpp:69-76 | the producer that accepts inside key b's list is the first accepting decoder of the whole order |
| IncomingCommands.NoneInBucket | usk1incomingcommand.cpp:69-77 | when every producer of key b declines, all decoders up to that key decline |
| IncomingCommands.IncomingCommandFactory.constructor | usk1incomingcommand.cpp:50-62 | the factory holds the nine standard registrations |
| IncomingCommands.IncomingCommandFactory.RegisterClass | usk1incomingcommand.h:46-48 | the producer is appended under its priority key |
| IncomingCommands.IncomingCommandFactory.ProduceFrom | usk1incomingcommand.cpp:71-76 | returns a fresh decoder of the first producer in the list that accepts, with what it stored, or null when all decline |
| IncomingCommands.IncomingCommandFactory.GetCommandByPacket | usk1incomingcommand.cpp:64-80 | returns null exactly when no decoder accepts; otherwise a fresh decoder of the first accepting kind in priority order, holding that decoder's result and the frame's correctness |
| Outgoing.NewCommand | usk1outgoingcommand.cpp:5-11 | a new command keeps its payload and attempt count, and its first attempt is still to come |
| Outgoing.AfterSend | usk1outgoingcommand.cpp:37-44 | after a send the command is no longer on its first attempt, and it has one attempt fewer exactly when the frame was written |
| Outgoing.FirstPartOfPacket | usk1outgoingcommand.cpp:99-112 | the header is 8 bytes: a zero, the device number (16 bits, little-endian), the flags (32 bits, little-endian) and the priority |
| Outgoing.LittleEndianPair | usk1outgoingcommand.cpp:104-105 | two bytes read little-endian give the low byte plus 256 times the high byte |
| Outgoing.FlagsBytes | usk1outgoingcommand.cpp:106-109 | the four flag bytes read little-endian give the flags modulo 2^32 |
| Outgoing.WithCrc | usk1outgoingcommand.cpp:114-120 | appending the checksum keeps the packet as a prefix and makes the checksum hold |
| Outgoing.AppendCrcToPacket | usk1outgoingcommand.cpp:114-120 | the loop's wrapping `char` sum, appended, is the checksum |
| Outgoing.DecimalText | usk1outgoingcommand.cpp:80 | `QString::number` of a non-negative number is a non-empty string of digits, one digit below ten |
| Outgoing.NumberText | usk1outgoingcommand.cpp:210-212 | a negative number is printed as a minus sign and its magnitude |
| Outgoing.Pad2 | usk1outgoingcommand.cpp:78-83 | a number below 100 is printed as exactly two digits, tens then units |
| Outgoing.TimeText | usk1outgoingcommand.cpp:78-86 | for a calendar-valid time the clock text is 16 characters, or 17 when the year is negative and not a multiple of ten (the last digit then carries a minus sign) |
| Outgoing.RelayText | usk1outgoingcommand.cpp:209-214 | the relay text is 16 characters plus one for each of the ray, device and sensor numbers that is negative and not a multiple of ten |
| Outgoing.VoltageFlags | usk1outgoingcommand.cpp:241-248 | the flags are one of 0x20, 0x100, 0x2000 and 0x4000; 0x2000 or more exactly for output 2, and 0x20 or 0x2000 exactly when switching on |
| Outgoing.OutgoingBinaryPacket | usk1outgoingcommand.cpp:74-256 | every command's frame ends in a valid checksum; message, reset and voltage frames are always 27 bytes |
| Outgoing.TruncRem10 | usk1outgoingcommand.cpp:80 | C++ `% 10` truncates toward zero: the result lies in -9..9, has the dividend's sign and differs from it by a multiple of 10 |
| Outgoing.RelayBytes | usk1outgoingcommand.cpp:216-217 | the relay command has two trailing bytes |
| Outgoing.MessageField | usk1outgoingcommand.cpp:143-146 | the message field is exactly 16 bytes |
| Frames.PayloadFlags | usk1outgoingcommand.cpp:239-249 | every command's flags word fits 16 bits |
| Frames.FrameSplit | usk1outgoingcommand.cpp:114-120 | a header plus body plus checksum is 9 bytes longer than the body, keeps header and body in place, and its checksum holds |
| Frames.PacketShape | usk1outgoingcommand.cpp:139-152 | every command but reset encodes as its header, its body and the checksum |
| Frames.HeaderFields | usk1outgoingcommand.cpp:99-112 | a framed header reads back the device number mod 2^16 and the flags |
| Frames.HeaderRoundTrip | usk1outgoingcommand.cpp:99-112 | every non-reset frame reads back its device number and its command's flags from the header |
| Frames.TimeShape | usk1outgoingcommand.cpp:74-92 | the time command is a flags-2 header, the encoded clock text, two zeros and the checksum |
| Frames.MessageShape | usk1outgoingcommand.cpp:139-152 | the message command is a flags-4 header, the 16-byte field, two zeros and the checksum |
| Frames.RelayShape | usk1outgoingcommand.cpp:205-220 | the relay command is a flags-0x1000 header, the encoded text, the two relay bytes and the checksum |
| Frames.VoltageShape | usk1outgoingcommand.cpp:239-256 | the voltage command is a header with its flags, 16 spaces, two zeros and the checksum |
| Frames.PlainNumber | usk1outgoingcommand.cpp:80 | a digit prints as one ASCII character |
| Frames.Pad2Digits | usk1outgoingcommand.cpp:78 | a number below 100 pads to its tens and units digits |
| Frames.TimeTextLayout | usk1outgoingcommand.cpp:78-86 | the clock text is `DD/MM/Y HH:MM:SS` with the year's last digit |
| Frames.TimeTextCarried | usk1outgoingcommand.cpp:85-87 | the clock text is 16 characters, each carried by the code page |
| Frames.TextFrame | usk1outgoingcommand.cpp:87-90 | a 16-character code-page text framed with a header and a tail is 27 bytes, decodes back from bytes 8..23 and has a valid checksum |
| Frames.TimeFrame | usk1outgoingcommand.cpp:74-92 | the time frame is 27 bytes, its checksum holds, bytes 8..23 decode to the clock text and bytes 24 and 25 are zero |
| Frames.MessageFrame | usk1outgoingcommand.cpp:139-152 | the message frame is 27 bytes with a valid checksum, the first sixteen characters encoded at byte 8, space padding to byte 23, then two zeros; a code-page message decodes back |
| Frames.ResetFrame | usk1outgoingcommand.cpp:166-176 | the reset frame is 27 bytes: a zero, the device number, 0x01, zeros, and a valid checksum equal to the device-number bytes plus one |
| Frames.RelayTextLayout | usk1outgoingcommand.cpp:209-214 | the relay text is 16 characters, each carried by the code page |
| Frames.RelayFrame | usk1outgoingcommand.cpp:205-220 | the relay frame is 27 bytes with a valid checksum, decodes back to the relay text and ends with the ray byte and the packed device/sensor/state byte |
| Frames.VoltageFrame | usk1outgoingcommand.cpp:239-256 | the voltage frame is 27 bytes with a valid checksum; its flags are 0x2000/0x4000 for output 2 and 0x20/0x100 otherwise (on/off), followed by 16 spaces and two zeros |
| Frames.RelayByteRoundTrip | usk1outgoingcommand.cpp:217 | for in-range values the packed byte gives back the device number, the sensor and the state |
| Frames.ZerosSum | usk1outgoingcommand.cpp:169-170 | zero bytes add nothing to the checksum |
| Protocol.Initial | sendusk1protocol.cpp:15-30 | a new engine has no port, is idle with no current command and uses three attempts |
| Protocol.Status | sendusk1protocol.cpp:62-69 | the status is closed exactly while there is no port object, and present exactly while there is one and the device is marked present |
| Protocol.Leftover | sendusk1protocol.cpp:209-211 | the idle loop leaves less than one frame in the buffer |
| Protocol.Enqueue | sendusk1protocol.cpp:123-151 | a request appends one command with the payload and the engine's attempt count, first attempt pending, and changes nothing else |
| Protocol.Open | sendusk1protocol.cpp:76-107 | with a port object, success and no change; otherwise success exactly when the port opens and takes its settings, the port is then open exactly on success, it is dropped exactly when it opened but refused its settings, and the first-use marker is set with the device not present |
| Protocol.Close | sendusk1protocol.cpp:109-121 | afterwards the port is not open, a port object remains exactly when there was one, the three timers are stopped, and queue, command and writes are unchanged |
| Protocol.CheckOutgoingBuffer | sendusk1protocol.cpp:326-341 | nothing changes unless the engine can dispatch; then the head leaves the queue and becomes the current command, the engine waits for a response, and at most one frame is written |
| Protocol.ScanReport | sendusk1protocol.cpp:209-219 | the loop only appends signals, and never sets the first-use marker again |
| Protocol.IdleParse | sendusk1protocol.cpp:203-224 | the idle branch ends idle with less than a frame buffered, only appends signals, and never sets the first-use marker |
| Protocol.ParseIncoming | sendusk1protocol.cpp:199-261 | parsing only appends signals, writes nothing, leaves queue and port alone, and never sets the first-use marker |
| Protocol.ResponseTimedOut | sendusk1protocol.cpp:299-320 | the device is marked missing, the marker spent, the buffer cleared, at least two signals appended, at most one frame written, and queue and port unchanged |
| Protocol.TimerTimeout | sendusk1protocol.cpp:280-324 | a timeout only appends signals and frames and leaves queue and port alone; waiting for a response it marks the device missing, otherwise it returns to idle with the same command and writes nothing |
| Protocol.Step | sendusk1protocol.cpp:76-346 | every event only appends to the signals and to the frames written |
| Protocol.Run | sendusk1protocol.cpp:76-346 | so does every sequence of events |
| SendUsk1.Usk1OutgoingCommand.constructor | usk1outgoingcommand.cpp:5-11 | the object is the new command value |
| SendUsk1.Usk1OutgoingCommand.FromValue | sendusk1protocol.cpp:329 | the command taken from the queue is the queued value |
| SendUsk1.Usk1OutgoingCommand.SendCommand | usk1outgoingcommand.cpp:37-44 | the counters move as `AfterSend` says, and the frame is written exactly when the captured port is open |
| SendUsk1.SendUsk1Protocol.constructor | sendusk1protocol.cpp:15-30 | the engine starts in the initial state with the standard factory |
| SendUsk1.SendUsk1Protocol.GetUskStatus | sendusk1protocol.cpp:62-69 | returns the status of the engine state |
| SendUsk1.SendUsk1Protocol.SetAttemptsCount | sendusk1protocol.cpp:71-74 | only the attempt count changes |
| SendUsk1.SendUsk1Protocol.Append | sendusk1protocol.cpp:126 | the new command goes to the back of the queue |
| SendUsk1.SendUsk1Protocol.SendTime | sendusk1protocol.cpp:123-127 | queues a time command |
| SendUsk1.SendUsk1Protocol.SendMessage | sendusk1protocol.cpp:129-133 | queues a message command |
| SendUsk1.SendUsk1Protocol.ResetUsk | sendusk1protocol.cpp:135-139 | queues a reset command |
| SendUsk1.SendUsk1Protocol.ChangeRelayStatus | sendusk1protocol.cpp:141-145 | queues a relay command |
| SendUsk1.SendUsk1Protocol.ChangeVoltageStatus | sendusk1protocol.cpp:147-151 | queues a voltage command |
| SendUsk1.SendUsk1Protocol.OpenUsk | sendusk1protocol.cpp:76-107 | state and result as `Open` says: success without change when a port object exists, otherwise open, configure and queue the clock, or report the failure |
| SendUsk1.SendUsk1Protocol.PortConfigured | sendusk1protocol.cpp:86-97 | the port is open, both periodic timers run and the clock is queued |
| SendUsk1.SendUsk1Protocol.PortUnconfigured | sendusk1protocol.cpp:99-104 | the open error is reported and the port object dropped |
| SendUsk1.SendUsk1Protocol.CloseUsk | sendusk1protocol.cpp:109-121 | the timers stop and the port closes, keeping the handle |
| SendUsk1.SendUsk1Protocol.StopTimers | sendusk1protocol.cpp:111-113 | the three timers stop |
| SendUsk1.SendUsk1Protocol.EmitUskIsPresent | sendusk1protocol.cpp:263-267 | the report carries the first-use marker, which is then cleared |
| SendUsk1.SendUsk1Protocol.CheckOutgoingBuffer | sendusk1protocol.cpp:326-341 | when idle with an empty buffer, no current command and a non-empty queue, the head command is sent and the engine waits for a response; otherwise nothing changes |
| SendUsk1.SendUsk1Protocol.Dispatch | sendusk1protocol.cpp:328-336 | the guarded branch of `checkOutgoingBuffer` |
| SendUsk1.SendUsk1Protocol.TakeFirst | sendusk1protocol.cpp:329 | the head of the queue becomes the current command |
| SendUsk1.SendUsk1Protocol.ParseFrames | sendusk1protocol.cpp:203-224 | the idle branch as `IdleParse` says |
| SendUsk1.SendUsk1Protocol.WaitForRemainingData | sendusk1protocol.cpp:222 | the short wait starts |
| SendUsk1.SendUsk1Protocol.ScanFrames | sendusk1protocol.cpp:209-219 | the loop reports the signals `ScanReport` gives and leaves `Leftover` |
| SendUsk1.SendUsk1Protocol.ParseFrame | sendusk1protocol.cpp:210-217 | one frame: the factory's decoder reports, and a correct frame reports presence while the device is not marked present |
| SendUsk1.SendUsk1Protocol.ParseIncomingData | sendusk1protocol.cpp:199-261 | the new state is `ParseIncoming` of the old |
| SendUsk1.SendUsk1Protocol.TakeResponse | sendusk1protocol.cpp:233-235 | the five response bytes leave the buffer and are acknowledged |
| SendUsk1.SendUsk1Protocol.AcknowledgeResponse | sendusk1protocol.cpp:236-250 | checksum error, acceptance and presence are reported; the command is done |
| SendUsk1.SendUsk1Protocol.OnReadyRead | sendusk1protocol.cpp:269-278 | the timer stops, the bytes are appended and parsed |
| SendUsk1.SendUsk1Protocol.OnTimerTimeout | sendusk1protocol.cpp:280-324 | the new state is `TimerTimeout` of the old |
| SendUsk1.SendUsk1Protocol.ResponseTimeout | sendusk1protocol.cpp:299-320 | the response branch: report missing, then resend or give up |
| SendUsk1.SendUsk1Protocol.ReportMissing | sendusk1protocol.cpp:302-309 | the error and the missing report are emitted, and the buffer is cleared |
| SendUsk1.SendUsk1Protocol.Retry | sendusk1protocol.cpp:310-312 | the current command is sent again and the response wait restarts |
| SendUsk1.SendUsk1Protocol.GiveUp | sendusk1protocol.cpp:313-319 | the command is dropped, with a signal when it asks for one, and the engine is idle |
| SendUsk1.SendUsk1Protocol.OnSendTimeTimeout | sendusk1protocol.cpp:343-346 | queues the clock |
| ProtocolLaws.IdleParseFrame | sendusk1protocol.cpp:203-224 | the idle branch ends idle, keeps the command, queue, port and flags, leaves less than a frame, and only appends signals |
| ProtocolLaws.ParseIncomingConsistent | sendusk1protocol.cpp:199-261 | parsing keeps "a command is current exactly while a response is awaited", and writes nothing |
| ProtocolLaws.TimerTimeoutConsistent | sendusk1protocol.cpp:280-324 | a timeout keeps that invariant |
| ProtocolLaws.InitialConsistent | sendusk1protocol.cpp:15-30 | the initial engine satisfies the invariant |
| ProtocolLaws.StepConsistent | sendusk1protocol.cpp:76-346 | every event keeps the invariant |
| ProtocolLaws.RunConsistent | sendusk1protocol.cpp:76-346 | every sequence of events keeps the invariant |
| ProtocolLaws.QueueDiscipline | sendusk1protocol.cpp:326-341 | each event leaves the queue alone, takes its head as the current command, or appends one new command with the engine's attempt count |
| ProtocolLaws.Repeat | sendusk1protocol.cpp:310-312 | n copies of the frame |
| ProtocolLaws.TimeoutResends | sendusk1protocol.cpp:310-312 | a response timeout with attempts left resends the command and keeps waiting |
| ProtocolLaws.TimeoutGivesUp | sendusk1protocol.cpp:284-319 | a response timeout with no attempt left drops the command, goes idle with the timer stopped and reports the failure |
| ProtocolLaws.DrainRetries | sendusk1protocol.cpp:284-320 | with the port open, a command with n attempts left is written n more times over n+1 timeouts and then given up, leaving the timer stopped |
| ProtocolLaws.DrainRetriesReports | sendusk1protocol.cpp:313-319 | the last of those timeouts reports the failed command |
| ProtocolLaws.RetryLaw | sendusk1protocol.cpp:326-341 | a dispatched command with n attempts is written n times in all (at least once) before the engine is idle again with the rest of the queue and the response timer stopped |
| ProtocolLaws.DispatchOpen | sendusk1protocol.cpp:326-341 | dispatching to an open port writes the head once, makes it current with one attempt fewer, waits for the response and arms the timer |
| ProtocolLaws.StuckCommand | usk1outgoingcommand.cpp:37-44 | a command whose captured port is not open never uses up an attempt, so it stays current through any number of timeouts and nothing is written |
| ProtocolLaws.EarlyRequestBlocksQueue | sendusk1protocol.cpp:123-151 | a request made before the port opens is dispatched first and then blocks the queue, including the clock command |
| ProtocolLaws.StepOnClosedPort | sendusk1protocol.cpp:76-80 | once closed, no event reopens the port or writes |
| ProtocolLaws.ClosedPortNeverWrites | sendusk1protocol.cpp:76-80 | after a close, no sequence of events writes anything |
| ProtocolLaws.CloseKeepsHandle | sendusk1protocol.cpp:109-121 | after a close the status is not "closed", and opening again reports success without changing anything |
| ProtocolLaws.AckConsumesResponse | sendusk1protocol.cpp:227-256 | a complete response makes the engine idle and present, drops the command, and the bytes after it are parsed as frames |
| ProtocolLaws.PartialResponseWaits | sendusk1protocol.cpp:229-232 | fewer than five response bytes are kept and the short wait starts |
| ProtocolLaws.AckChecksum | sendusk1protocol.cpp:236-242 | a wrong-packet error is reported exactly when the response's checksum fails |
| ProtocolLaws.TimeoutReportsMissing | sendusk1protocol.cpp:302-309 | a response timeout reports which error (no byte, or too few), then the device missing with the first-use marker, and clears the buffer |
| ProtocolLaws.RepeatedPresence | sendusk1protocol.cpp:209-219 | two correct frames each report the device present, only the first with the first-use marker |
| ProtocolLaws.SplitDelivery | sendusk1protocol.cpp:199-224 | a frame that arrives in two reads on an idle engine: the first part is kept, the short wait starts and nothing is reported; after the second read the frame is reported exactly as if it had come in one read, the buffer is empty and the timer stopped |
| ProtocolLaws.SplitNewKpu | sendusk1protocol.cpp:199-224 | a new-device frame split over two reads to a present device reports that new device and nothing else |
| ProtocolLaws.NewKpuFrameEvents | sendusk1protocol.cpp:174-177 | a new-device frame reports the new device with the ray at 15 and the device at 9 |
| ProtocolLaws.ResetFrameEvents | sendusk1protocol.cpp:163-167 | a reset frame reports the reset and the reset information packet |
| ProtocolLaws.SensorFrameEvents | sendusk1protocol.cpp:189-192 | a sensor frame reports one change per relay that differs between the spare bytes, as many as the bits set in their XOR |
| ProtocolLaws.LeftoverIsPartialFrame | sendusk1protocol.cpp:209-211 | the loop leaves exactly the bytes after the last whole frame |
| ProtocolLaws.IdleParseLeaves | sendusk1protocol.cpp:209-223 | the idle branch leaves the buffer's length mod 26 bytes, and starts the short wait exactly when some are left |
| ProtocolLaws.ScanReportBudget | sendusk1protocol.cpp:215-217 | the idle loop never makes more first-use reports than it had pending |
| ProtocolLaws.IdleParseBudget | sendusk1protocol.cpp:203-224 | the idle branch spends the pending first use at most once |
| ProtocolLaws.TakeAckBudget | sendusk1protocol.cpp:246-249 | a response spends the pending first use at most once |
| ProtocolLaws.ParseIncomingBudget | sendusk1protocol.cpp:199-261 | parsing spends the pending first use at most once |
| ProtocolLaws.TimerTimeoutBudget | sendusk1protocol.cpp:307-308 | a timeout spends the pending first use at most once |
| ProtocolLaws.StepBudget | sendusk1protocol.cpp:263-267 | with a port object, every event keeps first-use reports plus the pending marker constant |
| ProtocolLaws.RunBudget | sendusk1protocol.cpp:263-267 | with a port object, any run keeps that sum constant |
| ProtocolLaws.FirstUseAtMostOnce | sendusk1protocol.cpp:263-267 | with a port object, whatever happens, at most one report carries the first-use marker |
| PresenceLaws.NextReportTracks | sendusk1protocol.cpp:215-217 | one frame of the idle loop spends the marker exactly with its presence report |
| PresenceLaws.ScanReportTracks | sendusk1protocol.cpp:209-219 | across the idle loop, the earliest presence report carries the marker if it was pending |
| PresenceLaws.IdleParseTracks | sendusk1protocol.cpp:203-224 | the same for the idle branch |
| PresenceLaws.TakeAckTracks | sendusk1protocol.cpp:246-249 | a response spends the pending marker exactly when it reports presence |
| PresenceLaws.ParseIncomingTracks | sendusk1protocol.cpp:199-261 | the same for all of `parseIncomingData` |
| PresenceLaws.ResponseTimedOutTracks | sendusk1protocol.cpp:307-308 | the missing report of a response timeout carries the pending marker |
| PresenceLaws.TimerTimeoutTracks | sendusk1protocol.cpp:280-324 | the same for every timeout |
| PresenceLaws.StepTracks | sendusk1protocol.cpp:263-267 | with a port object, every event keeps "a pending marker means no presence report yet; a spent one was carried by the earliest report" |
| PresenceLaws.RunTracks | sendusk1protocol.cpp:263-267 | the same for any run of events |
| PresenceLaws.FirstReportAfterOpen | sendusk1protocol.cpp:81-96 | after a successful open, whatever happens, the earliest presence report (present or missing) carries the first-use marker, and the marker stays pending exactly until that report |

## Left out

- The serial port is not modelled as I/O. What `open` and the five `set*` calls report are the `openOk` and `configOk` parameters of `OpenUsk`. Bytes read are the `data` of `OnReadyRead`. Bytes written are logged in the engine's `written` field.
- The clock (`QDateTime::currentDateTime`) is the `now` parameter of `OpenUsk` and `OnSendTimeTimeout`.
- The three `QTimer`s are state (stopped, or running with an interval). Their firing is an input event, and a timer fires only while it runs. The `connect` calls are not modelled.
- `qobject_cast` on `sender()` in `onReadyRead` and `onTimerTimeout` is not modelled. Only the engine's own port and timer call those slots.
- `description()`, the `qDebug` output and `needToWaitCommand` are left out: nothing in the core reads them. Signals that carry a command's description carry its payload instead.
- The device name that every signal carries is left out of the events, because it is the same for one engine. `setSerialPortName`, `setUskName`, `setUskNum` and the name and port-name getters are left out as plain field accessors.
- The constructor does not initialise `m_uskNum`, `m_uskIsPresent` and `m_firstUse`. In the model they start as 0, false and false.
- IncomingCommands.IncomingCommand.constructor: the source leaves `m_isCorrectPacket` uninitialised (usk1incomingcommand.h:33). The model starts it as false. Nothing reads it before `parsePacket` writes it.
- `closeUsk` calls `deleteLater` on the port but keeps the handle. The model keeps a closed port handle. It does not model the later use of the deleted object, which is undefined behaviour in C++.
- The recursive `parseIncomingData` call after a response is modelled as the idle branch it reaches: the state is then idle.
- The null checks on `m_protocol` in every `informAboutCommand` are left out: the factory always passes the engine.
- The factory's `QMap<int, QList<producedFunction>>` is a sequence of (priority, kinds) buckets in ascending key order. A producer is represented by the decoder kind it builds.
- The information table (`QHash`, filled on first construction) is the function `InfoLookup`.
- The engine's queue holds command values. The object of a command exists while it is current.
- Cp1251.LowerChar, Cp1251.IsSpace, Cp1251.IsWordChar: `toLower`, `trimmed` and `\w` are exact only on the characters the Windows-1251 decoder can produce, not on all of Unicode.
- Incoming.FirstMatch: models only the one pattern `\b(\w+) 220-([12])\b`, not `QRegExp` in general.
- Cp1251.Encode, Outgoing.MessageField, Frames.MessageFrame: a message is a sequence of Unicode characters, while `QString` counts UTF-16 units. A character outside the Basic Multilingual Plane is two units in the source, which moves the cut of `left(16)` and changes the padding, and the frame length too, depending on the codec. The model counts such a character as one.
- senduskv1.cpp and senduskv1workingthread.cpp are not part of this model. They are the thread wrapper around the engine.
- Frames.TimeFrame, Frames.TimeTextLayout and Frames.TimeTextCarried hold for calendar-valid times with a non-negative year. For other times the text can be longer than 16 characters, and these lemmas say nothing.
- Frames.RelayFrame and Frames.RelayTextLayout hold for non-negative ray, device and sensor numbers. A negative number prints with a minus sign and lengthens the text.
- Frames.RelayByteRoundTrip holds for a device number below 16, a sensor in 1..8 and a state of 0 or 1. Other values overlap in the packed byte.
