/** The Windows-1251 single-byte code page used for every text payload, and
    the three `QString` operations the decoders apply to decoded text:
    `toLower`, `trimmed` and the `\w` class of `QRegExp`. The decoder is the
    full code-page table; the string operations are exact on every character
    the decoder can produce. */
module Cp1251 {
  import opened Bytes

  /** Characters of bytes 0x80..0xBF (the rows that are neither ASCII nor the
      contiguous Cyrillic block). Byte 0x98 is unassigned; Qt's table decodes
      it to U+FFFD. */
  const HighTable: seq<char> := [
    '\U{0402}', '\U{0403}', '\U{201A}', '\U{0453}', '\U{201E}', '\U{2026}', '\U{2020}', '\U{2021}',
    '\U{20AC}', '\U{2030}', '\U{0409}', '\U{2039}', '\U{040A}', '\U{040C}', '\U{040B}', '\U{040F}',
    '\U{0452}', '\U{2018}', '\U{2019}', '\U{201C}', '\U{201D}', '\U{2022}', '\U{2013}', '\U{2014}',
    '\U{FFFD}', '\U{2122}', '\U{0459}', '\U{203A}', '\U{045A}', '\U{045C}', '\U{045B}', '\U{045F}',
    '\U{00A0}', '\U{040E}', '\U{045E}', '\U{0408}', '\U{00A4}', '\U{0490}', '\U{00A6}', '\U{00A7}',
    '\U{0401}', '\U{00A9}', '\U{0404}', '\U{00AB}', '\U{00AC}', '\U{00AD}', '\U{00AE}', '\U{0407}',
    '\U{00B0}', '\U{00B1}', '\U{0406}', '\U{0456}', '\U{0491}', '\U{00B5}', '\U{00B6}', '\U{00B7}',
    '\U{0451}', '\U{2116}', '\U{0454}', '\U{00BB}', '\U{0458}', '\U{0405}', '\U{0455}', '\U{0457}'
  ]

  /** The character `QTextCodec::toUnicode` gives for one Windows-1251 byte. */
  function DecodeByte(b: byte): char
  {
    if b < 0x80 then b as char
    else if b < 0xC0 then HighTable[b - 0x80]
    else (0x410 + (b - 0xC0)) as char
  }

  /** `QTextCodec::toUnicode` for Windows-1251: one character per byte. */
  function Decode(s: seq<byte>): (r: string)
    ensures |r| == |s|
    ensures forall i {:trigger r[i], s[i]} :: 0 <= i < |s| ==> r[i] == DecodeByte(s[i])
  {
    if s == [] then [] else [DecodeByte(s[0])] + Decode(s[1..])
  }

  /** Position of `c` in `HighTable`, if it is there. */
  function IndexInHighTable(c: char, from: nat): (r: Option<nat>)
    requires from <= |HighTable|
    ensures r.Some? ==> from <= r.value < |HighTable| && HighTable[r.value] == c
    ensures r.None? ==> forall i :: from <= i < |HighTable| ==> HighTable[i] != c
    decreases |HighTable| - from
  {
    if from == |HighTable| then None
    else if HighTable[from] == c then Some(from)
    else IndexInHighTable(c, from + 1)
  }

  /** The byte `QTextCodec::fromUnicode` gives for one character; characters
      the code page cannot represent become `?`. */
  function EncodeChar(c: char): byte
  {
    if c as int < 0x80 then c as int
    else if 0x410 <= c as int < 0x450 then c as int - 0x410 + 0xC0
    else if c == '\U{FFFD}' then '?' as int
    else match IndexInHighTable(c, 0)
      case Some(i) => 0x80 + i
      case None => '?' as int
  }

  /** `QTextCodec::fromUnicode` for Windows-1251: one byte per character. */
  function Encode(s: string): (r: seq<byte>)
    ensures |r| == |s|
    ensures forall i {:trigger r[i]} :: 0 <= i < |s| ==> r[i] == EncodeChar(s[i])
  {
    if s == [] then [] else [EncodeChar(s[0])] + Encode(s[1..])
  }

  /** Characters that Windows-1251 can carry. */
  predicate Representable(c: char)
  {
    c as int < 0x80 || 0x410 <= c as int < 0x450 || (c != '\U{FFFD}' && c in HighTable)
  }

  /** Every representable character survives an encode/decode round trip. */
  lemma DecodeEncodeChar(c: char)
    requires Representable(c)
    ensures DecodeByte(EncodeChar(c)) == c
  {
    if !(c as int < 0x80 || 0x410 <= c as int < 0x450) {
      assert IndexInHighTable(c, 0).Some?;
    }
  }

  lemma {:induction false} DecodeEncode(s: string)
    requires forall i :: 0 <= i < |s| ==> Representable(s[i])
    ensures Decode(Encode(s)) == s
  {
    var e := Encode(s);
    var d := Decode(e);
    forall i | 0 <= i < |s| ensures d[i] == s[i] {
      assert e[i] == EncodeChar(s[i]);
      DecodeEncodeChar(s[i]);
    }
  }

  /** `QChar::toLower` on one character: ASCII, the Cyrillic block and the
      Cyrillic supplement letters of the code page. */
  function LowerChar(c: char): char
  {
    if 'A' <= c <= 'Z' then (c as int + 0x20) as char
    else if 0x410 <= c as int < 0x430 then (c as int + 0x20) as char
    else if 0x400 <= c as int < 0x410 then (c as int + 0x50) as char
    else if c == '\U{0490}' then '\U{0491}'
    else c
  }

  /** `QString::toLower`. */
  function ToLower(s: string): (r: string)
    ensures |r| == |s|
    ensures forall i {:trigger r[i], s[i]} :: 0 <= i < |s| ==> r[i] == LowerChar(s[i])
  {
    if s == [] then [] else [LowerChar(s[0])] + ToLower(s[1..])
  }

  /** `QChar::isSpace`: the ASCII blanks, NEL, no-break space and the Unicode
      space separators. */
  predicate IsSpace(c: char)
  {
    c == ' ' || '\t' <= c <= '\r' || c == '\U{0085}' || c == '\U{00A0}'
    || c == '\U{1680}' || '\U{2000}' <= c <= '\U{200A}' || c == '\U{2028}'
    || c == '\U{2029}' || c == '\U{202F}' || c == '\U{205F}' || c == '\U{3000}'
  }

  function TrimStart(s: string): (r: string)
    ensures |r| <= |s|
    ensures forall i, j {:trigger r[i], s[j]} :: 0 <= i < |r| && j == |s| - |r| + i ==> r[i] == s[j]
    ensures r == [] || !IsSpace(r[0])
    ensures forall i {:trigger IsSpace(s[i])} :: 0 <= i < |s| - |r| ==> IsSpace(s[i])
  {
    if s != [] && IsSpace(s[0]) then TrimStart(s[1..]) else s
  }

  function TrimEnd(s: string): (r: string)
    ensures |r| <= |s|
    ensures forall i {:trigger r[i], s[i]} :: 0 <= i < |r| ==> r[i] == s[i]
    ensures r == [] || !IsSpace(r[|r| - 1])
    ensures forall i {:trigger IsSpace(s[i])} :: |r| <= i < |s| ==> IsSpace(s[i])
  {
    if s != [] && IsSpace(s[|s| - 1]) then TrimEnd(s[..|s| - 1]) else s
  }

  /** `QString::trimmed`: leading and trailing white space removed. */
  function Trimmed(s: string): string
  {
    TrimEnd(TrimStart(s))
  }

  /** Characters `\w` and `\b` of `QRegExp` treat as word characters
      (letters, digits and `_`), among those the decoder produces. */
  predicate IsWordChar(c: char)
  {
    'a' <= c <= 'z' || 'A' <= c <= 'Z' || '0' <= c <= '9' || c == '_'
    || 0x400 <= c as int < 0x460 || c == '\U{0490}' || c == '\U{0491}' || c == '\U{00B5}'
  }

  /** `QString(c).toInt()`: the value of an ASCII digit, 0 for anything else
      (a failed conversion returns 0). */
  function DigitValue(c: char): (v: int)
    ensures 0 <= v <= 9
    ensures '0' <= c <= '9' ==> v == c as int - '0' as int
    ensures !('0' <= c <= '9') ==> v == 0
  {
    if '0' <= c <= '9' then c as int - '0' as int else 0
  }
}
