/** Text as bytes and as the client runtime's code units. */
module Text {

  type Byte = n: nat | n < 256

  type ByteString = seq<Byte>

  /** The UTF-8 bytes of one character. */
  function Utf8(c: char): (bytes: ByteString)
    ensures 1 <= |bytes| <= 4
  {
    var n := c as int;
    if n < 0x80 then [n]
    else if n < 0x800 then [0xC0 + n / 0x40, 0x80 + n % 0x40]
    else if n < 0x1_0000 then [0xE0 + n / 0x1000, 0x80 + n / 0x40 % 0x40, 0x80 + n % 0x40]
    else [0xF0 + n / 0x4_0000, 0x80 + n / 0x1000 % 0x40, 0x80 + n / 0x40 % 0x40, 0x80 + n % 0x40]
  }

  function Utf8Bytes(text: string): ByteString {
    if text == [] then [] else Utf8(text[0]) + Utf8Bytes(text[1..])
  }

  function LowerAscii(c: char): char {
    if 'A' <= c <= 'Z' then (c as int + 32) as char else c
  }

  function LowerText(text: string): (lower: string)
    ensures |lower| == |text|
  {
    if text == [] then [] else [LowerAscii(text[0])] + LowerText(text[1..])
  }
}
