/** The standard base64 alphabet with padding (section 4 of RFC 4648), as Rust encodes and Go decodes it. */
module Base64 {
  import opened Wrappers
  import opened Values

  type Sextet = i: int | 0 <= i < 64

  /** The alphabet A-Z, a-z, 0-9, + and /, in this order. */
  function CharOf(i: Sextet): char {
    if i < 26 then ('A' as int + i) as char
    else if i < 52 then ('a' as int + i - 26) as char
    else if i < 62 then ('0' as int + i - 52) as char
    else if i == 62 then '+' else '/'
  }

  function SextetOf(c: char): Option<Sextet> {
    if 'A' <= c <= 'Z' then Some(c as int - 'A' as int)
    else if 'a' <= c <= 'z' then Some(c as int - 'a' as int + 26)
    else if '0' <= c <= '9' then Some(c as int - '0' as int + 52)
    else if c == '+' then Some(62)
    else if c == '/' then Some(63)
    else None
  }

  function Encode(b: seq<Byte>): string {
    if b == [] then ""
    else if |b| == 1 then
      var x := b[0] as int;
      [CharOf(x / 4), CharOf(x % 4 * 16), '=', '=']
    else if |b| == 2 then
      var x, y := b[0] as int, b[1] as int;
      [CharOf(x / 4), CharOf(x % 4 * 16 + y / 16), CharOf(y % 16 * 4), '=']
    else
      var x, y, z := b[0] as int, b[1] as int, b[2] as int;
      [CharOf(x / 4), CharOf(x % 4 * 16 + y / 16), CharOf(y % 16 * 4 + z / 64), CharOf(z % 64)] + Encode(b[3..])
  }

  /** Go's decoder skips line breaks anywhere in the text. */
  function WithoutLineBreaks(s: string): string {
    if s == [] then []
    else (if s[0] == '\r' || s[0] == '\n' then [] else [s[0]]) + WithoutLineBreaks(s[1..])
  }

  function Decode(s: string): Option<seq<Byte>> {
    DecodeQuads(WithoutLineBreaks(s))
  }

  function FirstByte(a: Sextet, b: Sextet): Byte {
    (a * 4 + b / 16) as char
  }

  function SecondByte(b: Sextet, c: Sextet): Byte {
    (b % 16 * 16 + c / 4) as char
  }

  function ThirdByte(c: Sextet, d: Sextet): Byte {
    (c % 4 * 64 + d) as char
  }

  /** Four characters at a time; padding may only end the text, and unused bits are ignored. */
  function DecodeQuads(s: string): Option<seq<Byte>> {
    if s == [] then Some([])
    else if |s| < 4 then None
    else
      var a, b, c, d := SextetOf(s[0]), SextetOf(s[1]), SextetOf(s[2]), SextetOf(s[3]);
      if a.None? || b.None? then None
      else if s[2] == '=' then
        if s[3] == '=' && |s| == 4 then Some([FirstByte(a.value, b.value)]) else None
      else if c.None? then None
      else if s[3] == '=' then
        if |s| == 4 then Some([FirstByte(a.value, b.value), SecondByte(b.value, c.value)]) else None
      else if d.None? then None
      else
        var rest := DecodeQuads(s[4..]);
        if rest.None? then None
        else Some([FirstByte(a.value, b.value), SecondByte(b.value, c.value), ThirdByte(c.value, d.value)] + rest.value)
  }

  lemma SextetOfCharOf(i: Sextet)
    ensures SextetOf(CharOf(i)) == Some(i)
    ensures CharOf(i) != '=' && CharOf(i) != '\r' && CharOf(i) != '\n'
  {
  }

  /** The first three bytes survive the trip through four sextets. */
  lemma BytesOfSextets(x: int, y: int, z: int)
    requires 0 <= x < 256 && 0 <= y < 256 && 0 <= z < 256
    ensures x / 4 < 64 && x % 4 * 16 + y / 16 < 64 && y % 16 * 4 + z / 64 < 64
    ensures FirstByte(x / 4, x % 4 * 16 + y / 16) == x as char
    ensures SecondByte(x % 4 * 16 + y / 16, y % 16 * 4 + z / 64) == y as char
    ensures ThirdByte(y % 16 * 4 + z / 64, z % 64) == z as char
  {
  }

  predicate NoLineBreaks(s: string) {
    forall i | 0 <= i < |s| :: s[i] != '\r' && s[i] != '\n'
  }

  lemma {:induction false} NothingToStrip(s: string)
    requires NoLineBreaks(s)
    ensures WithoutLineBreaks(s) == s
  {
    if s != [] {
      NothingToStrip(s[1..]);
      assert s == [s[0]] + s[1..];
    }
  }

  lemma {:induction false} EncodeHasNoLineBreaks(b: seq<Byte>)
    ensures NoLineBreaks(Encode(b))
  {
    if |b| >= 3 {
      EncodeHasNoLineBreaks(b[3..]);
    }
  }

  lemma OneByteInverts(x: int)
    requires 0 <= x < 256
    ensures DecodeQuads([CharOf(x / 4), CharOf(x % 4 * 16), '=', '=']) == Some([x as char])
  {
    BytesOfSextets(x, 0, 0);
    SextetOfCharOf(x / 4);
    SextetOfCharOf(x % 4 * 16);
  }

  lemma TwoBytesInvert(x: int, y: int)
    requires 0 <= x < 256 && 0 <= y < 256
    ensures x % 4 * 16 + y / 16 < 64
    ensures DecodeQuads([CharOf(x / 4), CharOf(x % 4 * 16 + y / 16), CharOf(y % 16 * 4), '=']) ==
            Some([x as char, y as char])
  {
    BytesOfSextets(x, y, 0);
    SextetOfCharOf(x / 4);
    SextetOfCharOf(x % 4 * 16 + y / 16);
    SextetOfCharOf(y % 16 * 4);
  }

  lemma ThreeBytesInvert(x: int, y: int, z: int, text: string, rest: seq<Byte>)
    requires 0 <= x < 256 && 0 <= y < 256 && 0 <= z < 256 && DecodeQuads(text) == Some(rest)
    ensures x % 4 * 16 + y / 16 < 64 && y % 16 * 4 + z / 64 < 64
    ensures DecodeQuads([CharOf(x / 4), CharOf(x % 4 * 16 + y / 16), CharOf(y % 16 * 4 + z / 64), CharOf(z % 64)] +
                        text) ==
            Some([x as char, y as char, z as char] + rest)
  {
    BytesOfSextets(x, y, z);
    SextetOfCharOf(x / 4);
    SextetOfCharOf(x % 4 * 16 + y / 16);
    SextetOfCharOf(y % 16 * 4 + z / 64);
    SextetOfCharOf(z % 64);
    var quad := [CharOf(x / 4), CharOf(x % 4 * 16 + y / 16), CharOf(y % 16 * 4 + z / 64), CharOf(z % 64)];
    assert (quad + text)[4..] == text;
  }

  lemma {:induction false} QuadsInvertEncode(b: seq<Byte>)
    ensures DecodeQuads(Encode(b)) == Some(b)
  {
    if |b| == 1 {
      OneByteInverts(b[0] as int);
      assert b == [b[0]];
    } else if |b| == 2 {
      TwoBytesInvert(b[0] as int, b[1] as int);
      assert b == [b[0], b[1]];
    } else if |b| >= 3 {
      QuadsInvertEncode(b[3..]);
      ThreeBytesInvert(b[0] as int, b[1] as int, b[2] as int, Encode(b[3..]), b[3..]);
      assert b == [b[0], b[1], b[2]] + b[3..];
    }
  }

  /** Decoding inverts encoding for every byte sequence. */
  lemma DecodeInvertsEncode(b: seq<Byte>)
    ensures Decode(Encode(b)) == Some(b)
  {
    EncodeHasNoLineBreaks(b);
    NothingToStrip(Encode(b));
    QuadsInvertEncode(b);
  }
}
