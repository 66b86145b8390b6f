/** Encoding text as bytes the way `Buffer.from(string)` does, after RFC 3629, and a strict decoder. */
module Utf8 {
  import opened Bits
  import opened Results

  function EncodeChar(c: char): (r: seq<Byte>)
    ensures r != []
  {
    var v := c as int;
    if v < 0x80 then [v]
    else if v < 0x800 then [0xC0 + v / 0x40, 0x80 + v % 0x40]
    else if v < 0x1_0000 then [0xE0 + v / 0x1000, 0x80 + v / 0x40 % 0x40, 0x80 + v % 0x40]
    else [0xF0 + v / 0x4_0000, 0x80 + v / 0x1000 % 0x40, 0x80 + v / 0x40 % 0x40, 0x80 + v % 0x40]
  }

  function Encode(s: string): seq<Byte> {
    if s == "" then [] else EncodeChar(s[0]) + Encode(s[1..])
  }

  predicate IsContinuation(b: Byte) {
    0x80 <= b < 0xC0
  }

  /** A code point that is not a surrogate. */
  predicate IsScalar(v: int) {
    0 <= v < 0xD800 || 0xE000 <= v < 0x11_0000
  }

  function CharOf(v: int, least: int): Option<char> {
    if least <= v && IsScalar(v) then Some(v as char) else None
  }

  /** How many bytes the first one announces; 0 for one that cannot come first. */
  function Announced(b: Byte): nat {
    if b < 0x80 then 1 else if 0xC0 <= b < 0xE0 then 2 else if 0xE0 <= b < 0xF0 then 3 else if 0xF0 <= b < 0xF8 then 4
      else 0
  }

  /** The bits of a byte behind its marker. */
  function Part(b: Byte, marker: int): int {
    b as int - marker
  }

  /** The first character and how many bytes it takes; overlong forms and surrogates are refused. */
  function DecodeChar(data: seq<Byte>): (r: Option<(char, nat)>)
    ensures r.Some? ==> 0 < r.value.1 <= |data|
  {
    if data == [] then None
    else
      var n := Announced(data[0]);
      if n == 0 || |data| < n || exists i :: 1 <= i < n && !IsContinuation(data[i]) then None
      else
        var value :=
          if n == 1 then CharOf(data[0], 0)
          else if n == 2 then CharOf(Part(data[0], 0xC0) * 0x40 + Part(data[1], 0x80), 0x80)
          else if n == 3 then
            CharOf(Part(data[0], 0xE0) * 0x1000 + Part(data[1], 0x80) * 0x40 + Part(data[2], 0x80), 0x800)
          else
            CharOf(Part(data[0], 0xF0) * 0x4_0000 + Part(data[1], 0x80) * 0x1000 + Part(data[2], 0x80) * 0x40
                   + Part(data[3], 0x80), 0x1_0000);
        if value.Some? then Some((value.value, n)) else None
  }

  function Decode(data: seq<Byte>): Option<string>
    decreases |data|
  {
    if data == [] then Some("")
    else
      match DecodeChar(data)
      case None => None
      case Some((c, n)) =>
        match Decode(data[n..])
        case None => None
        case Some(rest) => Some([c] + rest)
  }

  lemma CharReads(c: char, rest: seq<Byte>)
    ensures DecodeChar(EncodeChar(c) + rest) == Some((c, |EncodeChar(c)|))
  {
    var v, data := c as int, EncodeChar(c) + rest;
    assert IsScalar(v);
    Digits(v);
  }

  /** A number is put together again from its digits to the base 64. */
  lemma Digits(v: int)
    requires v >= 0
    ensures v == v / 0x40 * 0x40 + v % 0x40
    ensures v / 0x40 == v / 0x1000 * 0x40 + v / 0x40 % 0x40
    ensures v / 0x1000 == v / 0x4_0000 * 0x40 + v / 0x1000 % 0x40
  {
  }

  /** Every text is read back from its bytes. */
  lemma {:induction false} RoundTrip(s: string)
    ensures Decode(Encode(s)) == Some(s)
  {
    if s != "" {
      hide EncodeChar, DecodeChar;
      var first, rest := EncodeChar(s[0]), Encode(s[1..]);
      CharReads(s[0], rest);
      RoundTrip(s[1..]);
      assert (first + rest)[|first|..] == rest;
      assert [s[0]] + s[1..] == s;
    }
  }
}
