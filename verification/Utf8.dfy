/** The octets of a text, as the database measures it. */
module Utf8 {
  import opened Tasks

  /** The octets of one character in UTF-8 (section 3 of RFC 3629). */
  function Encode(c: int): (bytes: seq<int>)
    requires 0 <= c < 0x11_0000
  {
    if c < 0x80 then [c]
    else if c < 0x800 then [0xC0 + c / 0x40, 0x80 + c % 0x40]
    else if c < 0x1_0000 then [0xE0 + c / 0x1000, 0x80 + c / 0x40 % 0x40, 0x80 + c % 0x40]
    else [0xF0 + c / 0x4_0000, 0x80 + c / 0x1000 % 0x40, 0x80 + c / 0x40 % 0x40, 0x80 + c % 0x40]
  }

  function EncodeAll(s: string): seq<int> {
    if s == "" then [] else Encode(s[0] as int) + EncodeAll(s[1..])
  }

  /** How many octets a character has that starts with this one. */
  function Width(first: int): nat {
    if first < 0x80 then 1 else if first < 0xE0 then 2 else if first < 0xF0 then 3 else 4
  }

  /** The characters that octets stand for, by the first octet of each. */
  function Decode(bytes: seq<int>): seq<int> {
    if bytes == [] || |bytes| < Width(bytes[0]) then []
    else
      var n, b := Width(bytes[0]), bytes;
      [if n == 1 then b[0]
       else if n == 2 then (b[0] - 0xC0) * 0x40 + (b[1] - 0x80)
       else if n == 3 then (b[0] - 0xE0) * 0x1000 + (b[1] - 0x80) * 0x40 + (b[2] - 0x80)
       else (b[0] - 0xF0) * 0x4_0000 + (b[1] - 0x80) * 0x1000 + (b[2] - 0x80) * 0x40 + (b[3] - 0x80)] + Decode(bytes[n..])
  }

  function CodePoints(s: string): seq<int> {
    seq(|s|, i requires 0 <= i < |s| => s[i] as int)
  }

  lemma DecodeFirst(c: int, rest: seq<int>)
    requires 0 <= c < 0x11_0000
    ensures Decode(Encode(c) + rest) == [c] + Decode(rest)
  {
    var bytes, n := Encode(c) + rest, |Encode(c)|;
    assert Width(bytes[0]) == n;
    assert bytes[n..] == rest;
    hide Decode;
    assert c == c / 0x40 * 0x40 + c % 0x40;
    assert c / 0x40 == c / 0x1000 * 0x40 + c / 0x40 % 0x40;
    assert c / 0x1000 == c / 0x4_0000 * 0x40 + c / 0x1000 % 0x40;
  }

  /** The octets are those of UTF-8, from which the text can be read back. */
  lemma {:induction false} OctetsAreUtf8(s: string)
    ensures Octets(s) == |EncodeAll(s)|
    ensures Decode(EncodeAll(s)) == CodePoints(s)
  {
    if s != "" {
      OctetsAreUtf8(s[1..]);
      hide Decode;
      DecodeFirst(s[0] as int, EncodeAll(s[1..]));
      assert CodePoints(s) == [s[0] as int] + CodePoints(s[1..]);
    }
  }
}
