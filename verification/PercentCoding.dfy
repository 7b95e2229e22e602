/** Percent-decoding takes back every way of percent-encoding. */
module PercentCoding {
  import opened Options
  import opened Trout

  function HexDigit(d: nat): char
    requires d < 16
  {
    if d < 10 then ('0' as int + d) as char else ('A' as int + d - 10) as char
  }

  /** Some characters as a percent sign and the two hexadecimal digits of their octet (section 2.1 of RFC 3986). */
  function PercentEncode(s: string, encoded: set<char>): string
    requires forall c | c in s && c in encoded :: c < '\U{100}'
  {
    if s == "" then ""
    else if s[0] in encoded then
      assert s[0] in s;
      ['%', HexDigit(s[0] as int / 16), HexDigit(s[0] as int % 16)] + PercentEncode(s[1..], encoded)
    else [s[0]] + PercentEncode(s[1..], encoded)
  }

  lemma HexBack(d: nat)
    requires d < 16
    ensures HexValue(HexDigit(d)) == Some(d)
  {
  }

  /** Whatever else is encoded, a text whose percent signs are encoded comes back. */
  lemma {:induction false} DecodeEncode(s: string, encoded: set<char>)
    requires '%' in encoded && forall c | c in s && c in encoded :: c < '\U{100}'
    ensures PercentDecode(PercentEncode(s, encoded)) == s
  {
    if s != "" {
      DecodeEncode(s[1..], encoded);
      var code, rest := PercentEncode(s, encoded), PercentEncode(s[1..], encoded);
      if s[0] in encoded {
        assert s[0] in s;
        HexBack(s[0] as int / 16);
        HexBack(s[0] as int % 16);
        hide HexValue, HexDigit;
        assert code[3..] == rest;
        assert s == [s[0]] + s[1..];
      } else {
        assert code[1..] == rest;
        assert s == [s[0]] + s[1..];
      }
    }
  }
}
