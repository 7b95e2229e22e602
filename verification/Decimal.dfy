/** Printing and parsing of the 64-bit integers inside the id wrappers.
    Print is the `Display` of an `i64`; Parse is its `FromStr`: an optional sign, then at least one
    decimal digit, then a range check. */
module Decimal {
  import opened Options

  const I64_MIN: int := -0x8000_0000_0000_0000
  const I64_MAX: int := 0x7FFF_FFFF_FFFF_FFFF

  type I64 = x: int | I64_MIN <= x <= I64_MAX

  predicate IsDigit(c: char) {
    '0' <= c <= '9'
  }

  function DigitOf(d: nat): (c: char)
    requires d < 10
    ensures IsDigit(c)
    ensures ValueOf(c) == d
  {
    ('0' as int + d) as char
  }

  function ValueOf(c: char): (d: nat)
    requires IsDigit(c)
    ensures d < 10
  {
    c as int - '0' as int
  }

  /** The decimal digits of a natural number, without leading zeros. */
  function Digits(n: nat): (s: string)
    ensures s != ""
    ensures forall i :: 0 <= i < |s| ==> IsDigit(s[i])
  {
    if n < 10 then [DigitOf(n)] else Digits(n / 10) + [DigitOf(n % 10)]
  }

  function Magnitude(s: string): Option<nat> {
    if s == "" then Some(0)
    else if !IsDigit(s[|s| - 1]) then None
    else
      match Magnitude(s[..|s| - 1])
      case None => None
      case Some(high) => Some(10 * high + ValueOf(s[|s| - 1]))
  }

  function Print(n: I64): string {
    if n < 0 then "-" + Digits(-(n as int)) else Digits(n)
  }

  function InRange(n: int): Option<I64> {
    if I64_MIN <= n <= I64_MAX then Some(n) else None
  }

  function Parse(s: string): Option<I64> {
    var negative := s != "" && s[0] == '-';
    var digits := if s != "" && (s[0] == '-' || s[0] == '+') then s[1..] else s;
    if digits == "" then None
    else
      match Magnitude(digits)
      case None => None
      case Some(m) => InRange(if negative then -(m as int) else m)
  }

  lemma {:induction false} MagnitudeOfDigits(n: nat)
    ensures Magnitude(Digits(n)) == Some(n)
  {
    if n < 10 {
      assert Digits(n)[..0] == "";
    } else {
      MagnitudeOfDigits(n / 10);
      assert Digits(n)[..|Digits(n)| - 1] == Digits(n / 10);
    }
  }

  /** Every 64-bit integer survives printing and parsing. */
  lemma ParsePrint(n: I64)
    ensures Parse(Print(n)) == Some(n)
  {
    hide Digits, Magnitude;
    if n < 0 {
      MagnitudeOfDigits(-(n as int));
      assert Print(n)[1..] == Digits(-(n as int));
    } else {
      MagnitudeOfDigits(n);
      assert IsDigit(Print(n)[0]);
    }
  }

  /** An integer may carry a sign, and only digits may follow it. */
  lemma ParseExactly(n: I64, s: string)
    ensures n >= 0 ==> Parse("+" + Digits(n)) == Some(n)
    ensures Parse("") == Parse("+") == Parse("-") == None
    ensures (exists i | 1 <= i < |s| :: !IsDigit(s[i])) ==> Parse(s) == None
    ensures s != "" && !IsDigit(s[0]) && s[0] != '+' && s[0] != '-' ==> Parse(s) == None
  {
    if n >= 0 {
      MagnitudeOfDigits(n);
      assert ("+" + Digits(n))[1..] == Digits(n);
    }
    if s != "" {
      OnlyDigits(s);
      OnlyDigits(s[1..]);
      assert forall i | 1 <= i < |s| :: s[1..][i - 1] == s[i];
    }
  }

  lemma {:induction false} OnlyDigits(s: string)
    ensures Magnitude(s).Some? <==> forall i | 0 <= i < |s| :: IsDigit(s[i])
    decreases |s|
  {
    if s != "" {
      OnlyDigits(s[..|s| - 1]);
      assert forall i | 0 <= i < |s| - 1 :: s[..|s| - 1][i] == s[i];
    }
  }

  /** A printed integer consists of digits after an optional minus sign. */
  lemma PrintIsPlain(n: I64)
    ensures Print(n) != ""
    ensures forall i :: 0 <= i < |Print(n)| ==> IsDigit(Print(n)[i]) || Print(n)[i] == '-'
  {
    if n < 0 {
      assert forall i :: 1 <= i < |Print(n)| ==> Print(n)[i] == Digits(-(n as int))[i - 1];
    }
  }
}
