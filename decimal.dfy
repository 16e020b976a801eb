/** Decimal text of integers, as `sprintf("%d")` and `QString::number` produce it,
    together with the parser that inverts it. The dumper writes counts and child
    indices this way; the device wizard builds its " (k)" name suffixes with it.
    Hexadecimal text, as `sprintf("%p")` writes addresses, comes with its parser too. */
module Decimal {

  function DigitChar(d: nat): (c: char)
    requires d < 10
    ensures '0' <= c <= '9'
  {
    ('0' as int + d) as char
  }

  predicate IsDigit(c: char) { '0' <= c <= '9' }

  function DigitValue(c: char): nat
    requires IsDigit(c)
  {
    c as int - '0' as int
  }

  /** Decimal digits of a non-negative number, most significant first, no leading zeros. */
  function NatText(n: nat): (s: string)
    ensures |s| >= 1
    ensures forall i :: 0 <= i < |s| ==> IsDigit(s[i])
  {
    if n < 10 then [DigitChar(n)] else NatText(n / 10) + [DigitChar(n % 10)]
  }

  /** `%d`: a minus sign in front of negative values. */
  function IntText(i: int): (s: string)
    ensures |s| >= 1
  {
    if i < 0 then "-" + NatText(-i) else NatText(i)
  }

  function ParseNat(s: string): nat
    requires forall i :: 0 <= i < |s| ==> IsDigit(s[i])
  {
    if s == [] then 0 else ParseNat(s[..|s| - 1]) * 10 + DigitValue(s[|s| - 1])
  }

  function ParseInt(s: string): int
    requires |s| >= 1
    requires s[0] == '-' ==> forall i :: 1 <= i < |s| ==> IsDigit(s[i])
    requires s[0] != '-' ==> forall i :: 0 <= i < |s| ==> IsDigit(s[i])
  {
    if s[0] == '-' then 0 - ParseNat(s[1..]) else ParseNat(s)
  }

  lemma {:induction false} ParseNatText(n: nat)
    ensures ParseNat(NatText(n)) == n
  {
    if n >= 10 {
      var s := NatText(n);
      assert s[..|s| - 1] == NatText(n / 10);
      ParseNatText(n / 10);
    }
  }

  lemma IntTextRoundTrip(i: int)
    ensures IntText(i)[0] == '-' <==> i < 0
    ensures ParseInt(IntText(i)) == i
  {
    if i < 0 {
      assert IntText(i)[1..] == NatText(-i);
      ParseNatText(-i);
    } else {
      ParseNatText(i);
    }
  }

  /** Different numbers never print alike. */
  lemma IntTextInjective(i: int, j: int)
    requires IntText(i) == IntText(j)
    ensures i == j
  {
    IntTextRoundTrip(i);
    IntTextRoundTrip(j);
  }

  /** Child indices 100..999 print as exactly three digits. */
  lemma {:induction false} ThreeDigits(n: nat)
    requires 100 <= n < 1000
    ensures |IntText(n)| == 3
  {
    assert NatText(n / 10) == NatText(n / 100) + [DigitChar((n / 10) % 10)];
  }

  function HexDigit(d: nat): (c: char)
    requires d < 16
  {
    if d < 10 then DigitChar(d) else ('a' as int + d - 10) as char
  }

  /** Lower-case hexadecimal digits, most significant first, no leading zeros. */
  function HexText(n: nat): (s: string)
    ensures |s| >= 1
  {
    if n < 16 then [HexDigit(n)] else HexText(n / 16) + [HexDigit(n % 16)]
  }

  function HexValue(c: char): nat
  {
    if '0' <= c <= '9' then c as int - '0' as int
    else if 'a' <= c <= 'f' then c as int - 'a' as int + 10
    else 0
  }

  function ParseHex(s: string): nat
  {
    if s == [] then 0 else ParseHex(s[..|s| - 1]) * 16 + HexValue(s[|s| - 1])
  }

  /** Reading the hexadecimal text back gives the number. */
  lemma {:induction false} ParseHexText(n: nat)
    ensures ParseHex(HexText(n)) == n
  {
    if n >= 16 {
      var s := HexText(n);
      assert s[..|s| - 1] == HexText(n / 16);
      ParseHexText(n / 16);
    }
  }
}
