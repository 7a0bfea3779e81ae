/** Decimal strings: how big integers are written and read back (base 10, optional sign). */
module Decimal {
  import opened Common

  predicate IsDigit(c: char) {
    '0' <= c <= '9'
  }

  function DigitChar(d: nat): (c: char)
    requires d < 10
    ensures IsDigit(c) && DigitValue(c) == d
  {
    ('0' as int + d) as char
  }

  function DigitValue(c: char): (d: nat)
    requires IsDigit(c)
    ensures d < 10
  {
    c as int - '0' as int
  }

  function PrintNat(n: nat): (s: string)
    ensures s != [] && forall i | 0 <= i < |s| :: IsDigit(s[i])
  {
    if n < 10 then [DigitChar(n)] else PrintNat(n / 10) + [DigitChar(n % 10)]
  }

  function Print(n: int): string {
    if n < 0 then "-" + PrintNat(-n) else PrintNat(n)
  }

  function ParseDigits(s: string): nat
    requires forall i | 0 <= i < |s| :: IsDigit(s[i])
  {
    if s == [] then 0 else 10 * ParseDigits(s[..|s| - 1]) + DigitValue(s[|s| - 1])
  }

  function ParseNat(s: string): Option<int> {
    if s != [] && (forall i | 0 <= i < |s| :: IsDigit(s[i])) then Some(ParseDigits(s)) else None
  }

  /** Reading accepts one leading sign, and nothing but digits after it. */
  function Parse(s: string): Option<int> {
    if s != [] && s[0] == '-' then
      match ParseNat(s[1..])
      case Some(n) => Some(-n)
      case None => None
    else if s != [] && s[0] == '+' then ParseNat(s[1..])
    else ParseNat(s)
  }

  lemma {:induction false} DigitsOfPrint(n: nat)
    ensures ParseDigits(PrintNat(n)) == n
  {
    if n >= 10 {
      DigitsOfPrint(n / 10);
      var s := PrintNat(n);
      assert s[..|s| - 1] == PrintNat(n / 10);
    } else {
      assert PrintNat(n)[..0] == [];
    }
  }

  lemma ParsePrint(n: int)
    ensures Parse(Print(n)) == Some(n)
  {
    if n < 0 {
      DigitsOfPrint(-n);
      assert Print(n)[1..] == PrintNat(-n);
    } else {
      DigitsOfPrint(n);
    }
  }

  /** What follows the one sign a number may have. */
  function Unsigned(s: string): string {
    if s != [] && s[0] in "+-" then s[1..] else s
  }

  /**
   Exactly the strings with at most one sign, followed by digits and nothing else, are numbers;
   only a minus makes one negative, and a plus changes nothing.
   */
  lemma ParseExact(s: string)
    ensures Parse(s).Some? <==> Unsigned(s) != [] && forall i | 0 <= i < |Unsigned(s)| :: IsDigit(Unsigned(s)[i])
    ensures Parse(s).Some? ==>
              Parse(s).value == if s[0] == '-' then 0 - ParseDigits(Unsigned(s)) as int else ParseDigits(Unsigned(s))
  {
  }
}
