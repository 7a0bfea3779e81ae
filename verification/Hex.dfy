/** Hexadecimal strings, as transaction hashes are written: two digits a byte, in either case. */
module Hex {
  import opened Common

  function DigitOf(n: nat): char
    requires n < 16
  {
    "0123456789abcdef"[n]
  }

  function ValueOf(c: char): (r: Option<nat>)
    ensures r.Some? ==> r.value < 16
  {
    if '0' <= c <= '9' then Some(c as int - '0' as int)
    else if 'a' <= c <= 'f' then Some(c as int - 'a' as int + 10)
    else if 'A' <= c <= 'F' then Some(c as int - 'A' as int + 10)
    else None
  }

  function Lower(c: char): char {
    if 'A' <= c <= 'F' then (c as int - 'A' as int + 'a' as int) as char else c
  }

  function LowerAll(s: string): string {
    seq(|s|, i requires 0 <= i < |s| => Lower(s[i]))
  }

  function Encode(b: Bytes): string {
    if b == [] then [] else [DigitOf(b[0] as nat / 16), DigitOf(b[0] as nat % 16)] + Encode(b[1..])
  }

  function Decode(s: string): Option<Bytes> {
    if s == [] then Some([])
    else if |s| == 1 || ValueOf(s[0]).None? || ValueOf(s[1]).None? then None
    else
      match Decode(s[2..])
      case None => None
      case Some(rest) => Some([(16 * ValueOf(s[0]).value + ValueOf(s[1]).value) as byte] + rest)
  }

  lemma DigitExact(c: char, n: nat)
    requires n < 16
    ensures ValueOf(c) == Some(n) <==> Lower(c) == DigitOf(n)
  {
  }

  lemma PairExact(c: char, d: char, x: byte)
    ensures ValueOf(c).Some? && ValueOf(d).Some? && 16 * ValueOf(c).value + ValueOf(d).value == x as nat
            <==> Lower(c) == DigitOf(x as nat / 16) && Lower(d) == DigitOf(x as nat % 16)
  {
    DigitExact(c, x as nat / 16);
    DigitExact(d, x as nat % 16);
    if ValueOf(c).Some? && ValueOf(d).Some? {
      TwoDigits(ValueOf(c).value, ValueOf(d).value, x as nat);
    }
  }

  lemma TwoDigits(a: nat, b: nat, x: nat)
    requires b < 16
    ensures 16 * a + b == x <==> a == x / 16 && b == x % 16
  {
  }

  /** A string decodes to `b` exactly when it spells `b`, upper and lower case being the same. */
  lemma {:induction false} DecodeExact(s: string, b: Bytes)
    ensures Decode(s) == Some(b) <==> LowerAll(s) == Encode(b)
    decreases |s|
  {
    if |s| >= 2 && b != [] {
      DecodeExact(s[2..], b[1..]);
      PairExact(s[0], s[1], b[0]);
      assert LowerAll(s) == [Lower(s[0]), Lower(s[1])] + LowerAll(s[2..]);
      assert b == [b[0]] + b[1..];
      TwoAndRest(Lower(s[0]), Lower(s[1]), LowerAll(s[2..]), DigitOf(b[0] as nat / 16), DigitOf(b[0] as nat % 16),
        Encode(b[1..]));
    } else if b != [] {
      assert |Encode(b)| >= 2;
    } else if s != [] {
      assert LowerAll(s) != [];
    } else {
      assert LowerAll(s) == [];
    }
  }

  lemma TwoAndRest(a: char, b: char, rest: string, a': char, b': char, rest': string)
    ensures [a, b] + rest == [a', b'] + rest' <==> a == a' && b == b' && rest == rest'
  {
    if [a, b] + rest == [a', b'] + rest' {
      assert ([a, b] + rest)[0] == a && ([a, b] + rest)[1] == b && ([a, b] + rest)[2..] == rest;
      assert ([a', b'] + rest')[2..] == rest';
    }
  }

  lemma {:induction false} EncodeIsLower(b: Bytes)
    ensures LowerAll(Encode(b)) == Encode(b)
  {
    if b == [] {
      assert LowerAll(Encode(b)) == [];
    } else {
      EncodeIsLower(b[1..]);
      var hi, lo, rest := DigitOf(b[0] as nat / 16), DigitOf(b[0] as nat % 16), Encode(b[1..]);
      assert LowerAll([hi, lo] + rest) == [Lower(hi), Lower(lo)] + LowerAll(rest);
    }
  }

  lemma RoundTrip(b: Bytes)
    ensures Decode(Encode(b)) == Some(b)
  {
    EncodeIsLower(b);
    DecodeExact(Encode(b), b);
  }
}
