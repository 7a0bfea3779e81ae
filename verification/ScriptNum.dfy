/** Numbers as Bitcoin script stores them: little-endian magnitude with a sign bit on top. */
module ScriptNum {
  import opened Common

  function LeBytes(n: nat): (b: Bytes)
    ensures b != [] ==> b[|b| - 1] != 0
    ensures b == [] <==> n == 0
  {
    if n == 0 then [] else [(n % 256) as byte] + LeBytes(n / 256)
  }

  function LeValue(b: Bytes): nat {
    if b == [] then 0 else b[0] as nat + 256 * LeValue(b[1..])
  }

  lemma LeValueOne(x: byte)
    ensures LeValue([x]) == x as nat
  {
  }

  /** The magnitude with the sign bit on top, or in a byte of its own when the bit is taken. */
  function Signed(m: Bytes, negative: bool): Bytes
    requires m != []
  {
    var k := |m| - 1;
    if m[k] >= 128 then m + [if negative then 128 else 0]
    else if negative then m[..k] + [m[k] + 128]
    else m
  }

  function Encode(n: int): Bytes {
    var m := LeBytes(if n < 0 then -n else n);
    if m == [] then [] else Signed(m, n < 0)
  }

  function Decode(b: Bytes): int {
    var k := |b| - 1;
    if b == [] then 0
    else if b[k] >= 128 then 0 - LeValue(b[..k] + [b[k] - 128]) as int
    else LeValue(b)
  }

  lemma {:induction false} LeRoundTrip(n: nat)
    ensures LeValue(LeBytes(n)) == n
  {
    if n != 0 {
      LeRoundTrip(n / 256);
      assert LeBytes(n)[1..] == LeBytes(n / 256);
    }
  }

  lemma {:induction false} LeValueTopZero(b: Bytes)
    ensures LeValue(b + [0]) == LeValue(b)
  {
    if b == [] {
      assert (b + [0])[1..] == [];
    } else {
      assert (b + [0])[1..] == b[1..] + [0];
      LeValueTopZero(b[1..]);
    }
  }

  lemma DecodeExtended(m: Bytes, negative: bool)
    requires m != [] && m[|m| - 1] >= 128
    ensures Decode(Signed(m, negative)) == if negative then 0 - LeValue(m) as int else LeValue(m)
  {
    var e := Signed(m, negative);
    assert e[..|m|] == m;
    LeValueTopZero(m);
  }

  lemma SignBitTaken(m: Bytes)
    requires m != [] && m[|m| - 1] < 128
    ensures var e := Signed(m, true);
            |e| == |m| && e[|m| - 1] >= 128 && e[..|m| - 1] + [e[|m| - 1] - 128] == m
  {
    var e, k := Signed(m, true), |m| - 1;
    assert e[..k] == m[..k] && e[k] - 128 == m[k];
    assert m[..k] + [m[k]] == m;
  }

  lemma DecodeInPlace(m: Bytes, negative: bool)
    requires m != [] && m[|m| - 1] < 128
    ensures Decode(Signed(m, negative)) == if negative then 0 - LeValue(m) as int else LeValue(m)
  {
    if negative {
      SignBitTaken(m);
    }
  }

  /** Decoding undoes encoding, for every integer. */
  lemma RoundTrip(n: int)
    ensures Decode(Encode(n)) == n
  {
    var m := LeBytes(if n < 0 then -n else n);
    LeRoundTrip(if n < 0 then -n else n);
    if m != [] {
      if m[|m| - 1] >= 128 {
        DecodeExtended(m, n < 0);
      } else {
        DecodeInPlace(m, n < 0);
      }
    }
  }

  function Pow256(k: nat): nat {
    if k == 0 then 1 else 256 * Pow256(k - 1)
  }

  lemma {:induction false} LeLength(n: nat, k: nat)
    requires n < Pow256(k)
    ensures |LeBytes(n)| <= k
  {
    if n != 0 {
      LeLength(n / 256, k - 1);
    }
  }

  const TwoTo32: int := 0x1_0000_0000

  lemma EncodeFitsFiveBytes(n: int)
    requires 0 <= n < TwoTo32
    ensures |Encode(n)| <= 5
  {
    assert Pow256(2) == 0x1_0000;
    assert Pow256(4) == TwoTo32;
    LeLength(n, 4);
  }

  lemma EncodeIsShort(n: int)
    requires -0x8000_0000_0000_0000 <= n < 0x8000_0000_0000_0000
    ensures |Encode(n)| <= 9
  {
    assert Pow256(2) == 0x1_0000;
    assert Pow256(4) == TwoTo32;
    assert Pow256(6) == 0x1_0000_0000_0000;
    assert Pow256(8) == 0x1_0000_0000_0000_0000;
    LeLength(if n < 0 then -n else n, 8);
  }
}
