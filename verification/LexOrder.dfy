/** The byte order in which the key-value store keeps its keys. */
module LexOrder {
  import opened Common

  predicate LexLess(a: Bytes, b: Bytes) {
    b != [] && (a == [] || a[0] < b[0] || (a[0] == b[0] && LexLess(a[1..], b[1..])))
  }

  lemma {:induction false} LexIrreflexive(a: Bytes)
    ensures !LexLess(a, a)
  {
    if a != [] {
      LexIrreflexive(a[1..]);
    }
  }

  lemma {:induction false} LexTransitive(a: Bytes, b: Bytes, c: Bytes)
    requires LexLess(a, b) && LexLess(b, c)
    ensures LexLess(a, c)
  {
    if a != [] && a[0] == b[0] == c[0] {
      LexTransitive(a[1..], b[1..], c[1..]);
    }
  }

  lemma {:induction false} LexTotal(a: Bytes, b: Bytes)
    ensures a == b || LexLess(a, b) || LexLess(b, a)
  {
    if a != [] && b != [] && a[0] == b[0] {
      LexTotal(a[1..], b[1..]);
      if a[1..] == b[1..] {
        assert a == [a[0]] + a[1..] && b == [b[0]] + b[1..];
      }
    }
  }

  lemma {:induction false} LexSamePrefix(p: Bytes, a: Bytes, b: Bytes)
    ensures LexLess(p + a, p + b) == LexLess(a, b)
    decreases |p|
  {
    if p == [] {
      assert p + a == a && p + b == b;
    } else {
      assert (p + a)[1..] == p[1..] + a && (p + b)[1..] == p[1..] + b;
      LexSamePrefix(p[1..], a, b);
    }
  }

  lemma {:induction false} LexOtherPrefix(p: Bytes, q: Bytes, a: Bytes, b: Bytes)
    requires |p| == |q| && p != q
    ensures LexLess(p + a, q + b) == LexLess(p, q)
    decreases |p|
  {
    if p[0] == q[0] {
      assert (p + a)[1..] == p[1..] + a && (q + b)[1..] == q[1..] + b;
      assert p == [p[0]] + p[1..] && q == [q[0]] + q[1..];
      LexOtherPrefix(p[1..], q[1..], a, b);
    }
  }

  function Repeat(x: byte, n: nat): Bytes {
    seq(n, i => x)
  }

  lemma {:induction false} NothingBelowZeros(a: Bytes)
    ensures !LexLess(a, Repeat(0, |a|))
    decreases |a|
  {
    if a != [] {
      assert Repeat(0, |a|)[1..] == Repeat(0, |a| - 1);
      NothingBelowZeros(a[1..]);
    }
  }

  lemma {:induction false} BelowTheTop(a: Bytes)
    ensures LexLess(a, Repeat(0xff, |a|)) <==> a != Repeat(0xff, |a|)
    decreases |a|
  {
    if a != [] {
      var top := Repeat(0xff, |a|);
      assert top[1..] == Repeat(0xff, |a| - 1) && top == [0xff] + top[1..];
      assert a == [a[0]] + a[1..];
      BelowTheTop(a[1..]);
    }
  }
}
