/** Exact complex arithmetic, sums of complex sequences, and tables of roots of unity. */
module Complex {
  import opened Arith

  datatype Cx = Cx(re: real, im: real)

  const ZERO := Cx(0.0, 0.0)
  const ONE := Cx(1.0, 0.0)

  function Add(a: Cx, b: Cx): Cx { Cx(a.re + b.re, a.im + b.im) }

  function Sub(a: Cx, b: Cx): Cx { Cx(a.re - b.re, a.im - b.im) }

  function Neg(a: Cx): Cx { Cx(-a.re, -a.im) }

  function Mul(a: Cx, b: Cx): Cx { Cx(a.re * b.re - a.im * b.im, a.re * b.im + a.im * b.re) }

  function Conj(a: Cx): Cx { Cx(a.re, -a.im) }

  function Scaled(a: Cx, c: real): Cx { Cx(c * a.re, c * a.im) }

  function Half(a: Cx): Cx { Cx(a.re / 2.0, a.im / 2.0) }

  lemma MulAssoc(a: Cx, b: Cx, c: Cx)
    ensures Mul(Mul(a, b), c) == Mul(a, Mul(b, c))
  {
  }

  lemma MulAdd(a: Cx, b: Cx, c: Cx)
    ensures Mul(Add(a, b), c) == Add(Mul(a, c), Mul(b, c))
    ensures Mul(Sub(a, b), c) == Sub(Mul(a, c), Mul(b, c))
  {
  }

  lemma MulConj(a: Cx, b: Cx)
    ensures Conj(Mul(a, b)) == Mul(Conj(a), Conj(b))
  {
  }

  lemma MulNeg(a: Cx, b: Cx)
    ensures Mul(a, Neg(b)) == Neg(Mul(a, b)) == Mul(Neg(a), b)
  {
  }

  lemma MulComm(a: Cx, b: Cx)
    ensures Mul(a, b) == Mul(b, a)
  {
  }

  lemma MulOne(a: Cx)
    ensures Mul(a, ONE) == a == Mul(ONE, a)
  {
  }

  /** The sum of a sequence, accumulated from the left as a loop would. */
  function Sum(s: seq<Cx>): Cx {
    if s == [] then ZERO else Add(Sum(s[..|s| - 1]), s[|s| - 1])
  }

  lemma {:induction false} SumConcat(a: seq<Cx>, b: seq<Cx>)
    ensures Sum(a + b) == Add(Sum(a), Sum(b))
  {
    if b == [] {
      assert a + b == a;
    } else {
      var n := |b| - 1;
      assert (a + b)[..|a + b| - 1] == a + b[..n];
      SumConcat(a, b[..n]);
    }
  }

  lemma {:induction false} SumZip(a: seq<Cx>, b: seq<Cx>, c: seq<Cx>)
    requires |a| == |b| == |c|
    requires forall k :: 0 <= k < |c| ==> c[k] == Add(a[k], b[k])
    ensures Sum(c) == Add(Sum(a), Sum(b))
  {
    if c != [] {
      var n := |c| - 1;
      SumZip(a[..n], b[..n], c[..n]);
    }
  }

  lemma {:induction false} SumInterleave(a: seq<Cx>, b: seq<Cx>, c: seq<Cx>)
    requires |a| == |b| && |c| == 2 * |a|
    requires forall k :: 0 <= k < |a| ==> c[2 * k] == a[k] && c[2 * k + 1] == b[k]
    ensures Sum(c) == Add(Sum(a), Sum(b))
  {
    if a != [] {
      var n := |a| - 1;
      SumInterleave(a[..n], b[..n], c[..2 * n]);
      SumLastTwo(c, n);
    }
  }

  lemma SumLastTwo(c: seq<Cx>, n: nat)
    requires |c| == 2 * n + 2
    ensures Sum(c) == Add(Add(Sum(c[..2 * n]), c[2 * n]), c[2 * n + 1])
  {
    var d := c[..2 * n + 1];
    assert d[..2 * n] == c[..2 * n];
    assert Sum(d) == Add(Sum(d[..2 * n]), d[2 * n]);
  }

  lemma {:induction false} SumMul(a: seq<Cx>, w: Cx, c: seq<Cx>)
    requires |a| == |c|
    requires forall k :: 0 <= k < |c| ==> c[k] == Mul(a[k], w)
    ensures Sum(c) == Mul(Sum(a), w)
  {
    if c != [] {
      var n := |c| - 1;
      SumMul(a[..n], w, c[..n]);
      MulAdd(Sum(a[..n]), a[n], w);
    }
  }

  lemma {:induction false} SumConj(a: seq<Cx>, c: seq<Cx>)
    requires |a| == |c|
    requires forall k :: 0 <= k < |c| ==> c[k] == Conj(a[k])
    ensures Sum(c) == Conj(Sum(a))
  {
    if c != [] {
      var n := |c| - 1;
      SumConj(a[..n], c[..n]);
    }
  }

  /** The laws of the table of complex exponentials that the transforms are given. */
  ghost predicate RootTable(ex: seq<Cx>) {
    && |ex| > 0
    && ex[0] == ONE
    && (forall a, b :: 0 <= a < |ex| && 0 <= b < |ex| ==> Mul(ex[a], ex[b]) == ex[(a + b) % |ex|])
    && (|ex| % 2 == 0 ==> ex[|ex| / 2] == Neg(ONE))
  }

  /** The a-th power of the principal root, for any integer a. */
  function W(ex: seq<Cx>, a: int): Cx
    requires |ex| > 0
  {
    ex[a % |ex|]
  }

  lemma WIndex(ex: seq<Cx>, a: int)
    requires 0 <= a < |ex|
    ensures W(ex, a) == ex[a]
  {
    DivMod(a, 0, a, |ex|);
  }

  lemma WAdd(ex: seq<Cx>, a: int, b: int)
    requires RootTable(ex)
    ensures W(ex, a + b) == Mul(W(ex, a), W(ex, b))
  {
    ModAdd(a, b, |ex|);
  }

  lemma WTurn(ex: seq<Cx>, t: int)
    requires RootTable(ex)
    ensures W(ex, |ex| * t) == ONE
  {
    DivMod(|ex| * t, t, 0, |ex|);
  }

  lemma WPeriod(ex: seq<Cx>, a: int, t: int)
    requires RootTable(ex)
    ensures W(ex, a + |ex| * t) == W(ex, a)
  {
    WAdd(ex, a, |ex| * t);
    WTurn(ex, t);
  }

  lemma WHalf(ex: seq<Cx>, h: int)
    requires RootTable(ex) && 2 * h == |ex|
    ensures W(ex, h) == Neg(ONE)
  {
    DivMod(h, 0, h, |ex|);
  }
}
