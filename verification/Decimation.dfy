/** Decimation in time: the mean-scaled transform of a sequence from those of its even and odd samples. */
module Decimation {
  import opened Complex
  import opened BitReversal
  import opened Dft

  function EvenSamples<T>(u: seq<T>): (e: seq<T>)
    ensures |e| == |u| / 2
  {
    seq(|u| / 2, k requires 0 <= k < |u| / 2 => u[2 * k])
  }

  function OddSamples<T>(u: seq<T>): (o: seq<T>)
    ensures |o| == |u| / 2
  {
    seq(|u| / 2, k requires 0 <= k < |u| / 2 => u[2 * k + 1])
  }

  /** Halve c times, taking the odd samples where the bits of b, lowest last, are set. */
  function Decimated<T>(x: seq<T>, c: nat, b: nat): seq<T> {
    if c == 0 then x
    else if b % 2 == 0 then EvenSamples(Decimated(x, c - 1, b / 2))
    else OddSamples(Decimated(x, c - 1, b / 2))
  }

  /** Where sample k of the b-th of 2^c decimations lies. */
  function Origin(c: nat, b: nat, k: nat): nat { k * Pow2(c) + Rev(c, b) }

  lemma {:induction false} DecimatedAt<T>(x: seq<T>, bits: nat, c: nat, b: nat)
    requires |x| == Pow2(bits) && c <= bits && b < Pow2(c)
    ensures |Decimated(x, c, b)| == Pow2(bits - c)
    ensures forall k: nat :: k < Pow2(bits - c) ==>
      Origin(c, b, k) < |x| && Decimated(x, c, b)[k] == x[Origin(c, b, k)]
  {
    if c == 0 {
      DecimatedAll(x, bits, b);
    } else {
      hide Origin, Pow2, Rev, EvenSamples, OddSamples;
      var y := Decimated(x, c - 1, b / 2);
      HalveCount(bits, c, b);
      DecimatedAt(x, bits, c - 1, b / 2);
      Halved(y, Pow2(bits - c));
      forall k: nat | k < Pow2(bits - c)
        ensures Origin(c, b, k) < |x| && Decimated(x, c, b)[k] == x[Origin(c, b, k)]
      {
        OriginStep(c, b, k);
      }
    }
  }

  lemma DecimatedAll<T>(x: seq<T>, bits: nat, b: nat)
    requires |x| == Pow2(bits)
    ensures forall k: nat :: k < Pow2(bits - 0) ==> Origin(0, b, k) < |x| && Decimated(x, 0, b)[k] == x[Origin(0, b, k)]
  {
    forall k: nat | k < |x| ensures Origin(0, b, k) == k { OriginZero(b, k); }
  }

  lemma Halved<T>(y: seq<T>, h: nat)
    requires |y| == 2 * h
    ensures |EvenSamples(y)| == |OddSamples(y)| == h
    ensures forall k: nat :: k < h ==> EvenSamples(y)[k] == y[2 * k] && OddSamples(y)[k] == y[2 * k + 1]
  {
  }

  lemma HalveCount(bits: nat, c: nat, b: nat)
    requires 0 < c <= bits && b < Pow2(c)
    ensures b / 2 < Pow2(c - 1) && Pow2(bits - (c - 1)) == 2 * Pow2(bits - c)
  {
  }

  lemma OriginZero(b: nat, k: nat)
    ensures Origin(0, b, k) == k
  {
  }

  lemma OriginStep(c: nat, b: nat, k: nat)
    requires c > 0
    ensures Origin(c - 1, b / 2, 2 * k + b % 2) == Origin(c, b, k)
  {
    OddOffset(k, b % 2, Pow2(c - 1));
  }

  lemma OddOffset(k: int, e: int, p: int)
    requires 0 <= e <= 1
    ensures (2 * k + e) * p == k * (2 * p) + if e == 1 then p else 0
  {
  }

  /** Decimated down to single samples, the blocks are the samples in bit-reversed order. */
  lemma DecimatedSingle<T>(x: seq<T>, bits: nat, b: nat)
    requires |x| == Pow2(bits) && b < Pow2(bits)
    ensures Decimated(x, bits, b) == [x[Rev(bits, b)]]
  {
    DecimatedAt(x, bits, bits, b);
    assert Origin(bits, b, 0) == Rev(bits, b);
    assert Decimated(x, bits, b)[0] == x[Origin(bits, b, 0)];
  }

  /** A bin of the transform divided by the length. */
  function Mean(u: seq<Cx>, ex: seq<Cx>, d: nat, j: int): Cx
    requires |ex| > 0
  {
    if u == [] then ZERO else Scaled(Bin(u, ex, d, j), 1.0 / |u| as real)
  }

  /** Bins j and j + h of a sequence of 2h samples. */
  lemma SplitInTime(u: seq<Cx>, ex: seq<Cx>, d: nat, j: int)
    requires |ex| > 0 && |u| % 2 == 0 && |u| * d == |ex| && RootTable(ex)
    ensures Bin(u, ex, d, j)
         == Add(Bin(EvenSamples(u), ex, 2 * d, j), Mul(Bin(OddSamples(u), ex, 2 * d, j), W(ex, j * d)))
    ensures Bin(u, ex, d, j + |u| / 2)
         == Sub(Bin(EvenSamples(u), ex, 2 * d, j), Mul(Bin(OddSamples(u), ex, 2 * d, j), W(ex, j * d)))
  {
    hide Bin, Mul, W, RootTable;
    var h := |u| / 2;
    SplitOnce(u, ex, d, j);
    SplitOnce(u, ex, d, j + h);
    HalfSize(h, d, |ex|);
    BinPeriod(EvenSamples(u), ex, 2 * d, j);
    BinPeriod(OddSamples(u), ex, 2 * d, j);
    assert (j + h) * d == j * d + h * d;
    WAdd(ex, j * d, h * d);
    WHalf(ex, h * d);
    MulNeg(W(ex, j * d), ONE);
    MulOne(W(ex, j * d));
    MulNeg(Bin(OddSamples(u), ex, 2 * d, j), W(ex, j * d));
  }

  lemma HalfSize(h: nat, d: nat, size: nat)
    requires (2 * h) * d == size
    ensures h * (2 * d) == size && 2 * (h * d) == size
  {
  }

  lemma SplitOnce(u: seq<Cx>, ex: seq<Cx>, d: nat, j: int)
    requires |ex| > 0 && |u| % 2 == 0 && |u| * d == |ex| && RootTable(ex)
    ensures Bin(u, ex, d, j)
         == Add(Bin(EvenSamples(u), ex, 2 * d, j), Mul(Bin(OddSamples(u), ex, 2 * d, j), W(ex, j * d)))
  {
    hide Mul, W, RootTable;
    var t, e, o := Terms(u, ex, d, j), Terms(EvenSamples(u), ex, 2 * d, j), Terms(OddSamples(u), ex, 2 * d, j);
    var ow := seq(|o|, k requires 0 <= k < |o| => Mul(o[k], W(ex, j * d)));
    forall k | 0 <= k < |e| ensures t[2 * k] == e[k] && t[2 * k + 1] == ow[k] {
      OddExponent(j, k, d);
      WAdd(ex, j * k * (2 * d), j * d);
      MulAssoc(u[2 * k + 1], W(ex, j * k * (2 * d)), W(ex, j * d));
    }
    SumMul(o, W(ex, j * d), ow);
    SumInterleave(e, ow, t);
  }

  lemma OddExponent(j: int, k: int, d: int)
    ensures j * (2 * k) * d == j * k * (2 * d)
    ensures j * (2 * k + 1) * d == j * k * (2 * d) + j * d
  {
    assert j * (2 * k + 1) == 2 * (j * k) + j;
    assert (2 * (j * k) + j) * d == 2 * (j * k) * d + j * d;
    assert j * k * (2 * d) == 2 * (j * k) * d;
  }

  lemma BinPeriod(v: seq<Cx>, ex: seq<Cx>, d: nat, j: int)
    requires |ex| > 0 && |v| * d == |ex| && RootTable(ex)
    ensures Bin(v, ex, d, j + |v|) == Bin(v, ex, d, j)
  {
    hide Mul, W, RootTable;
    var t, u := Terms(v, ex, d, j + |v|), Terms(v, ex, d, j);
    forall k | 0 <= k < |v| ensures t[k] == u[k] {
      assert (j + |v|) * k * d == j * k * d + (|v| * d) * k by { PeriodExponent(j, |v|, k, d); }
      WPeriod(ex, j * k * d, k);
    }
    assert t == u;
  }

  lemma PeriodExponent(j: int, n: int, k: int, d: int)
    ensures (j + n) * k * d == j * k * d + (n * d) * k
  {
    assert (j + n) * k == j * k + n * k;
    assert (j * k + n * k) * d == j * k * d + n * k * d;
    assert n * k * d == (n * d) * k;
  }
}
