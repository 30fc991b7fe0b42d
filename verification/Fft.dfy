/** The in-place radix-2 transforms, on strided and on packed data. */
module Fft {
  import opened Arith
  import opened Complex
  import opened BitReversal
  import opened Dft
  import opened Passes
  import opened Butterflies

  /** The n samples of the array that lie skip cells apart. */
  function View(x: seq<Cx>, n: nat, skip: nat): (v: seq<Cx>)
    ensures |v| == n
  {
    seq(n, i => Sample(x, i, skip))
  }

  function Sample(x: seq<Cx>, i: int, skip: nat): Cx {
    if 0 <= i * skip < |x| then x[i * skip] else ZERO
  }

  predicate Fits(length: int, n: nat, skip: nat) { skip > 0 && (n == 0 || (n - 1) * skip < length) }

  /** Is cell c one of the n samples? */
  predicate OnLattice(c: int, n: nat, skip: nat)
    requires skip > 0
  {
    0 <= c && c % skip == 0 && c / skip < n
  }

  /** Only the n samples may differ. */
  ghost predicate SameOffLattice(x: seq<Cx>, y: seq<Cx>, n: nat, skip: nat)
    requires skip > 0
  {
    |x| == |y| && forall c :: 0 <= c < |x| && !OnLattice(c, n, skip) ==> x[c] == y[c]
  }

  lemma ViewAt(x: seq<Cx>, n: nat, skip: nat, i: nat)
    requires Fits(|x|, n, skip) && i < n
    ensures i * skip < |x| && View(x, n, skip)[i] == x[i * skip]
  {
    if i < n - 1 { MulGap(skip, n - 1, i); }
  }

  lemma ViewUpdate(x: seq<Cx>, n: nat, skip: nat, i: nat, a: Cx)
    requires Fits(|x|, n, skip) && i < n && i * skip < |x|
    ensures View(x[i * skip := a], n, skip) == View(x, n, skip)[i := a]
    ensures SameOffLattice(x, x[i * skip := a], n, skip)
  {
    var u, v := View(x[i * skip := a], n, skip), View(x, n, skip)[i := a];
    forall k | 0 <= k < n ensures u[k] == v[k] {
      if k * skip == i * skip { QuotRem(skip, k, 0, i, 0); }
      ViewAt(x, n, skip, k);
    }
    DivMod(i * skip, i, 0, skip);
  }

  lemma ViewUpdatePair(x: seq<Cx>, n: nat, skip: nat, i: nat, p: nat, a: Cx, b: Cx, y: seq<Cx>)
    requires Fits(|x|, n, skip) && i < n && p < n && i * skip < |x| && p * skip < |x|
    requires y == x[i * skip := a][p * skip := b]
    ensures View(y, n, skip) == View(x, n, skip)[i := a][p := b]
    ensures SameOffLattice(x, y, n, skip)
  {
    hide View;
    ViewUpdate(x, n, skip, i, a);
    ViewUpdate(x[i * skip := a], n, skip, p, b);
  }

  lemma SameTrans(x: seq<Cx>, y: seq<Cx>, z: seq<Cx>, n: nat, skip: nat)
    requires skip > 0 && SameOffLattice(x, y, n, skip) && SameOffLattice(y, z, n, skip)
    ensures SameOffLattice(x, z, n, skip)
  {
  }

  method ReverseDig(x: array<Cx>, n: nat, skip: nat, ghost bits: nat)
    requires n == Pow2(bits) && Fits(x.Length, n, skip)
    modifies x
    ensures View(x[..], n, skip) == Reversed(bits, View(old(x[..]), n, skip))
    ensures SameOffLattice(old(x[..]), x[..], n, skip)
  {
    hide View, SameOffLattice, Rev;
    ghost var before := View(x[..], n, skip);
    SameRefl(x[..], n, skip);
    var j := 0;
    RevZero(bits);
    assert SwappedBelow(bits, before, before, 0) by { SwapNone(bits, before); }
    for i := 0 to n - 1
      invariant j == Rev(bits, i) < n
      invariant SwappedBelow(bits, before, View(x[..], n, skip), i)
      invariant SameOffLattice(old(x[..]), x[..], n, skip)
    {
      ghost var now := View(x[..], n, skip);
      ghost var cells := x[..];
      ViewAt(x[..], n, skip, i);
      ViewAt(x[..], n, skip, j);
      if i < j {
        var jj := j * skip;
        var ii := i * skip;
        ViewUpdatePair(x[..], n, skip, j, i, x[ii], x[jj], x[..][jj := x[ii]][ii := x[jj]]);
        SameTrans(old(x[..]), cells, cells[jj := x[ii]][ii := x[jj]], n, skip);
        var tmp := x[jj];
        x[jj] := x[ii];
        x[ii] := tmp;
        assert x[..] == cells[jj := cells[ii]][ii := cells[jj]];
      }
      SwapStep(bits, before, now, i, View(x[..], n, skip));
      j := RippleCarry(bits, i, n, j);
    }
    SwapDone(bits, before, View(x[..], n, skip), n - 1);
  }

  lemma SameRefl(x: seq<Cx>, n: nat, skip: nat)
    requires skip > 0
    ensures SameOffLattice(x, x, n, skip)
  {
  }

  lemma SwapNone(bits: nat, s: seq<Cx>)
    requires |s| == Pow2(bits)
    ensures SwappedBelow(bits, s, s, 0)
  {
  }

  /** One butterfly: the sum goes to the first cell, the twiddled difference to the second. */
  method Butterfly(x: array<Cx>, i: nat, p: nat, c: real, s: real)
    requires i < p < x.Length
    modifies x
    ensures x[..] == old(x[..])[i := Add(old(x[i]), old(x[p]))][p := Mul(Sub(old(x[i]), old(x[p])), Cx(c, s))]
  {
    var rtmp := x[i].re - x[p].re;
    x[i] := x[i].(re := x[i].re + x[p].re);
    var itmp := x[i].im - x[p].im;
    x[i] := x[i].(im := x[i].im + x[p].im);
    x[p] := x[p].(re := c * rtmp - s * itmp);
    x[p] := x[p].(im := c * itmp + s * rtmp);
    ghost var d := Sub(old(x[i]), old(x[p]));
    assert x[i] == Add(old(x[i]), old(x[p]));
    assert x[p] == Cx(c * d.re - s * d.im, c * d.im + s * d.re) == Mul(d, Cx(c, s));
  }

  /** All butterflies of one pass: m blocks of twice n2 samples. */
  method Pass(x: array<Cx>, n: nat, dilate: nat, skip: nat, ex: seq<Cx>, m: nat, n2: nat)
    requires n == m * (2 * n2) && Fits(x.Length, n, skip) && |ex| > 0 && n * dilate == |ex|
    modifies x
    ensures Passed(View(old(x[..]), n, skip), View(x[..], n, skip), m, n2, Twiddled(ex, m * dilate))
    ensures SameOffLattice(old(x[..]), x[..], n, skip)
  {
    assert skip > 0;
    hide *;
    ghost var s0 := View(x[..], n, skip);
    var n1 := 2 * n2;
    SameRefl(x[..], n, skip);
    ghost var f := Twiddled(ex, m * dilate);
    PartialStart(s0, m, n2, f);
    var q := 0;
    for j := 0 to n2
      invariant q == j * (m * dilate)
      invariant Partial(s0, View(x[..], n, skip), m, n2, f, j, 0)
      invariant SameOffLattice(old(x[..]), x[..], n, skip)
    {
      TwiddleIndex(j, m, n2, dilate, ex);
      var c, s := ex[q].re, ex[q].im;
      q := q + m * dilate;
      var k := j;
      ghost var t: nat := 0;
      AtNext(0, j, n1);
      while k < n
        invariant t <= m && k == At(t, j, n1)
        invariant Partial(s0, View(x[..], n, skip), m, n2, f, j, t)
        invariant SameOffLattice(old(x[..]), x[..], n, skip)
        decreases m - t
      {
        ghost var cells := x[..];
        PairInRange(t, j, m, n2, n);
        ViewAt(cells, n, skip, k);
        ViewAt(cells, n, skip, k + n2);
        DistinctCells(k, n2, skip);
        Butterfly(x, k * skip, (k + n2) * skip, c, s);
        PairDone(s0, cells, x[..], n, skip, m, n2, ex, m * dilate, j, t, k, Cx(c, s));
        SameTrans(old(x[..]), cells, x[..], n, skip);
        AtNext(t, j, n1);
        k := k + n1;
        t := t + 1;
      }
      LastBlock(t, j, m, n1, n);
      PartialNextOffset(s0, View(x[..], n, skip), m, n2, f, j);
    }
    PartialDone(s0, View(x[..], n, skip), m, n2, f);
  }

  lemma PairDone(s0: seq<Cx>, x: seq<Cx>, y: seq<Cx>, n: nat, skip: nat, m: nat, h: nat, ex: seq<Cx>, d: nat,
                 j: nat, t: nat, k: nat, w: Cx)
    requires |ex| > 0 && Fits(|x|, n, skip) && k * skip < |x| && k + h < n && (k + h) * skip < |x|
    requires Partial(s0, View(x, n, skip), m, h, Twiddled(ex, d), j, t) && j < h && t < m
    requires k == At(t, j, 2 * h) && w == W(ex, j * d)
    requires y == x[k * skip := Add(x[k * skip], x[(k + h) * skip])]
                   [(k + h) * skip := Mul(Sub(x[k * skip], x[(k + h) * skip]), w)]
    ensures Partial(s0, View(y, n, skip), m, h, Twiddled(ex, d), j, t + 1)
    ensures SameOffLattice(x, y, n, skip)
  {
    hide View, Add, Mul, Sub, W, Partial, SameOffLattice, At;
    ViewAt(x, n, skip, k);
    ViewAt(x, n, skip, k + h);
    ViewUpdatePair(x, n, skip, k, k + h, Add(x[k * skip], x[(k + h) * skip]),
                   Mul(Sub(x[k * skip], x[(k + h) * skip]), w), y);
    PartialStep(s0, View(x, n, skip), m, h, Twiddled(ex, d), j, t, k, k + h, View(y, n, skip));
  }

  /** Radix-2 passes in place; the result is the transform in bit-reversed order. */
  method FFT2raw(x: array<Cx>, n: nat, dilate: nat, skip: nat, ex: seq<Cx>, ghost bits: nat)
    requires n == Pow2(bits) && Fits(x.Length, n, skip)
    requires RootTable(ex) && n * dilate == |ex|
    modifies x
    ensures Reversed(bits, View(x[..], n, skip)) == Transform(View(old(x[..]), n, skip), ex, dilate)
    ensures SameOffLattice(old(x[..]), x[..], n, skip)
  {
    assert skip > 0 && |ex| > 0;
    hide *;
    ghost var before := View(x[..], n, skip);
    SameRefl(x[..], n, skip);
    ReducedStart(before, ex, dilate);
    var m, n2 := 1, n;
    ghost var level: nat := 0;
    LevelZero(bits);
    while m < n
      invariant m == Pow2(level) && level <= bits && n2 == Pow2(bits - level) && n == m * n2
      invariant Reduced(before, View(x[..], n, skip), ex, dilate, level, n2)
      invariant SameOffLattice(old(x[..]), x[..], n, skip)
      decreases bits - level
    {
      ghost var cells := x[..];
      PassSizes(bits, level, n, m, n2);
      n2 := n2 / 2;
      Pass(x, n, dilate, skip, ex, m, n2);
      SameTrans(old(x[..]), cells, x[..], n, skip);
      ReducedPass(before, View(cells, n, skip), View(x[..], n, skip), ex, dilate, level, n2);
      m := m * 2;
      level := level + 1;
    }
    LastLevel(bits, level, n, m);
    ReducedDone(before, View(x[..], n, skip), ex, dilate, level);
  }

  lemma LevelZero(bits: nat)
    ensures Pow2(0) == 1
  {
  }

  lemma PassSizes(bits: nat, level: nat, n: nat, m: nat, n2: nat)
    requires level <= bits && m == Pow2(level) && n2 == Pow2(bits - level) && n == Pow2(bits) && m < n == m * n2
    ensures level < bits && n2 % 2 == 0 && n2 / 2 == Pow2(bits - (level + 1)) && 2 * (n2 / 2) == n2
    ensures n == (m * 2) * (n2 / 2) == m * (2 * (n2 / 2)) && m * 2 == Pow2(level + 1)
  {
  }

  lemma LastLevel(bits: nat, level: nat, n: nat, m: nat)
    requires level <= bits && m == Pow2(level) && n == Pow2(bits) && m >= n
    ensures level == bits && Pow2(bits - level) == 1
  {
    if level < bits { Pow2Monotone(level, bits); }
  }

  lemma TwiddleIndex(j: nat, m: nat, h: nat, d: nat, ex: seq<Cx>)
    requires j < h && (m * (2 * h)) * d == |ex| && |ex| > 0
    ensures j * (m * d) < |ex| && ex[j * (m * d)] == W(ex, j * (m * d))
    ensures (j + 1) * (m * d) == j * (m * d) + m * d
  {
    assert (m * (2 * h)) * d == (2 * h) * (m * d);
    MulGap(m * d, 2 * h, j);
    DivMod(j * (m * d), 0, j * (m * d), |ex|);
  }

  lemma DistinctCells(k: nat, h: nat, skip: nat)
    requires skip > 0 && h > 0
    ensures k * skip < (k + h) * skip
  {
    MulGap(skip, k + h, k);
  }

  /** Forward transform in place and in order. */
  method FFT2(x: array<Cx>, n: nat, skip: nat, ex: seq<Cx>, ghost bits: nat)
    requires n == Pow2(bits) && Fits(x.Length, n, skip)
    requires RootTable(ex) && n == |ex|
    modifies x
    ensures View(x[..], n, skip) == Transform(View(old(x[..]), n, skip), ex, 1)
    ensures SameOffLattice(old(x[..]), x[..], n, skip)
  {
    hide View;
    FFT2raw(x, n, 1, skip, ex, bits);
    ReverseDig(x, n, skip, bits);
  }
}
