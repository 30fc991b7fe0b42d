/** The transform is undone by conjugating, transforming again and conjugating,
    and the packed real transform is undone by its converse. */
module InverseFft {
  import opened Complex
  import opened BitReversal
  import opened Dft
  import opened RealFft

  function Conjugated(s: seq<Cx>): (r: seq<Cx>)
    ensures |r| == |s|
  {
    seq(|s|, i requires 0 <= i < |s| => Conj(s[i]))
  }

  /** The summands that gather sample k back from the bins y. */
  function BackTerms(y: seq<Cx>, ex: seq<Cx>, d: nat, k: int): (t: seq<Cx>)
    requires |ex| > 0
    ensures |t| == |y|
  {
    seq(|y|, j requires 0 <= j < |y| => Mul(y[j], W(ex, -(j * k * d))))
  }

  lemma HalfLength(bits: nat, z: seq<Cx>, d: nat, size: nat)
    requires |z| == Pow2(bits) && bits > 0 && |z| * d == size
    ensures |z| % 2 == 0 && |z| / 2 == Pow2(bits - 1) && (|z| / 2) * (2 * d) == size
  {
    assert |z| == 2 * Pow2(bits - 1);
    assert (2 * Pow2(bits - 1)) * d == Pow2(bits - 1) * (2 * d);
  }

  /** Gathering back gives every sample, multiplied by the length. */
  lemma {:induction false} GatherBack(bits: nat, z: seq<Cx>, ex: seq<Cx>, d: nat, k: nat)
    requires |ex| > 0 && |z| == Pow2(bits) && |z| * d == |ex| && k < |z|
    requires RootTable(ex)
    ensures Sum(BackTerms(Transform(z, ex, d), ex, d, k)) == Scaled(z[k], |z| as real)
    decreases bits
  {
    hide Bin, RootTable, W, Sum, Mul, Scaled;
    if bits == 0 {
      GatherSingle(z, ex, d);
    } else {
      HalfLength(bits, z, d, |ex|);
      var h := |z| / 2;
      var k' := if k < h then k else k - h;
      GatherBack(bits - 1, Evens(z), ex, 2 * d, k');
      GatherBack(bits - 1, Odds(z, ex, d), ex, 2 * d, k');
      BackSplit(z, ex, d, k, k');
      SplitSample(z, ex, d, k, k', h as real);
    }
  }

  lemma GatherSingle(z: seq<Cx>, ex: seq<Cx>, d: nat)
    requires |ex| > 0 && |z| == 1 && RootTable(ex)
    ensures Sum(BackTerms(Transform(z, ex, d), ex, d, 0)) == Scaled(z[0], 1.0)
  {
    var t := Terms(z, ex, d, 0);
    assert 0 * 0 * d == 0;
    assert t[0] == Mul(z[0], W(ex, 0 * 0 * d)) == z[0] by { MulOne(z[0]); }
    assert Sum(t) == Add(Sum(t[..0]), t[0]);
    var b := BackTerms(Transform(z, ex, d), ex, d, 0);
    assert b[0] == Mul(z[0], W(ex, -(0 * 0 * d))) == z[0] by { MulOne(z[0]); }
    assert Sum(b) == Add(Sum(b[..0]), b[0]);
  }

  /** Even bins gather the folded sums, odd bins the twiddled differences. */
  lemma BackSplit(z: seq<Cx>, ex: seq<Cx>, d: nat, k: nat, k': nat)
    requires |ex| > 0 && |z| % 2 == 0 && |z| * d == |ex| && (k == k' || k == k' + |z| / 2)
    requires RootTable(ex)
    ensures Sum(BackTerms(Transform(z, ex, d), ex, d, k))
         == Add(Sum(BackTerms(Transform(Evens(z), ex, 2 * d), ex, 2 * d, k')),
                Mul(Sum(BackTerms(Transform(Odds(z, ex, d), ex, 2 * d), ex, 2 * d, k')), W(ex, -(k * d))))
  {
    hide Bin, RootTable, W, Sum, Mul;
    var h := |z| / 2;
    var t := BackTerms(Transform(z, ex, d), ex, d, k);
    var e := BackTerms(Transform(Evens(z), ex, 2 * d), ex, 2 * d, k');
    var o := BackTerms(Transform(Odds(z, ex, d), ex, 2 * d), ex, 2 * d, k');
    var ow := seq(h, j requires 0 <= j < h => Mul(o[j], W(ex, -(k * d))));
    forall j | 0 <= j < h ensures t[2 * j] == e[j] && t[2 * j + 1] == ow[j] {
      SplitInFrequency(z, ex, d, j, false);
      SplitInFrequency(z, ex, d, j, true);
      BackTerm(ex, d, j, k, k', |z|, Bin(Odds(z, ex, d), ex, 2 * d, j));
    }
    SumMul(o, W(ex, -(k * d)), ow);
    SumInterleave(e, ow, t);
  }

  lemma BackTerm(ex: seq<Cx>, d: nat, j: nat, k: nat, k': nat, n: nat, a: Cx)
    requires |ex| > 0 && n % 2 == 0 && n * d == |ex| && (k == k' || k == k' + n / 2)
    requires RootTable(ex)
    ensures W(ex, -((2 * j) * k * d)) == W(ex, -(j * k' * (2 * d)))
    ensures Mul(a, W(ex, -((2 * j + 1) * k * d))) == Mul(Mul(a, W(ex, -(j * k' * (2 * d)))), W(ex, -(k * d)))
  {
    hide RootTable, W, Mul;
    BackExponents(d, j, k, k', n);
    if k != k' { WPeriod(ex, -(j * k' * (2 * d)), -(j as int)); }
    WAdd(ex, -((2 * j) * k * d), -(k * d));
    MulAssoc(a, W(ex, -(j * k' * (2 * d))), W(ex, -(k * d)));
  }

  lemma BackExponents(d: nat, j: nat, k: nat, k': nat, n: nat)
    requires n % 2 == 0 && (k == k' || k == k' + n / 2)
    ensures -((2 * j + 1) * k * d) == -((2 * j) * k * d) + -(k * d)
    ensures k == k' ==> -((2 * j) * k * d) == -(j * k' * (2 * d))
    ensures k != k' ==> -((2 * j) * k * d) == -(j * k' * (2 * d)) + (n * d) * -(j as int)
  {
    var h := n / 2;
    assert (2 * j + 1) * k * d == (2 * j) * k * d + k * d by { assert (2 * j + 1) * k == (2 * j) * k + k; }
    assert j * k' * (2 * d) == (2 * j) * k' * d by { assert j * k' * (2 * d) == 2 * (j * k' * d); }
    if k != k' {
      assert (2 * j) * (k' + h) == (2 * j) * k' + j * n;
      assert ((2 * j) * k' + j * n) * d == (2 * j) * k' * d + (n * d) * j;
    }
  }

  lemma SplitSample(z: seq<Cx>, ex: seq<Cx>, d: nat, k: nat, k': nat, c: real)
    requires |ex| > 0 && |z| % 2 == 0 && |z| * d == |ex| && k' < |z| / 2
    requires k == k' || k == k' + |z| / 2
    requires RootTable(ex)
    ensures Add(Scaled(Evens(z)[k'], c), Mul(Scaled(Odds(z, ex, d)[k'], c), W(ex, -(k * d))))
         == Scaled(z[k], 2.0 * c)
  {
    hide RootTable, W, Mul, Scaled;
    var h := |z| / 2;
    var a, b := z[k'], z[k' + h];
    var w, v := W(ex, k' * d), W(ex, -(k * d));
    assert 2 * (h * d) == |ex|;
    assert k != k' ==> k * d == k' * d + h * d;
    WInverse(ex, k' * d);
    if k == k' {
      GatherAlgebra(a, b, w, v, c);
    } else {
      WAdd(ex, -(k * d), h * d);
      WHalf(ex, h * d);
      WPeriod(ex, -(k * d), 1);
      WInverse(ex, h * d);
      GatherMirror(a, b, w, v, W(ex, -(k' * d)), c);
    }
  }

  lemma WInverse(ex: seq<Cx>, a: int)
    requires |ex| > 0 && RootTable(ex)
    ensures Mul(W(ex, a), W(ex, -a)) == ONE
  {
    hide Mul;
    WAdd(ex, a, -a);
    WTurn(ex, 0);
  }

  lemma GatherAlgebra(a: Cx, b: Cx, w: Cx, v: Cx, c: real)
    requires Mul(w, v) == ONE
    ensures Add(Scaled(Add(a, b), c), Mul(Scaled(Mul(Sub(a, b), w), c), v)) == Scaled(a, 2.0 * c)
  {
    hide Mul, Scaled;
    ScaledMul(Mul(Sub(a, b), w), v, c);
    MulAssoc(Sub(a, b), w, v);
    MulOne(Sub(a, b));
    ScaledSums(a, b, c);
  }

  lemma ScaledMul(a: Cx, v: Cx, c: real)
    ensures Mul(Scaled(a, c), v) == Scaled(Mul(a, v), c)
  {
  }

  lemma GatherMirror(a: Cx, b: Cx, w: Cx, v: Cx, u: Cx, c: real)
    requires Mul(w, u) == ONE && Mul(v, Neg(ONE)) == u
    ensures Add(Scaled(Add(a, b), c), Mul(Scaled(Mul(Sub(a, b), w), c), v)) == Scaled(b, 2.0 * c)
  {
    hide Mul, Scaled;
    ScaledMul(Mul(Sub(a, b), w), v, c);
    MulAssoc(Sub(a, b), w, v);
    MulNeg(v, ONE);
    MulOne(v);
    MulNeg(w, v);
    MulNeg(Sub(a, b), ONE);
    MulOne(Sub(a, b));
    ScaledSums(a, b, c);
  }

  lemma ScaledSums(a: Cx, b: Cx, c: real)
    ensures Add(Scaled(Add(a, b), c), Scaled(Sub(a, b), c)) == Scaled(a, 2.0 * c)
    ensures Add(Scaled(Add(a, b), c), Scaled(Neg(Sub(a, b)), c)) == Scaled(b, 2.0 * c)
  {
  }

  /** Transforming, conjugating, transforming and conjugating again multiplies by the length. */
  lemma ConjugateInverts(bits: nat, z: seq<Cx>, ex: seq<Cx>, d: nat, k: nat)
    requires |ex| > 0 && |z| == Pow2(bits) && |z| * d == |ex| && k < |z|
    requires RealRootTable(ex)
    ensures Conj(Bin(Conjugated(Transform(z, ex, d)), ex, d, k)) == Scaled(z[k], |z| as real)
  {
    hide RealRootTable, RootTable, Mul, W, Sum, Bin, Scaled;
    RealRoots(ex);
    var y := Transform(z, ex, d);
    var t, b := Terms(Conjugated(y), ex, d, k), BackTerms(y, ex, d, k);
    forall j | 0 <= j < |y| ensures b[j] == Conj(t[j]) {
      assert j * k * d == k * j * d;
      WConj(ex, j * k * d);
      MulConj(Conj(y[j]), W(ex, k * j * d));
    }
    SumConj(t, b);
    BinSum(Conjugated(y), ex, d, k);
    GatherBack(bits, z, ex, d, k);
  }

  lemma BinSum(x: seq<Cx>, ex: seq<Cx>, d: nat, j: int)
    requires |ex| > 0
    ensures Bin(x, ex, d, j) == Sum(Terms(x, ex, d, j))
  {
  }

  /** Repacking a spectrum of real samples gives back the half-size transform. */
  lemma RepackedBin(r: seq<real>, x: seq<Cx>, ex: seq<Cx>, j: nat)
    requires |r| == |ex| > 0 && |r| % 2 == 0 && j < |x| == |r| / 2 + 1
    requires x[j] == Bin(Embed(r), ex, 1, j) && x[|r| / 2 - j] == Bin(Embed(r), ex, 1, |r| / 2 - j)
    requires RealRootTable(ex)
    ensures Unpacked(x, ex, -1.0, j) == Bin(Pack(r), ex, 2, j)
  {
    hide Bin, EvenBin, OddBin, RootTable, RealRootTable, Mul, Add, Sub, Neg, W, WeightS, WeightT;
    RealRoots(ex);
    var m: int := |r| / 2 - j;
    PackedBin(r, ex, j);
    PackedBin(r, ex, m);
    PackedMirrorBin(r, ex, j);
    PackedMirrorBin(r, ex, m);
    RealBin(r, ex, j);
    RealBin(r, ex, m);
    HalfTurnBack(ex, |r| / 2, j);
    WConj(ex, j);
    WInverse(ex, j);
    WIndex(ex, j);
    RepackAlgebra(EvenBin(r, ex, j), OddBin(r, ex, j), EvenBin(r, ex, m), OddBin(r, ex, m), W(ex, j), W(ex, m));
  }

  lemma RepackAlgebra(e: Cx, o: Cx, em: Cx, om: Cx, w: Cx, wm: Cx)
    requires Conj(Add(em, Mul(om, I))) == Sub(e, Mul(o, I)) && Conj(Add(e, Mul(o, I))) == Sub(em, Mul(om, I))
    requires wm == Neg(Conj(w)) && Mul(w, Conj(w)) == ONE
    ensures Add(Mul(Add(e, Mul(o, w)), WeightS(w, -1.0)), Mul(Conj(Add(em, Mul(om, wm))), WeightT(w, -1.0)))
         == Add(e, Mul(o, I))
  {
    MirrorSplit(e, o, em, om);
    MirrorBins(em, om, w, wm);
    hide Mul;
    var p := Mul(o, w);
    WeightMix(e, p, WeightS(w, -1.0), WeightT(w, -1.0));
    WeightGap(w);
    MulAssoc(o, w, Mul(Conj(w), I));
    MulAssoc(w, Conj(w), I);
    MulOne(I);
  }

  lemma MirrorSplit(e: Cx, o: Cx, em: Cx, om: Cx)
    requires Conj(Add(em, Mul(om, I))) == Sub(e, Mul(o, I)) && Conj(Add(e, Mul(o, I))) == Sub(em, Mul(om, I))
    ensures e == Conj(em) && o == Conj(om)
  {
  }

  lemma MirrorBins(em: Cx, om: Cx, w: Cx, wm: Cx)
    requires wm == Neg(Conj(w))
    ensures Conj(Add(em, Mul(om, wm))) == Sub(Conj(em), Mul(Conj(om), w))
  {
  }

  lemma WeightGap(w: Cx)
    ensures Add(WeightS(w, -1.0), WeightT(w, -1.0)) == ONE
    ensures Sub(WeightS(w, -1.0), WeightT(w, -1.0)) == Mul(Conj(w), I)
  {
  }

  /** Conjugate and scale the first cells. */
  method ConjScale(x: array<Cx>, len: nat, scale: real)
    requires len <= x.Length
    modifies x
    ensures forall i :: 0 <= i < len ==> x[i] == Scaled(Conj(old(x[i])), scale)
    ensures x[len..] == old(x[len..])
  {
    var miscale := -scale;
    for i := 0 to len
      invariant forall k :: 0 <= k < i ==> x[k] == Scaled(Conj(old(x[k])), scale)
      invariant forall k :: i <= k < x.Length ==> x[k] == old(x[k])
    {
      x[i] := x[i].(re := x[i].re * scale);
      x[i] := x[i].(im := x[i].im * miscale);
    }
  }

  function ScaledSamples(r: seq<real>, c: real): (s: seq<real>)
    ensures |s| == |r|
  {
    seq(|r|, i requires 0 <= i < |r| => c * r[i])
  }

  /** What forward and back together multiply samples by. */
  function Gain(n: nat, scale: real): real { n as real * scale }

  /** The converse of the packed real transform: from bins 0 to n/2 back to samples, times n and the scale. */
  method FFT2torlpacked(x: array<Cx>, n: nat, scale: real, ex: seq<Cx>, ghost bits: nat, ghost r: seq<real>)
    requires n == Pow2(bits) == |r|
    requires bits >= 2 ==> n == |ex| && n / 2 < x.Length && RealRootTable(ex)
    requires bits >= 2 ==> forall j :: 0 <= j <= n / 2 ==> x[j] == Bin(Embed(r), ex, 1, j)
    modifies x
    ensures bits >= 2 ==> Packs(x[..], ScaledSamples(r, Gain(n, scale)))
    ensures bits >= 2 ==> x[n / 2 + 1..] == old(x[n / 2 + 1..])
    ensures bits < 2 ==> x[..] == old(x[..])
  {
    hide *;
    var half := n / 2;
    LargePow2(bits);
    if half / 2 == 0 {
      return;
    }
    RealRoots(ex);
    HalfPow2(bits);
    AllRepacked(r, x[..half + 1], ex);
    Realspacked(x, n, -1.0, ex);
    ghost var y := x[..half];
    ConjScale(x, half + 1, 2.0 * scale);
    ghost var c := x[..half];
    PackedTransform(x, half, 2, ex, bits - 1);
    ghost var t := x[..half];
    Negate(x, half);
    Recovered(bits - 1, r, y, c, t, ex, scale);
    PacksIs(x[..], half, ScaledSamples(r, Gain(n, scale)));
  }

  lemma PacksIs(x: seq<Cx>, half: nat, r: seq<real>)
    requires |r| == 2 * half && half <= |x|
    ensures Packs(x, r) <==> |Pack(r)| == half && x[..half] == Pack(r)
  {
  }

  /** Conjugate the first cells. */
  method Negate(x: array<Cx>, half: nat)
    requires half <= x.Length
    modifies x
    ensures forall k :: 0 <= k < half ==> x[k] == Conj(old(x[k]))
    ensures x[half..] == old(x[half..])
  {
    for m := 0 to half
      invariant forall k :: 0 <= k < m ==> x[k] == Conj(old(x[k]))
      invariant forall k :: m <= k < x.Length ==> x[k] == old(x[k])
    {
      x[m] := x[m].(im := x[m].im * -1.0);
    }
  }

  lemma Recovered(bits: nat, r: seq<real>, y: seq<Cx>, c: seq<Cx>, t: seq<Cx>, ex: seq<Cx>, scale: real)
    requires |r| == |ex| > 0 && |r| % 2 == 0 && |r| / 2 == Pow2(bits) == |y|
    requires forall j :: 0 <= j < |y| ==> y[j] == Bin(Pack(r), ex, 2, j)
    requires |c| == |y| && forall j :: 0 <= j < |c| ==> c[j] == Scaled(Conj(y[j]), 2.0 * scale)
    requires t == Transform(c, ex, 2)
    requires RealRootTable(ex)
    ensures |t| == |Pack(ScaledSamples(r, Gain(|r|, scale)))|
    ensures forall k :: 0 <= k < |t| ==> Conj(t[k]) == Pack(ScaledSamples(r, Gain(|r|, scale)))[k]
  {
    hide RealRootTable, RootTable, Bin, Scaled, Pow2;
    assert y == Transform(Pack(r), ex, 2);
    forall k | 0 <= k < |t| ensures Conj(t[k]) == Pack(ScaledSamples(r, Gain(|r|, scale)))[k] {
      ConjugateInverts(bits, Pack(r), ex, 2, k);
      ScaledBin(Conjugated(y), c, ex, 2, k, 2.0 * scale);
      ScaledTwice(Bin(Conjugated(y), ex, 2, k), Pack(r)[k], scale, |y|);
    }
  }

  lemma ScaledBin(y: seq<Cx>, c: seq<Cx>, ex: seq<Cx>, d: nat, k: int, scale: real)
    requires |ex| > 0 && |c| == |y| && forall j :: 0 <= j < |c| ==> c[j] == Scaled(y[j], scale)
    ensures Bin(c, ex, d, k) == Scaled(Bin(y, ex, d, k), scale)
  {
    hide Mul, W, Scaled;
    var t, u := Terms(y, ex, d, k), Terms(c, ex, d, k);
    var w := Cx(scale, 0.0);
    forall j | 0 <= j < |u| ensures u[j] == Mul(t[j], w) {
      ScaledMul(y[j], W(ex, k * j * d), scale);
      ScaledAsMul(t[j], scale);
    }
    SumMul(t, w, u);
    ScaledAsMul(Sum(t), scale);
  }

  lemma ScaledAsMul(a: Cx, c: real)
    ensures Mul(a, Cx(c, 0.0)) == Scaled(a, c)
  {
  }

  lemma ScaledTwice(b: Cx, z: Cx, scale: real, half: nat)
    requires Conj(b) == Scaled(z, half as real)
    ensures Conj(Scaled(b, 2.0 * scale))
         == Cx((2 * half) as real * scale * z.re, (2 * half) as real * scale * z.im)
  {
    var h := half as real;
    assert b.re == h * z.re && -b.im == h * z.im;
    assert 2.0 * scale * (h * z.re) == 2.0 * h * scale * z.re;
    assert 2.0 * scale * (h * z.im) == 2.0 * h * scale * z.im;
    assert 2.0 * scale * b.im == -(2.0 * scale * -b.im);
  }

  lemma AllRepacked(r: seq<real>, x: seq<Cx>, ex: seq<Cx>)
    requires |r| == |ex| > 0 && |r| % 2 == 0 && |x| == |r| / 2 + 1
    requires forall j :: 0 <= j < |x| ==> x[j] == Bin(Embed(r), ex, 1, j)
    requires RealRootTable(ex)
    ensures forall j :: 0 <= j < |x| ==> Unpacked(x, ex, -1.0, j) == Bin(Pack(r), ex, 2, j)
  {
    hide Bin, RealRootTable, Unpacked;
    forall j | 0 <= j < |x| ensures Unpacked(x, ex, -1.0, j) == Bin(Pack(r), ex, 2, j) {
      RepackedBin(r, x, ex, j);
    }
  }

  /** Forward and back with scale 1/n leaves the packed samples as they were. */
  method RealRoundTrip(x: array<Cx>, n: nat, ex: seq<Cx>, ghost bits: nat, ghost r: seq<real>)
    requires n == Pow2(bits) == |r|
    requires bits >= 2 ==> n == |ex| && n / 2 < x.Length && Packs(x[..], r) && RealRootTable(ex)
    modifies x
    ensures bits >= 2 ==> x[..n / 2] == old(x[..n / 2])
    ensures bits >= 2 ==> x[n / 2 + 1..] == old(x[n / 2 + 1..])
    ensures bits < 2 ==> x[..] == old(x[..])
  {
    hide RealRootTable, Bin, Pow2;
    FFT2realpacked(x, n, ex, bits, r);
    LargePow2(bits);
    var scale := 1.0 / n as real;
    FFT2torlpacked(x, n, scale, ex, bits, r);
    if bits >= 2 { UnitGain(r, n, scale); }
  }

  lemma UnitGain(r: seq<real>, n: nat, scale: real)
    requires n > 0 && scale == 1.0 / n as real
    ensures ScaledSamples(r, Gain(n, scale)) == r
  {
    assert Gain(n, scale) == 1.0;
  }
}
