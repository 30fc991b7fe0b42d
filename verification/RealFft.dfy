/** The transform of n real samples through a complex transform of half the size. */
module RealFft {
  import opened Arith
  import opened Complex
  import opened BitReversal
  import opened Dft
  import opened Fft

  const I := Cx(0.0, 1.0)

  /** Tables for real data also know the quarter turn and that conjugates are inverses. */
  ghost predicate RealRootTable(ex: seq<Cx>) {
    && |ex| > 0
    && RootTable(ex)
    && |ex| % 4 == 0
    && ex[|ex| / 4] == Cx(0.0, -1.0)
    && forall a :: 0 <= a < |ex| ==> ex[(|ex| - a) % |ex|] == Conj(ex[a])
  }

  lemma RealRoots(ex: seq<Cx>)
    requires RealRootTable(ex)
    ensures |ex| > 0 && |ex| % 4 == 0 && RootTable(ex)
  {
  }

  lemma WConj(ex: seq<Cx>, a: int)
    requires RealRootTable(ex)
    ensures W(ex, -a) == Conj(W(ex, a))
  {
    var n := |ex|;
    var b := a % n;
    if b == 0 {
      DivMod(-a, -(a / n), 0, n);
      assert ex[(n - 0) % n] == Conj(ex[0]);
    } else {
      DivMod(-a, -(a / n) - 1, n - b, n);
      DivMod(n - b, 0, n - b, n);
    }
  }

  /** Two real samples per complex cell. */
  function Pack(r: seq<real>): (z: seq<Cx>)
    requires |r| % 2 == 0
    ensures |z| == |r| / 2
  {
    seq(|r| / 2, k requires 0 <= k < |r| / 2 => Cx(r[2 * k], r[2 * k + 1]))
  }

  /** The first cells hold samples two by two. */
  predicate Packs(x: seq<Cx>, r: seq<real>) { |r| % 2 == 0 && |r| / 2 <= |x| && x[..|r| / 2] == Pack(r) }

  function Embed(r: seq<real>): (z: seq<Cx>)
    ensures |z| == |r|
  {
    seq(|r|, k requires 0 <= k < |r| => Cx(r[k], 0.0))
  }

  /** The weights of the two half-size bins in a full-size bin; sign is 1 forward and -1 backward. */
  function WeightS(w: Cx, sign: real): Cx { Cx((1.0 + w.im) / 2.0, -sign * w.re / 2.0) }

  function WeightT(w: Cx, sign: real): Cx {
    var s := WeightS(w, sign);
    Cx(1.0 - s.re, -s.im)
  }

  /** Full-size bin j out of the half-size transform z, whose last cell repeats the first. */
  function Unpacked(z: seq<Cx>, ex: seq<Cx>, sign: real, j: nat): Cx
    requires j < |z| <= |ex|
  {
    Add(Mul(z[j], WeightS(ex[j], sign)), Mul(Conj(z[|z| - 1 - j]), WeightT(ex[j], sign)))
  }

  /** Combine mirrored cells pairwise, in place. */
  method Realspacked(x: array<Cx>, n: nat, sign: real, ex: seq<Cx>)
    requires RealRootTable(ex) && n == |ex| && n / 2 < x.Length && (sign == 1.0 || sign == -1.0)
    modifies x
    ensures var half := n / 2;
      var z := if sign == 1.0 then old(x[..half]) + [old(x[0])] else old(x[..half + 1]);
      forall j :: 0 <= j <= half ==> x[j] == Unpacked(z, ex, sign, j)
    ensures x[n / 2 + 1..] == old(x[n / 2 + 1..])
  {
    hide *;
    RealRoots(ex);
    var half := n / 2;
    var quarter := half / 2;
    if sign == 1.0 { x[half] := x[0]; }
    ghost var z := x[..half + 1];
    assert z == if sign == 1.0 then old(x[..half]) + [old(x[0])] else old(x[..half + 1]);
    assert UnpackedBelow(z, z, ex, sign, 0) by { NoneUnpacked(z, ex, sign); }
    for m := 0 to quarter + 1
      invariant UnpackedBelow(z, x[..half + 1], ex, sign, m)
      invariant x[half + 1..] == old(x[half + 1..])
    {
      UnpackPair(z, x[..half + 1], ex, sign, half, m);
      var s, t := WeightS(ex[m], sign), WeightT(ex[m], sign);
      var a, b := Mul(x[m], s), Mul(Conj(x[half - m]), t);
      b := Add(b, a);
      a := Conj(x[m]);
      x[m] := b;
      b := x[half - m];
      a := Mul(a, Conj(t));
      b := Mul(b, Conj(s));
      b := Add(b, a);
      x[half - m] := b;
    }
    AllUnpackedBelow(z, x[..half + 1], ex, sign, half, quarter + 1);
  }

  /** Mirrored pairs (j, half - j) with j below m hold full-size bins; the rest is untouched. */
  ghost predicate UnpackedBelow(z: seq<Cx>, x: seq<Cx>, ex: seq<Cx>, sign: real, m: nat) {
    && |x| == |z| <= |ex|
    && forall j :: 0 <= j < |z| ==> x[j] == if j < m || |z| - 1 - j < m then Unpacked(z, ex, sign, j) else z[j]
  }

  lemma NoneUnpacked(z: seq<Cx>, ex: seq<Cx>, sign: real)
    requires |z| <= |ex|
    ensures UnpackedBelow(z, z, ex, sign, 0)
  {
  }

  lemma AllUnpackedBelow(z: seq<Cx>, x: seq<Cx>, ex: seq<Cx>, sign: real, half: nat, m: nat)
    requires UnpackedBelow(z, x, ex, sign, m) && |z| == half + 1 && m == half / 2 + 1
    ensures forall j :: 0 <= j <= half ==> x[j] == Unpacked(z, ex, sign, j)
  {
  }

  lemma UnpackPair(z: seq<Cx>, x: seq<Cx>, ex: seq<Cx>, sign: real, half: nat, m: nat)
    requires RealRootTable(ex) && |ex| == 2 * half && |z| == half + 1 && 2 * m <= half
    requires UnpackedBelow(z, x, ex, sign, m)
    ensures var s, t := WeightS(ex[m], sign), WeightT(ex[m], sign);
      var y := x[m := Add(Mul(Conj(x[half - m]), t), Mul(x[m], s))];
      UnpackedBelow(z, y[half - m := Add(Mul(y[half - m], Conj(s)), Mul(Conj(x[m]), Conj(t)))], ex, sign, m + 1)
  {
    hide RealRootTable, Mul, Add, Conj, WeightS, WeightT, Unpacked;
    Mirror(z, ex, sign, half, m);
  }

  /** What the loop body leaves in the mirrored pair (m, half - m), also when both are one cell. */
  lemma Mirror(z: seq<Cx>, ex: seq<Cx>, sign: real, half: nat, m: nat)
    requires RealRootTable(ex) && |ex| == 2 * half && |z| == half + 1 && 2 * m <= half
    ensures var s, t := WeightS(ex[m], sign), WeightT(ex[m], sign);
      var first := Add(Mul(Conj(z[half - m]), t), Mul(z[m], s));
      var other := if 2 * m == half then first else z[half - m];
      first == Unpacked(z, ex, sign, m)
      && Add(Mul(other, Conj(s)), Mul(Conj(z[m]), Conj(t))) == Unpacked(z, ex, sign, half - m)
  {
    HalfTurn(ex, half, m);
    MirrorPair(z, ex, sign, half, m);
  }

  lemma MirrorPair(z: seq<Cx>, ex: seq<Cx>, sign: real, half: nat, m: nat)
    requires |ex| == 2 * half > 0 && |z| == half + 1 && 2 * m <= half
    requires ex[half - m] == Neg(Conj(ex[m])) && (2 * m == half ==> ex[m] == Cx(0.0, -1.0))
    ensures var s, t := WeightS(ex[m], sign), WeightT(ex[m], sign);
      var first := Add(Mul(Conj(z[half - m]), t), Mul(z[m], s));
      var other := if 2 * m == half then first else z[half - m];
      first == Unpacked(z, ex, sign, m)
      && Add(Mul(other, Conj(s)), Mul(Conj(z[m]), Conj(t))) == Unpacked(z, ex, sign, half - m)
  {
    hide Mul, WeightS, WeightT, Conj, Neg;
    MirrorWeights(ex[m], ex[half - m], sign);
    ConjTwice(z[half - m]);
    if 2 * m == half {
      QuarterWeights(ex[m], sign);
      AddZero(Conj(z[m]), z[m]);
      AddZero(Conj(z[m]), Conj(z[m]));
    }
  }

  lemma ConjTwice(a: Cx)
    ensures Conj(Conj(a)) == a
  {
  }

  lemma AddZero(a: Cx, b: Cx)
    ensures Add(Mul(a, ONE), Mul(b, ZERO)) == a == Add(Mul(b, ZERO), Mul(a, ONE))
  {
  }

  lemma MirrorWeights(w: Cx, v: Cx, sign: real)
    requires v == Neg(Conj(w))
    ensures WeightS(v, sign) == Conj(WeightS(w, sign)) && WeightT(v, sign) == Conj(WeightT(w, sign))
  {
  }

  lemma QuarterWeights(w: Cx, sign: real)
    requires w == Cx(0.0, -1.0)
    ensures WeightS(w, sign) == Conj(WeightS(w, sign)) == ZERO && WeightT(w, sign) == Conj(WeightT(w, sign)) == ONE
  {
  }

  lemma HalfTurn(ex: seq<Cx>, half: nat, m: nat)
    requires RealRootTable(ex) && |ex| == 2 * half && 2 * m <= half
    ensures ex[half - m] == Neg(Conj(ex[m]))
    ensures 2 * m == half ==> ex[m] == Cx(0.0, -1.0)
  {
    hide Mul, RootTable, W;
    WConj(ex, m);
    HalfTurnBack(ex, half, m);
    WIndex(ex, half - m);
    WIndex(ex, m);
  }

  lemma HalfTurnBack(ex: seq<Cx>, half: int, m: int)
    requires |ex| > 0 && RootTable(ex) && |ex| == 2 * half
    ensures W(ex, half - m) == Neg(W(ex, -m))
  {
    hide Mul, RootTable, W;
    WAdd(ex, half, -m);
    WHalf(ex, half);
    MulNeg(ONE, W(ex, -m));
    MulOne(W(ex, -m));
  }

  /** The even and the odd samples, each transformed at half size. */
  function EvenBin(r: seq<real>, ex: seq<Cx>, j: int): Cx
    requires |r| % 2 == 0 && |ex| > 0
  {
    Sum(PartTerms(r, ex, j, 0))
  }

  function OddBin(r: seq<real>, ex: seq<Cx>, j: int): Cx
    requires |r| % 2 == 0 && |ex| > 0
  {
    Sum(PartTerms(r, ex, j, 1))
  }

  function PartTerms(r: seq<real>, ex: seq<Cx>, j: int, e: nat): (t: seq<Cx>)
    requires |r| % 2 == 0 && |ex| > 0 && e <= 1
    ensures |t| == |r| / 2
  {
    seq(|r| / 2, k requires 0 <= k < |r| / 2 => Mul(Cx(r[2 * k + e], 0.0), W(ex, j * k * 2)))
  }

  lemma PackedBin(r: seq<real>, ex: seq<Cx>, j: int)
    requires |r| % 2 == 0 && |ex| > 0
    ensures Bin(Pack(r), ex, 2, j) == Add(EvenBin(r, ex, j), Mul(OddBin(r, ex, j), I))
  {
    hide Mul, W;
    var t, e, o := Terms(Pack(r), ex, 2, j), PartTerms(r, ex, j, 0), PartTerms(r, ex, j, 1);
    var oi := seq(|o|, k requires 0 <= k < |o| => Mul(o[k], I));
    forall k | 0 <= k < |t| ensures t[k] == Add(e[k], oi[k]) {
      PackedTerm(r[2 * k], r[2 * k + 1], W(ex, j * k * 2));
    }
    SumMul(o, I, oi);
    SumZip(e, oi, t);
  }

  lemma PackedTerm(a: real, b: real, w: Cx)
    ensures Mul(Cx(a, b), w) == Add(Mul(Cx(a, 0.0), w), Mul(Mul(Cx(b, 0.0), w), I))
  {
  }

  lemma PackedMirrorBin(r: seq<real>, ex: seq<Cx>, j: int)
    requires |r| % 2 == 0 && RealRootTable(ex) && |r| == |ex|
    ensures Conj(Bin(Pack(r), ex, 2, |r| / 2 - j)) == Sub(EvenBin(r, ex, j), Mul(OddBin(r, ex, j), I))
  {
    hide Mul, W, RootTable;
    var t, e, o := Terms(Pack(r), ex, 2, |r| / 2 - j), PartTerms(r, ex, j, 0), PartTerms(r, ex, j, 1);
    var c := seq(|t|, k requires 0 <= k < |t| => Conj(t[k]));
    var oi := seq(|o|, k requires 0 <= k < |o| => Mul(o[k], Neg(I)));
    forall k | 0 <= k < |t| ensures c[k] == Add(e[k], oi[k]) {
      MirrorTerm(r[2 * k], r[2 * k + 1], ex, |r| / 2, j, k);
    }
    SumConj(t, c);
    SumMul(o, Neg(I), oi);
    SumZip(e, oi, c);
    MulNeg(OddBin(r, ex, j), I);
  }

  lemma MirrorTerm(a: real, b: real, ex: seq<Cx>, half: nat, j: int, k: int)
    requires RealRootTable(ex) && |ex| == 2 * half && half > 0
    ensures Conj(Mul(Cx(a, b), W(ex, (half - j) * k * 2)))
         == Add(Mul(Cx(a, 0.0), W(ex, j * k * 2)), Mul(Mul(Cx(b, 0.0), W(ex, j * k * 2)), Neg(I)))
  {
    hide RealRootTable, RootTable, Mul, W;
    RealRoots(ex);
    TurnBack(half, j, k);
    WConj(ex, (half - j) * k * 2);
    WPeriod(ex, j * k * 2, -k);
    MirrorAlgebra(a, b, W(ex, (half - j) * k * 2), W(ex, j * k * 2));
  }

  lemma TurnBack(half: int, j: int, k: int)
    ensures -((half - j) * k * 2) == j * k * 2 + (2 * half) * (-k)
  {
    assert (half - j) * k == half * k - j * k;
    assert (2 * half) * (-k) == -(2 * (half * k));
  }

  lemma MirrorAlgebra(a: real, b: real, v: Cx, w: Cx)
    requires w == Conj(v)
    ensures Conj(Mul(Cx(a, b), v)) == Add(Mul(Cx(a, 0.0), w), Mul(Mul(Cx(b, 0.0), w), Neg(I)))
  {
  }

  lemma RealBin(r: seq<real>, ex: seq<Cx>, j: int)
    requires |r| % 2 == 0 && |ex| > 0 && RootTable(ex) && |r| == |ex|
    ensures Bin(Embed(r), ex, 1, j) == Add(EvenBin(r, ex, j), Mul(OddBin(r, ex, j), W(ex, j)))
  {
    hide Mul, RootTable, W;
    var t, e, o := Terms(Embed(r), ex, 1, j), PartTerms(r, ex, j, 0), PartTerms(r, ex, j, 1);
    var ow := seq(|o|, k requires 0 <= k < |o| => Mul(o[k], W(ex, j)));
    forall k | 0 <= k < |e| ensures t[2 * k] == e[k] && t[2 * k + 1] == ow[k] {
      RealTerm(ex, j, k, Cx(r[2 * k + 1], 0.0));
    }
    SumMul(o, W(ex, j), ow);
    SumInterleave(e, ow, t);
  }

  lemma RealTerm(ex: seq<Cx>, j: int, k: int, a: Cx)
    requires |ex| > 0 && RootTable(ex)
    ensures j * (2 * k) * 1 == j * k * 2
    ensures Mul(a, W(ex, j * (2 * k + 1) * 1)) == Mul(Mul(a, W(ex, j * k * 2)), W(ex, j))
  {
    hide Mul, RootTable, W;
    assert j * (2 * k + 1) * 1 == j * k * 2 + j;
    WAdd(ex, j * k * 2, j);
    MulAssoc(a, W(ex, j * k * 2), W(ex, j));
  }

  /** The unpacking weights rebuild a full-size bin from two half-size ones. */
  lemma UnpackedBin(r: seq<real>, z: seq<Cx>, ex: seq<Cx>, j: nat)
    requires |r| == |ex| > 0 && |r| % 2 == 0 && j < |z| == |r| / 2 + 1
    requires z[j] == Bin(Pack(r), ex, 2, j) && z[|r| / 2 - j] == Bin(Pack(r), ex, 2, |r| / 2 - j)
    requires RealRootTable(ex)
    ensures Unpacked(z, ex, 1.0, j) == Bin(Embed(r), ex, 1, j)
  {
    hide Bin, EvenBin, OddBin, RootTable, RealRootTable, Mul, Add, Sub, W, WeightS, WeightT;
    RealRoots(ex);
    PackedBin(r, ex, j);
    PackedMirrorBin(r, ex, j);
    RealBin(r, ex, j);
    WIndex(ex, j);
    UnpackAlgebra(EvenBin(r, ex, j), OddBin(r, ex, j), ex[j]);
  }

  lemma UnpackAlgebra(e: Cx, o: Cx, w: Cx)
    ensures Add(Mul(Add(e, Mul(o, I)), WeightS(w, 1.0)), Mul(Sub(e, Mul(o, I)), WeightT(w, 1.0)))
         == Add(e, Mul(o, w))
  {
    ForwardWeightGap(w);
    hide Mul, WeightS, WeightT;
    WeightMix(e, Mul(o, I), WeightS(w, 1.0), WeightT(w, 1.0));
    MulAssoc(o, I, Sub(WeightS(w, 1.0), WeightT(w, 1.0)));
  }

  lemma ForwardWeightGap(w: Cx)
    ensures Add(WeightS(w, 1.0), WeightT(w, 1.0)) == ONE
    ensures Mul(I, Sub(WeightS(w, 1.0), WeightT(w, 1.0))) == w
  {
  }

  lemma WeightMix(e: Cx, p: Cx, s: Cx, t: Cx)
    requires Add(s, t) == ONE
    ensures Add(Mul(Add(e, p), s), Mul(Sub(e, p), t)) == Add(e, Mul(p, Sub(s, t)))
  {
    hide Mul;
    MulAdd(e, p, s);
    MulAdd(e, p, t);
    MulComm(e, s);
    MulComm(e, t);
    MulAdd(s, t, e);
    MulOne(e);
    MulComm(p, s);
    MulComm(p, t);
    MulAdd(s, t, p);
    MulComm(p, Sub(s, t));
  }

  lemma HalfSizePeriod(z: seq<Cx>, ex: seq<Cx>)
    requires |ex| > 0 && RootTable(ex) && 2 * |z| == |ex|
    ensures Bin(z, ex, 2, |z|) == Bin(z, ex, 2, 0)
  {
    hide Mul, RootTable;
    var t, u := Terms(z, ex, 2, |z|), Terms(z, ex, 2, 0);
    forall k | 0 <= k < |z| ensures t[k] == u[k] {
      assert |z| * k * 2 == 0 * k * 2 + |ex| * k;
      WPeriod(ex, 0 * k * 2, k);
    }
    assert t == u;
  }

  /** The packed passes and the packed reordering, on the first n cells. */
  method PackedTransform(x: array<Cx>, n: nat, dilate: nat, ex: seq<Cx>, ghost bits: nat)
    requires n == Pow2(bits) && n <= x.Length
    requires RootTable(ex) && n * dilate == |ex|
    modifies x
    ensures |ex| > 0 && x[..n] == Transform(old(x[..n]), ex, dilate)
    ensures x[n..] == old(x[n..])
  {
    assert |ex| > 0;
    hide *;
    Packed(x[..], x[..], n);
    FFT2raw(x, n, dilate, 1, ex, bits);
    ghost var mid := x[..];
    ReverseDig(x, n, 1, bits);
    SameTrans(old(x[..]), mid, x[..], n, 1);
    Packed(old(x[..]), x[..], n);
  }

  /** Forward transform of real samples, packed two per cell; leaves bins 0 to n/2. */
  method FFT2realpacked(x: array<Cx>, n: nat, ex: seq<Cx>, ghost bits: nat, ghost r: seq<real>)
    requires n == Pow2(bits) == |r|
    requires bits >= 2 ==> RealRootTable(ex) && n == |ex| && n / 2 < x.Length && Packs(x[..], r)
    modifies x
    ensures bits >= 2 ==> forall j :: 0 <= j <= n / 2 ==> x[j] == Bin(Embed(r), ex, 1, j)
    ensures bits >= 2 ==> x[n / 2 + 1..] == old(x[n / 2 + 1..])
    ensures bits < 2 ==> x[..] == old(x[..])
  {
    LargePow2(bits);
    assert bits >= 2 ==> |r| % 2 == 0 && x[..n / 2] == Pack(r);
    hide *;
    var half := n / 2;
    if half / 2 == 0 {
      return;
    }
    RealRoots(ex);
    HalfPow2(bits);
    PackedTransform(x, half, 2, ex, bits - 1);
    AllUnpacked(r, x[..half], ex);
    Realspacked(x, n, 1.0, ex);
  }

  lemma LargePow2(bits: nat)
    ensures (Pow2(bits) >= 4 <==> bits >= 2) && Pow2(bits) > 0
  {
    if bits >= 2 { assert Pow2(bits) == 4 * Pow2(bits - 2); }
  }

  lemma HalfPow2(bits: nat)
    requires bits >= 2
    ensures Pow2(bits) / 2 == Pow2(bits - 1) && Pow2(bits) % 4 == 0 && Pow2(bits) > 0
  {
    var p := Pow2(bits - 2);
    assert Pow2(bits) == 4 * p && Pow2(bits - 1) == 2 * p;
  }

  lemma AllUnpacked(r: seq<real>, y: seq<Cx>, ex: seq<Cx>)
    requires |r| == |ex| > 0 && |r| % 2 == 0 && y == Transform(Pack(r), ex, 2) != []
    requires RealRootTable(ex)
    ensures forall j :: 0 <= j <= |y| ==> Unpacked(y + [y[0]], ex, 1.0, j) == Bin(Embed(r), ex, 1, j)
  {
    hide Bin, RootTable, RealRootTable, Unpacked;
    RealRoots(ex);
    var z := y + [y[0]];
    HalfSizePeriod(Pack(r), ex);
    forall j | 0 <= j <= |y| ensures Unpacked(z, ex, 1.0, j) == Bin(Embed(r), ex, 1, j) {
      UnpackedBin(r, z, ex, j);
    }
  }

  lemma Packed(x: seq<Cx>, y: seq<Cx>, n: nat)
    requires n <= |x| == |y|
    ensures View(x, n, 1) == x[..n] && View(y, n, 1) == y[..n] && Fits(|x|, n, 1)
    ensures SameOffLattice(x, y, n, 1) ==> x[n..] == y[n..]
  {
    if SameOffLattice(x, y, n, 1) {
      forall c | n <= c < |x| ensures x[c] == y[c] {
        assert !OnLattice(c, n, 1);
      }
    }
  }
}
