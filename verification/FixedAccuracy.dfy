/** The fixed-point transform stays within 5.25 units per pass of the exact transform divided by its length. */
module FixedAccuracy {
  import opened Complex
  import opened BitReversal
  import opened Dft
  import opened Decimation
  import opened Passes
  import opened Modulus
  import opened FixedPoint
  import opened FixedFft

  /** The sine table approximates the exact roots to two and a half units in the last place. */
  ghost predicate CloseTable(wave: seq<Fixed>, ex: seq<Cx>) {
    && |ex| == |wave| == N_WAVE
    && RootTable(ex)
    && (forall j :: 0 <= j < |ex| ==> Within(ex[j], 1.0))
    && forall j :: 0 <= j < N_WAVE / 2 ==>
         Within(Sub(Entry(wave[j] as int, wave[j + N_WAVE / 4] as int), ex[j]), 5.0 / 65536.0)
  }

  function Exact(x: seq<Fx>): (y: seq<Cx>)
    ensures |y| == |x|
  {
    seq(|x|, i requires 0 <= i < |x| => ToCx(x[i]))
  }

  /** After the passes, cell j of block b approximates mean bin j of the b-th decimation of x. */
  ghost predicate AccurateCell(x: seq<Cx>, y: seq<Fx>, ex: seq<Cx>, bits: nat, passes: nat, b: nat, j: nat)
    requires passes <= bits <= LOG2_N_WAVE && |ex| > 0
  {
    && At(b, j, Pow2(passes)) < |y|
    && Within(Sub(ToCx(y[At(b, j, Pow2(passes))]),
                  Mean(Decimated(x, bits - passes, b), ex, Pow2(LOG2_N_WAVE - passes), j)),
              5.25 * passes as real)
  }

  ghost predicate Accurate(x: seq<Cx>, y: seq<Fx>, ex: seq<Cx>, bits: nat, passes: nat)
    requires passes <= bits <= LOG2_N_WAVE && |ex| > 0
  {
    forall b, j :: 0 <= b < Pow2(bits - passes) && 0 <= j < Pow2(passes) ==>
      AccurateCell(x, y, ex, bits, passes, b, j)
  }

  lemma AccurateStart(x: seq<Fx>, ex: seq<Cx>, bits: nat)
    requires |x| == Pow2(bits) && bits <= LOG2_N_WAVE && |ex| > 0 && RootTable(ex)
    ensures Accurate(Exact(x), Reversed(bits, x), ex, bits, 0)
  {
    hide RootTable, Bin, Rev, Pow2;
    assert Pow2(0) == 1 by { SmallPow2(); }
    forall b, j | 0 <= b < Pow2(bits - 0) && 0 <= j < Pow2(0)
      ensures AccurateCell(Exact(x), Reversed(bits, x), ex, bits, 0, b, j)
    {
      DecimatedSingle(Exact(x), bits, b);
      SingleBin(Exact(x)[Rev(bits, b)], ex, Pow2(LOG2_N_WAVE));
      UnitScale(Exact(x)[Rev(bits, b)]);
    }
  }

  lemma SmallPow2()
    ensures Pow2(0) == 1
  {
  }

  lemma UnitScale(a: Cx)
    ensures Scaled(a, 1.0 / 1.0) == a && Within(Sub(a, a), 0.0)
  {
  }

  lemma AccuratePass(wave: seq<Fixed>, x: seq<Cx>, y: seq<Fx>, ex: seq<Cx>, bits: nat, passes: nat)
    requires |ex| == |wave| == N_WAVE && 0 < passes <= bits <= LOG2_N_WAVE && |x| == |y| == Pow2(bits)
    requires CloseTable(wave, ex)
    requires Accurate(x, y, ex, bits, passes - 1) && AllWithin(y, 32768.0)
    requires |y| % (2 * Pow2(passes - 1)) == 0
    ensures Accurate(x, PassOf(y, Pow2(passes - 1), FixStep(wave, Pow2(LOG2_N_WAVE - passes))), ex, bits, passes)
  {
    hide RootTable, CloseTable, FixStep, PassOf, AccurateCell, AllWithin;
    var h, d := Pow2(passes - 1), Pow2(LOG2_N_WAVE - passes);
    var f := FixStep(wave, d);
    var z := PassOf(y, h, f);
    BlocksFit(bits, passes);
    PassOfPassed(y, Pow2(bits - passes), h, f);
    forall b: nat, j: nat | b < Pow2(bits - passes) && j < Pow2(passes)
      ensures AccurateCell(x, z, ex, bits, passes, b, j)
    {
      var o := if j < h then j else j - h;
      assert Combined(y, z, h, f, b, o);
      assert AccurateCell(x, y, ex, bits, passes - 1, 2 * b, o);
      assert AccurateCell(x, y, ex, bits, passes - 1, 2 * b + 1, o);
      AccuratePair(wave, x, y, z, ex, bits, passes, h, b, o);
    }
  }

  lemma AccuratePair(wave: seq<Fixed>, x: seq<Cx>, y: seq<Fx>, z: seq<Fx>, ex: seq<Cx>, bits: nat, passes: nat,
                     h: nat, b: nat, o: nat)
    requires |ex| == |wave| == N_WAVE && 0 < passes <= bits <= LOG2_N_WAVE && |x| == |y| == Pow2(bits)
    requires CloseTable(wave, ex)
    requires h == Pow2(passes - 1) && 2 * h == Pow2(passes) && o < h && b < Pow2(bits - passes)
    requires AccurateCell(x, y, ex, bits, passes - 1, 2 * b, o)
    requires AccurateCell(x, y, ex, bits, passes - 1, 2 * b + 1, o)
    requires AllWithin(y, 32768.0)
    requires Combined(y, z, h, FixStep(wave, Pow2(LOG2_N_WAVE - passes)), b, o)
    ensures AccurateCell(x, z, ex, bits, passes, b, o)
    ensures AccurateCell(x, z, ex, bits, passes, b, o + h)
  {
    hide RootTable, CloseTable, FixStep, Within, Rev, Pow2, Bin, Mul, Entry, HalfEntry, FixButterfly, Mean, At;
    hide AllWithin, Decimated;
    var d := Pow2(LOG2_N_WAVE - passes);
    var u := Decimated(x, bits - passes, b);
    DecimatedHalves(x, bits - passes, b);
    DecimatedAt(x, bits, bits - passes, b);
    TwiddleInTable(passes, o);
    TableSize(passes);
    AtHalves(b, o, h);
    var k := o * d;
    var s, c := wave[k] as int, wave[k + N_WAVE / 4] as int;
    var a, a' := y[At(2 * b, o, h)], y[At(2 * b + 1, o, h)];
    CloseAt(wave, ex, k);
    CellWithin(y, At(2 * b + 1, o, h), 32768.0);
    FixStepAt(wave, d, o, a, a');
    MeanSplit(u, ex, d, o, h);
    AccuracyStep(s, c, a, a', ex[k], Mean(EvenSamples(u), ex, 2 * d, o), Mean(OddSamples(u), ex, 2 * d, o),
                 5.25 * (passes - 1) as real);
  }

  lemma CloseAt(wave: seq<Fixed>, ex: seq<Cx>, k: nat)
    requires |ex| == |wave| == N_WAVE && k < N_WAVE / 2 && CloseTable(wave, ex)
    ensures RootTable(ex) && W(ex, k) == ex[k] && Within(ex[k], 1.0)
    ensures Within(Sub(Entry(wave[k] as int, wave[k + N_WAVE / 4] as int), ex[k]), 5.0 / 65536.0)
  {
    WIndex(ex, k);
  }

  lemma CellWithin(y: seq<Fx>, i: nat, r: real)
    requires AllWithin(y, r) && i < |y|
    ensures Within(ToCx(y[i]), r)
  {
  }

  lemma DecimatedHalves(x: seq<Cx>, c: nat, b: nat)
    ensures Decimated(x, c + 1, 2 * b) == EvenSamples(Decimated(x, c, b))
    ensures Decimated(x, c + 1, 2 * b + 1) == OddSamples(Decimated(x, c, b))
  {
  }

  lemma TableSize(passes: nat)
    requires 0 < passes <= LOG2_N_WAVE
    ensures Pow2(passes) * Pow2(LOG2_N_WAVE - passes) == N_WAVE
    ensures Pow2(LOG2_N_WAVE - (passes - 1)) == 2 * Pow2(LOG2_N_WAVE - passes)
  {
    Pow2Add(passes, LOG2_N_WAVE - passes);
    assert Pow2(10) == 1024;
  }

  /** The means of a sequence come from the means of its halves by an exact butterfly. */
  lemma MeanSplit(u: seq<Cx>, ex: seq<Cx>, d: nat, j: int, h: nat)
    requires |ex| > 0 && |u| == 2 * h > 0 && |u| * d == |ex| && RootTable(ex)
    ensures var q :=
        ExactButterfly(W(ex, j * d), Mean(EvenSamples(u), ex, 2 * d, j), Mean(OddSamples(u), ex, 2 * d, j));
      Mean(u, ex, d, j) == q.0 && Mean(u, ex, d, j + h) == q.1
  {
    hide Bin, Mul, W, RootTable, Scaled;
    SplitInTime(u, ex, d, j);
    var e, o, w := Bin(EvenSamples(u), ex, 2 * d, j), Bin(OddSamples(u), ex, 2 * d, j), W(ex, j * d);
    MeanAlgebra(e, o, w, h as real);
  }

  lemma MeanAlgebra(e: Cx, o: Cx, w: Cx, h: real)
    requires h > 0.0
    ensures Scaled(Add(e, Mul(o, w)), 1.0 / (2.0 * h))
      == Add(Half(Scaled(e, 1.0 / h)), Half(Mul(w, Scaled(o, 1.0 / h))))
    ensures Scaled(Sub(e, Mul(o, w)), 1.0 / (2.0 * h))
      == Sub(Half(Scaled(e, 1.0 / h)), Half(Mul(w, Scaled(o, 1.0 / h))))
  {
    var r := 1.0 / h;
    assert 1.0 / (2.0 * h) == r / 2.0;
    MulComm(o, w);
    assert Mul(w, Scaled(o, r)) == Scaled(Mul(w, o), r);
    ScaledHalf(e, Mul(w, o), r);
  }

  lemma ScaledHalf(e: Cx, p: Cx, r: real)
    ensures Scaled(Add(e, p), r / 2.0) == Add(Half(Scaled(e, r)), Half(Scaled(p, r)))
    ensures Scaled(Sub(e, p), r / 2.0) == Sub(Half(Scaled(e, r)), Half(Scaled(p, r)))
  {
  }

  lemma {:induction false} StagesAccurate(wave: seq<Fixed>, x: seq<Fx>, ex: seq<Cx>, bits: nat, passes: nat, m: real)
    requires SineTable(wave) && CloseTable(wave, ex) && passes <= bits <= LOG2_N_WAVE && |x| == Pow2(bits)
    requires AllWithin(x, m) && m >= 0.0 && m + 4.0 * bits as real <= 32767.0
    ensures Accurate(Exact(x), FixStages(wave, Reversed(bits, x), bits, passes), ex, bits, passes)
  {
    hide Accurate, AllWithin, PassOf, FixStep, RootTable, Rev, Pow2;
    if passes == 0 {
      AccurateStart(x, ex, bits);
    } else {
      StagesAccurate(wave, x, ex, bits, passes - 1, m);
      ReversedWithin(bits, x, m);
      StagesWithin(wave, Reversed(bits, x), bits, passes - 1, m);
      var y := FixStages(wave, Reversed(bits, x), bits, passes - 1);
      MoreWithin(y, m + 4.0 * (passes - 1) as real, 32768.0);
      BlocksFit(bits, passes);
      AccuratePass(wave, Exact(x), y, ex, bits, passes);
    }
  }

  lemma ReversedWithin(bits: nat, x: seq<Fx>, m: real)
    requires |x| == Pow2(bits) && AllWithin(x, m)
    ensures AllWithin(Reversed(bits, x), m)
  {
  }

  lemma MoreWithin(y: seq<Fx>, m: real, r: real)
    requires AllWithin(y, m) && m <= r
    ensures AllWithin(y, r)
  {
    forall i | 0 <= i < |y| ensures Within(ToCx(y[i]), r) {
      WithinMore(ToCx(y[i]), m, r);
    }
  }

  /** Bin j of the fixed-point transform of 2^bits samples against the exact bin divided by the length. */
  lemma FixedTransformClose(wave: seq<Fixed>, x: seq<Fx>, ex: seq<Cx>, bits: nat, j: nat)
    requires |ex| == |wave| == N_WAVE && bits <= LOG2_N_WAVE && |x| == Pow2(bits) && j < |x|
    requires AllWithin(x, 32767.0 - 4.0 * bits as real)
    requires SineTable(wave) && CloseTable(wave, ex)
    ensures Within(Sub(ToCx(FixStages(wave, Reversed(bits, x), bits, bits)[j]),
                       Scaled(Bin(Exact(x), ex, Pow2(LOG2_N_WAVE - bits), j), 1.0 / |x| as real)),
                   5.25 * bits as real)
  {
    hide Within, AllWithin, CloseTable, Bin, Scaled, FixStages, Pow2;
    StagesAccurate(wave, x, ex, bits, bits, 32767.0 - 4.0 * bits as real);
    SmallPow2();
    assert AccurateCell(Exact(x), FixStages(wave, Reversed(bits, x), bits, bits), ex, bits, bits, 0, j);
    assert At(0, j, Pow2(bits)) == j;
  }
}
