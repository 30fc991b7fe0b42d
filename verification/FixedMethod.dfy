/** The in-place fixed-point transform on 16-bit arrays. Every cast below is a proof that the value fits. */
module FixedMethod {
  import opened Arith
  import opened Complex
  import opened BitReversal
  import opened Passes
  import opened Modulus
  import opened FixedPoint
  import opened FixedFft

  /** The first n samples of the two arrays. */
  function Cells(fr: seq<Fixed>, fi: seq<Fixed>, n: nat): (s: seq<Fx>)
    requires n <= |fr| && n <= |fi|
    ensures |s| == n
  {
    seq(n, i requires 0 <= i < n => Fx(fr[i] as int, fi[i] as int))
  }

  lemma CellsUpdatePair(fr: seq<Fixed>, fi: seq<Fixed>, n: nat, i: nat, j: nat, a: Fx, b: Fx,
                        fr': seq<Fixed>, fi': seq<Fixed>)
    requires n <= |fr| && n <= |fi| && i < n && j < n
    requires -32768 <= a.re <= 32767 && -32768 <= a.im <= 32767
    requires -32768 <= b.re <= 32767 && -32768 <= b.im <= 32767
    requires fr' == fr[i := a.re as Fixed][j := b.re as Fixed] && fi' == fi[i := a.im as Fixed][j := b.im as Fixed]
    ensures Cells(fr', fi', n) == Cells(fr, fi, n)[i := a][j := b]
  {
  }

  /** Fixed-point multiplication by a halved table entry fits in 16 bits. */
  method FixMpy16(a: Fixed, b: Fixed) returns (r: Fixed)
    requires -16384 <= a <= 16383
    ensures r as int == FixMpy(a as int, b as int)
  {
    ProductRange(a as int, b as int);
    r := (a as int * b as int / 32768) as Fixed;
  }

  lemma ProductRange(a: int, b: int)
    requires -16384 <= a <= 16384 && -32768 <= b <= 32768
    ensures -16384 * 32768 <= a * b <= 16384 * 32768
  {
    SquareSums(a, b);
    if a >= 0 {
      MulOrder(a, b, 32768);
      MulOrder(a, -32768, b);
    } else {
      MulOrder(-a, b, 32768);
      MulOrder(-a, -32768, b);
      assert (-a) * b == -(a * b);
    }
  }

  /** The twiddled partner fits in 16 bits. */
  lemma TwiddleFits(s: int, c: int, b: Fx)
    requires UnitEntry(s, c) && b.re * b.re + b.im * b.im <= 0x4000_0000
    ensures var w := HalfEntry(s, c);
      -16386 <= FixMpy(w.re, b.re) - FixMpy(w.im, b.im) <= 16386
      && -16387 <= FixMpy(w.re, b.im) + FixMpy(w.im, b.re) <= 16387
  {
    hide FixMpy, HalfEntry;
    TwiddleError(s, c, b);
    DotRange(c, s, b.re, b.im);
    DotRange(c, -s, b.im, b.re);
    assert (-s) * b.re == -(s * b.re);
  }

  lemma DotRange(a: int, b: int, x: int, y: int)
    requires a * a + b * b <= 0x4000_0000 && x * x + y * y <= 0x4000_0000
    ensures -0x4000_0000 <= a * x + b * y <= 0x4000_0000
  {
    var dot, cross := a * x + b * y, a * y - b * x;
    assert (a + x) * (a + x) == a * a + 2 * (a * x) + x * x && (a - x) * (a - x) == a * a - 2 * (a * x) + x * x;
    assert (b + y) * (b + y) == b * b + 2 * (b * y) + y * y && (b - y) * (b - y) == b * b - 2 * (b * y) + y * y;
    SquareSums(a, x);
    SquareSums(b, y);
  }

  /** One scaled butterfly on cells i and j with the halved entry (wr, wi). */
  method ButterflyFixed(fr: array<Fixed>, fi: array<Fixed>, i: nat, j: nat, wr: Fixed, wi: Fixed,
                        ghost s: int, ghost c: int, ghost m: real)
    requires fr != fi && i < j && j < fr.Length && j < fi.Length
    requires UnitEntry(s, c) && HalfEntry(s, c) == Fx(wr as int, wi as int)
    requires Within(Cx(fr[i] as real, fi[i] as real), m) && Within(Cx(fr[j] as real, fi[j] as real), m)
    requires m + 4.0 <= 32767.0
    modifies fr, fi
    ensures var p := FixButterfly(HalfEntry(s, c), Fx(old(fr[i]) as int, old(fi[i]) as int),
                                  Fx(old(fr[j]) as int, old(fi[j]) as int));
      -32768 <= p.0.re <= 32767 && -32768 <= p.0.im <= 32767
      && -32768 <= p.1.re <= 32767 && -32768 <= p.1.im <= 32767
      && fr[..] == old(fr[..])[i := p.0.re as Fixed][j := p.1.re as Fixed]
      && fi[..] == old(fi[..])[i := p.0.im as Fixed][j := p.1.im as Fixed]
  {
    ghost var a, b := Fx(fr[i] as int, fi[i] as int), Fx(fr[j] as int, fi[j] as int);
    ghost var p := FixButterfly(HalfEntry(s, c), a, b);
    ButterflyRange(s, c, a, b, m);
    var x := FixMpy16(wr, fr[j]);
    var y := FixMpy16(wi, fi[j]);
    var tr := (x as int - y as int) as Fixed;
    x := FixMpy16(wr, fi[j]);
    y := FixMpy16(wi, fr[j]);
    var ti := (x as int + y as int) as Fixed;
    var qr, qi := fr[i] as int / 2, fi[i] as int / 2;
    fr[j] := (qr - tr as int) as Fixed;
    fi[j] := (qi - ti as int) as Fixed;
    fr[i] := (qr + tr as int) as Fixed;
    fi[i] := (qi + ti as int) as Fixed;
  }

  lemma ButterflyRange(s: int, c: int, a: Fx, b: Fx, m: real)
    requires UnitEntry(s, c) && Within(ToCx(a), m) && Within(ToCx(b), m) && m + 4.0 <= 32767.0
    ensures var p, w := FixButterfly(HalfEntry(s, c), a, b), HalfEntry(s, c);
      -32767 <= p.0.re <= 32767 && -32767 <= p.0.im <= 32767
      && -32767 <= p.1.re <= 32767 && -32767 <= p.1.im <= 32767
      && -16386 <= FixMpy(w.re, b.re) - FixMpy(w.im, b.im) <= 16386
      && -16387 <= FixMpy(w.re, b.im) + FixMpy(w.im, b.re) <= 16387
  {
    hide FixButterfly, FixMpy, Within;
    NormOfFx(b, m);
    TwiddleFits(s, c, b);
    NormStep(s, c, a, b, m);
    var p := FixButterfly(HalfEntry(s, c), a, b);
    WithinParts(ToCx(p.0), m + 4.0);
    WithinParts(ToCx(p.1), m + 4.0);
  }

  method SwapCells(fr: array<Fixed>, fi: array<Fixed>, n: nat, m: nat, mr: nat)
    requires fr != fi && n <= fr.Length && n <= fi.Length && m < mr < n
    modifies fr, fi
    ensures var now := Cells(old(fr[..]), old(fi[..]), n);
      Cells(fr[..], fi[..], n) == now[mr := now[m]][m := now[mr]]
    ensures fr[n..] == old(fr[n..]) && fi[n..] == old(fi[n..])
  {
    var tmp := fr[m];
    fr[m] := fr[mr];
    fr[mr] := tmp;
    tmp := fi[m];
    fi[m] := fi[mr];
    fi[mr] := tmp;
  }

  /** Swap every cell with its mirror, once. */
  method Reorder(fr: array<Fixed>, fi: array<Fixed>, n: nat, ghost bits: nat)
    requires fr != fi && n == Pow2(bits) && n <= fr.Length && n <= fi.Length
    modifies fr, fi
    ensures Cells(fr[..], fi[..], n) == Reversed(bits, Cells(old(fr[..]), old(fi[..]), n))
    ensures fr[n..] == old(fr[n..]) && fi[n..] == old(fi[n..])
  {
    hide Rev, Reversed, Pow2, Cells;
    ghost var before := Cells(fr[..], fi[..], n);
    var mr := 0;
    RevZero(bits);
    SwapFirst(bits, before);
    for m := 1 to n
      invariant mr == Rev(bits, m - 1) < n
      invariant SwappedBelow(bits, before, Cells(fr[..], fi[..], n), m)
      invariant fr[n..] == old(fr[n..]) && fi[n..] == old(fi[n..])
    {
      mr := HighestClear(bits, m - 1, n, mr);
      ghost var now := Cells(fr[..], fi[..], n);
      if mr > m {
        SwapCells(fr, fi, n, m, mr);
      }
      SwapStep(bits, before, now, m, Cells(fr[..], fi[..], n));
    }
    SwapDone(bits, before, Cells(fr[..], fi[..], n), n);
  }

  lemma SwapFirst(bits: nat, s: seq<Fx>)
    requires |s| == Pow2(bits)
    ensures SwappedBelow(bits, s, s, 1)
  {
    forall a | 0 <= a < |s| && (a < 1 || Rev(bits, a) < 1) ensures s[Rev(bits, a)] == s[a] {
      RevZero(bits);
      RevInvolution(bits, a);
    }
  }

  ghost predicate PassBound(s0: seq<Fx>, m: real) {
    AllWithin(s0, m) && m + 4.0 <= 32767.0
  }

  /** All butterflies of one pass: blocks of twice l cells, twiddles 2^k entries apart. */
  method FixPass(fr: array<Fixed>, fi: array<Fixed>, n: nat, l: nat, k: nat, wave: seq<Fixed>,
                 ghost blocks: nat, ghost passes: nat, ghost bound: real)
    requires fr != fi && n <= fr.Length && n <= fi.Length
    requires 0 < passes <= LOG2_N_WAVE && l == Pow2(passes - 1) && k == LOG2_N_WAVE - passes && n == blocks * (2 * l)
    requires SineTable(wave) && PassBound(Cells(fr[..], fi[..], n), bound)
    modifies fr, fi
    ensures Passed(Cells(old(fr[..]), old(fi[..]), n), Cells(fr[..], fi[..], n), blocks, l, FixStep(wave, Pow2(k)))
    ensures fr[n..] == old(fr[n..]) && fi[n..] == old(fi[n..])
  {
    assert |wave| == N_WAVE;
    hide *;
    ghost var s0 := Cells(fr[..], fi[..], n);
    ghost var f := FixStep(wave, Pow2(k));
    var istep := 2 * l;
    PartialStart(s0, blocks, l, f);
    for m := 0 to l
      invariant Partial(s0, Cells(fr[..], fi[..], n), blocks, l, f, m, 0)
      invariant fr[n..] == old(fr[n..]) && fi[n..] == old(fi[n..])
    {
      TwiddleInTable(passes, m);
      var j := m * Pow2(k);
      var wr, wi := wave[j + N_WAVE / 4] as int, -(wave[j] as int);
      UnitAt(wave, j);
      var i := m;
      ghost var t: nat := 0;
      AtNext(0, m, istep);
      while i < n
        invariant t <= blocks && i == At(t, m, istep)
        invariant Partial(s0, Cells(fr[..], fi[..], n), blocks, l, f, m, t)
        invariant fr[n..] == old(fr[n..]) && fi[n..] == old(fi[n..])
        decreases blocks - t
      {
        ghost var re, im := fr[..], fi[..];
        PairInRange(t, m, blocks, l, n);
        PairWithin(s0, re, im, n, blocks, l, f, m, t, i, bound);
        ButterflyFixed(fr, fi, i, i + l, (wr / 2) as Fixed, (wi / 2) as Fixed, wave[j] as int,
                       wave[j + N_WAVE / 4] as int, bound);
        FixPairDone(s0, re, im, fr[..], fi[..], n, blocks, l, wave, Pow2(k), m, t, i);
        AtNext(t, m, istep);
        i := i + istep;
        t := t + 1;
      }
      LastBlock(t, m, blocks, istep, n);
      PartialNextOffset(s0, Cells(fr[..], fi[..], n), blocks, l, f, m);
    }
    PartialDone(s0, Cells(fr[..], fi[..], n), blocks, l, f);
  }

  lemma UnitAt(wave: seq<Fixed>, j: nat)
    requires SineTable(wave) && j < N_WAVE / 2
    ensures j + N_WAVE / 4 < |wave| && UnitEntry(wave[j] as int, wave[j + N_WAVE / 4] as int)
    ensures -32767 <= wave[j] <= 32767 && -32767 <= wave[j + N_WAVE / 4] <= 32767
    ensures HalfEntry(wave[j] as int, wave[j + N_WAVE / 4] as int)
         == Fx(wave[j + N_WAVE / 4] as int / 2, -(wave[j] as int) / 2)
  {
  }

  lemma PairWithin(s0: seq<Fx>, fr: seq<Fixed>, fi: seq<Fixed>, n: nat, blocks: nat, l: nat, f: Combine<Fx>,
                   m: nat, t: nat, i: nat, bound: real)
    requires n <= |fr| && n <= |fi| && Partial(s0, Cells(fr, fi, n), blocks, l, f, m, t) && m < l && t < blocks
    requires i == At(t, m, 2 * l) && i + l < n && PassBound(s0, bound)
    ensures Within(Cx(fr[i] as real, fi[i] as real), bound)
    ensures Within(Cx(fr[i + l] as real, fi[i + l] as real), bound)
    ensures bound + 4.0 <= 32767.0
  {
    hide Within, At;
    assert Untouched(s0, Cells(fr, fi, n), l, t, m);
    assert Within(ToCx(s0[i]), bound) && Within(ToCx(s0[i + l]), bound);
    assert ToCx(s0[i]) == Cx(fr[i] as real, fi[i] as real);
    assert ToCx(s0[i + l]) == Cx(fr[i + l] as real, fi[i + l] as real);
  }

  lemma FixPairDone(s0: seq<Fx>, fr: seq<Fixed>, fi: seq<Fixed>, fr': seq<Fixed>, fi': seq<Fixed>, n: nat,
                    blocks: nat, l: nat, wave: seq<Fixed>, d: nat, m: nat, t: nat, i: nat)
    requires |wave| == N_WAVE && n <= |fr| && n <= |fi| && i + l < n && 0 <= m * d < N_WAVE / 2
    requires Partial(s0, Cells(fr, fi, n), blocks, l, FixStep(wave, d), m, t) && m < l && t < blocks
    requires i == At(t, m, 2 * l)
    requires
      var p := FixButterfly(HalfEntry(wave[m * d] as int, wave[m * d + N_WAVE / 4] as int),
                            Fx(fr[i] as int, fi[i] as int), Fx(fr[i + l] as int, fi[i + l] as int));
      -32768 <= p.0.re <= 32767 && -32768 <= p.0.im <= 32767
      && -32768 <= p.1.re <= 32767 && -32768 <= p.1.im <= 32767
      && fr' == fr[i := p.0.re as Fixed][i + l := p.1.re as Fixed]
      && fi' == fi[i := p.0.im as Fixed][i + l := p.1.im as Fixed]
    ensures |fr'| == |fr| && |fi'| == |fi| && fr'[n..] == fr[n..] && fi'[n..] == fi[n..]
    ensures Partial(s0, Cells(fr', fi', n), blocks, l, FixStep(wave, d), m, t + 1)
  {
    hide FixButterfly, HalfEntry, FixStep, Partial, At;
    var s := Cells(fr, fi, n);
    FixStepAt(wave, d, m, s[i], s[i + l]);
    var p := FixStep(wave, d)(m, s[i], s[i + l]);
    assert p == FixButterfly(HalfEntry(wave[m * d] as int, wave[m * d + N_WAVE / 4] as int), s[i], s[i + l]);
    CellsUpdatePair(fr, fi, n, i, i + l, p.0, p.1, fr', fi');
    PartialStep(s0, s, blocks, l, FixStep(wave, d), m, t, i, i + l, Cells(fr', fi', n));
  }

  /** The largest modulus that leaves room for the passes still to come. */
  function Headroom(m: nat, passes: nat): real { 32767.0 - 4.0 * m as real + 4.0 * passes as real }

  /** The forward fixed-point transform of 2^m samples, in place. */
  method FixFft(fr: array<Fixed>, fi: array<Fixed>, m: nat, wave: seq<Fixed>) returns (err: int)
    requires fr != fi && SineTable(wave)
    requires m <= LOG2_N_WAVE ==>
      Pow2(m) <= fr.Length && Pow2(m) <= fi.Length
      && AllWithin(Cells(fr[..], fi[..], Pow2(m)), Headroom(m, 0))
    modifies fr, fi
    ensures err == if m <= LOG2_N_WAVE then 0 else -1
    ensures m > LOG2_N_WAVE ==> fr[..] == old(fr[..]) && fi[..] == old(fi[..])
    ensures m <= LOG2_N_WAVE ==>
      Cells(fr[..], fi[..], Pow2(m)) == FixStages(wave, Reversed(m, Cells(old(fr[..]), old(fi[..]), Pow2(m))), m, m)
      && fr[Pow2(m)..] == old(fr[Pow2(m)..]) && fi[Pow2(m)..] == old(fi[Pow2(m)..])
  {
    assert |wave| == N_WAVE;
    hide *;
    var n := Pow2(m);
    WaveLimit(m);
    if n > N_WAVE {
      return -1;
    }
    ghost var before := Cells(fr[..], fi[..], n);
    ghost var x := Reversed(m, before);
    Reorder(fr, fi, n, m);
    var l, k := 1, LOG2_N_WAVE - 1;
    ghost var s: nat := 0;
    FirstPass(m, wave, x);
    while l < n
      invariant s <= m && l == Pow2(s) && k == LOG2_N_WAVE - 1 - s
      invariant Cells(fr[..], fi[..], n) == FixStages(wave, x, m, s)
      invariant fr[n..] == old(fr[n..]) && fi[n..] == old(fi[n..])
      decreases m - s
    {
      NextPass(m, s, l, n);
      StagePassBound(wave, before, m, s);
      FixPass(fr, fi, n, l, k, wave, Pow2(m - (s + 1)), s + 1, Headroom(m, s));
      StageDone(wave, x, m, s, Cells(fr[..], fi[..], n));
      k := k - 1;
      l := 2 * l;
      s := s + 1;
    }
    LastPass(m, s, l, n);
    return 0;
  }

  lemma WaveLimit(m: nat)
    ensures Pow2(m) > N_WAVE <==> m > LOG2_N_WAVE
  {
    assert Pow2(10) == 1024;
    if m > 10 { Pow2Monotone(10, m); }
    if m < 10 { Pow2Monotone(m, 10); }
  }

  lemma FirstPass(m: nat, wave: seq<Fixed>, x: seq<Fx>)
    requires |wave| == N_WAVE && |x| == Pow2(m) && m <= LOG2_N_WAVE
    ensures Pow2(0) == 1 && FixStages(wave, x, m, 0) == x
  {
  }

  lemma NextPass(m: nat, s: nat, l: nat, n: nat)
    requires s <= m && l == Pow2(s) && n == Pow2(m) && l < n
    ensures s < m && n == Pow2(m - (s + 1)) * (2 * l) && Pow2(s + 1) == 2 * l
  {
    if s < m { BlocksFit(m, s + 1); }
  }

  lemma LastPass(m: nat, s: nat, l: nat, n: nat)
    requires s <= m && l == Pow2(s) && n == Pow2(m) && l >= n
    ensures s == m
  {
    if s < m { Pow2Monotone(s, m); }
  }

  lemma StagePassBound(wave: seq<Fixed>, x: seq<Fx>, m: nat, s: nat)
    requires SineTable(wave) && |x| == Pow2(m) && s < m <= LOG2_N_WAVE && AllWithin(x, Headroom(m, 0))
    ensures PassBound(FixStages(wave, Reversed(m, x), m, s), Headroom(m, s))
  {
    hide FixStages, Pow2, Within, Rev;
    StagesWithin(wave, Reversed(m, x), m, s, Headroom(m, 0));
  }

  lemma StageDone(wave: seq<Fixed>, x: seq<Fx>, m: nat, s: nat, y: seq<Fx>)
    requires |wave| == N_WAVE && |x| == Pow2(m) && s < m <= LOG2_N_WAVE
    requires Passed(FixStages(wave, x, m, s), y, Pow2(m - (s + 1)), Pow2(s), FixStep(wave, Pow2(LOG2_N_WAVE - 1 - s)))
    ensures y == FixStages(wave, x, m, s + 1)
  {
    hide FixStep, Passed, PassOf;
    BlocksFit(m, s + 1);
    PassedIsPassOf(FixStages(wave, x, m, s), y, Pow2(m - (s + 1)), Pow2(s), FixStep(wave, Pow2(LOG2_N_WAVE - 1 - s)));
  }
}
