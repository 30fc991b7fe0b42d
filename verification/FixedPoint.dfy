/** The scaled 16-bit butterfly: what it computes, and how far that is from exact arithmetic. */
module FixedPoint {
  import opened Complex
  import opened Modulus

  newtype Fixed = x: int | -32768 <= x <= 32767

  const N_WAVE := 1024
  const LOG2_N_WAVE := 10

  /** A complex sample whose parts are whole numbers. */
  datatype Fx = Fx(re: int, im: int)

  /** The product of two fixed-point numbers, shifted back; the shift rounds down. */
  function FixMpy(a: int, b: int): int { a * b / 32768 }

  /** Both results of a butterfly with the halved table entry w. */
  function FixButterfly(w: Fx, a: Fx, b: Fx): (Fx, Fx) {
    var tr := FixMpy(w.re, b.re) - FixMpy(w.im, b.im);
    var ti := FixMpy(w.re, b.im) + FixMpy(w.im, b.re);
    var qr, qi := a.re / 2, a.im / 2;
    (Fx(qr + tr, qi + ti), Fx(qr - tr, qi - ti))
  }

  /** The sine table holds one turn; a quarter turn on it is the cosine. */
  ghost predicate SineTable(wave: seq<Fixed>) {
    && |wave| == N_WAVE
    && forall j :: 0 <= j < N_WAVE / 2 ==> UnitEntry(wave[j] as int, wave[j + N_WAVE / 4] as int)
  }

  predicate UnitEntry(sine: int, cosine: int) {
    && -32767 <= sine <= 32767
    && -32767 <= cosine <= 32767
    && sine * sine + cosine * cosine <= 0x4000_0000
  }

  /** The halved entry as the code computes it: both shifts round down. */
  function HalfEntry(sine: int, cosine: int): Fx { Fx(cosine / 2, -sine / 2) }

  function ToCx(a: Fx): Cx { Cx(a.re as real, a.im as real) }

  function Entry(sine: int, cosine: int): Cx { Cx(cosine as real / 32768.0, -(sine as real) / 32768.0) }

  /** One shifted product: 65536 times it is twice the exact product less at most a unit in the last place
      and the dropped half of the halved factor. */
  lemma MpyError(c: int, b: int)
    requires -32768 <= b <= 32768
    ensures var e := c * b - 65536 * FixMpy(c / 2, b);
      (c % 2 == 0 ==> 0 <= e < 65536) && (c % 2 == 1 ==> b <= e < 65536 + b)
  {
    var h, r := c / 2, (c / 2) * b - 32768 * FixMpy(c / 2, b);
    assert c * b == 2 * (h * b) + (c % 2) * b by { assert c == 2 * h + c % 2; }
    assert 0 <= r < 32768;
  }

  lemma AbsSum(x: int, y: int)
    requires x * x + y * y <= 0x4000_0000
    ensures -32768 <= x <= 32768 && -32768 <= y <= 32768
    ensures -49152 <= x + y <= 49152 && -49152 <= x - y <= 49152
  {
    SquareSums(x, y);
    SquareBound(x, 32768);
    SquareBound(y, 32768);
    SquareBound(x + y, 49152);
    SquareBound(x - y, 49152);
  }

  lemma SquareSums(x: int, y: int)
    ensures (x + y) * (x + y) + (x - y) * (x - y) == 2 * (x * x + y * y)
    ensures x * x >= 0 && y * y >= 0 && (x + y) * (x + y) >= 0 && (x - y) * (x - y) >= 0
  {
  }

  lemma SquareBound(x: int, b: int)
    requires b >= 0 && x * x <= b * b
    ensures -b <= x <= b
  {
    var a := x as real;
    SquareOrder(a, b as real);
    SquareOrder(-a, b as real);
  }

  /** The twiddled partner, in units of 1/65536, against the exact product with the whole entry. */
  lemma TwiddleError(s: int, c: int, b: Fx)
    requires b.re * b.re + b.im * b.im <= 0x4000_0000
    ensures var w := HalfEntry(s, c);
      var er := (c * b.re + s * b.im) - 65536 * (FixMpy(w.re, b.re) - FixMpy(w.im, b.im));
      var ei := (c * b.im - s * b.re) - 65536 * (FixMpy(w.re, b.im) + FixMpy(w.im, b.re));
      -114688 <= er <= 114688 && -180224 <= ei <= 180224
  {
    AbsSum(b.re, b.im);
    MpyError(c, b.re);
    MpyError(c, b.im);
    MpyError(-s, b.re);
    MpyError(-s, b.im);
    assert (-s) * b.im == -(s * b.im) && (-s) * b.re == -(s * b.re);
  }

  /** The butterfly in exact arithmetic with the whole entry v. */
  function ExactButterfly(v: Cx, a: Cx, b: Cx): (Cx, Cx) {
    (Add(Half(a), Half(Mul(v, b))), Sub(Half(a), Half(Mul(v, b))))
  }

  lemma RealProduct(a: int, b: int)
    ensures (a * b) as real == a as real * b as real
  {
  }

  /** The parts of the halved exact product, in units of 1/65536. */
  lemma ProductParts(s: int, c: int, b: Fx)
    ensures var t := Half(Mul(Entry(s, c), ToCx(b)));
      t.re == (c * b.re + s * b.im) as real / 65536.0 && t.im == (c * b.im - s * b.re) as real / 65536.0
  {
    RealProduct(c, b.re);
    RealProduct(s, b.im);
    RealProduct(c, b.im);
    RealProduct(s, b.re);
    var x, y := b.re as real, b.im as real;
    assert (c as real / 32768.0) * x == (c as real * x) / 32768.0;
    assert (c as real / 32768.0) * y == (c as real * y) / 32768.0;
    assert (-(s as real) / 32768.0) * x == -(s as real * x) / 32768.0;
    assert (-(s as real) / 32768.0) * y == -(s as real * y) / 32768.0;
  }

  /** Both results differ from the exact ones by less than 4 units in the last place. */
  lemma ButterflyError(s: int, c: int, a: Fx, b: Fx)
    requires b.re * b.re + b.im * b.im <= 0x4000_0000
    ensures var p, x := FixButterfly(HalfEntry(s, c), a, b), ExactButterfly(Entry(s, c), ToCx(a), ToCx(b));
      Within(Sub(ToCx(p.0), x.0), 4.0) && Within(Sub(ToCx(p.1), x.1), 4.0)
  {
    hide FixMpy, Mul;
    var p, x := FixButterfly(HalfEntry(s, c), a, b), ExactButterfly(Entry(s, c), ToCx(a), ToCx(b));
    TwiddleError(s, c, b);
    ProductParts(s, c, b);
    var w := HalfEntry(s, c);
    var tr, ti := FixMpy(w.re, b.re) - FixMpy(w.im, b.im), FixMpy(w.re, b.im) + FixMpy(w.im, b.re);
    var xr, xi := c * b.re + s * b.im, c * b.im - s * b.re;
    PartError(tr, xr, 114688);
    PartError(ti, xi, 180224);
    SmallBox(Sub(ToCx(p.0), x.0));
    SmallBox(Sub(ToCx(p.1), x.1));
  }

  lemma PartError(t: int, x: int, e: int)
    requires -e <= x - 65536 * t <= e
    ensures -(e as real) / 65536.0 <= t as real - x as real / 65536.0 <= e as real / 65536.0
  {
  }

  lemma SmallBox(u: Cx)
    requires -2.25 <= u.re <= 2.25 && -3.25 <= u.im <= 3.25
    ensures Within(u, 4.0)
  {
    SquareInside(u.re, 2.25);
    SquareInside(u.im, 3.25);
  }

  lemma SquareInside(a: real, b: real)
    requires -b <= a <= b
    ensures a * a <= b * b
  {
    assert (b - a) * (b + a) >= 0.0;
    assert (b - a) * (b + a) == b * b - a * a;
  }

  /** A butterfly widens the bound on the modulus by at most 4. */
  lemma NormStep(s: int, c: int, a: Fx, b: Fx, m: real)
    requires UnitEntry(s, c) && Within(ToCx(a), m) && Within(ToCx(b), m) && m <= 32768.0
    ensures var p := FixButterfly(HalfEntry(s, c), a, b);
      Within(ToCx(p.0), m + 4.0) && Within(ToCx(p.1), m + 4.0)
  {
    hide FixButterfly, Mul, Entry, HalfEntry;
    NormOfFx(b, m);
    EntryUnit(s, c);
    ButterflyError(s, c, a, b);
    var p, x := FixButterfly(HalfEntry(s, c), a, b), ExactButterfly(Entry(s, c), ToCx(a), ToCx(b));
    var t := Half(Mul(Entry(s, c), ToCx(b)));
    WithinMul(Entry(s, c), ToCx(b), 1.0, m);
    WithinHalf(Mul(Entry(s, c), ToCx(b)), m);
    WithinHalf(ToCx(a), m);
    WithinAdd(Half(ToCx(a)), t, m / 2.0, m / 2.0);
    WithinNeg(t, m / 2.0);
    WithinAdd(Half(ToCx(a)), Neg(t), m / 2.0, m / 2.0);
    WithinAdd(x.0, Sub(ToCx(p.0), x.0), m, 4.0);
    WithinAdd(x.1, Sub(ToCx(p.1), x.1), m, 4.0);
    assert Add(x.0, Sub(ToCx(p.0), x.0)) == ToCx(p.0);
    assert Add(x.1, Sub(ToCx(p.1), x.1)) == ToCx(p.1);
  }

  lemma NormOfFx(b: Fx, m: real)
    requires Within(ToCx(b), m) && m <= 32768.0
    ensures b.re * b.re + b.im * b.im <= 0x4000_0000
  {
    WithinMore(ToCx(b), m, 32768.0);
    RealProduct(b.re, b.re);
    RealProduct(b.im, b.im);
  }

  lemma EntryUnit(s: int, c: int)
    requires UnitEntry(s, c)
    ensures Within(Entry(s, c), 1.0)
  {
    RealProduct(s, s);
    RealProduct(c, c);
    var u, v := c as real, s as real;
    assert (u / 32768.0) * (u / 32768.0) == (u * u) / 1073741824.0;
    assert (-v / 32768.0) * (-v / 32768.0) == (v * v) / 1073741824.0;
  }

  /** A butterfly on approximate inputs with an approximate entry, against exact inputs and the exact root. */
  lemma AccuracyStep(s: int, c: int, a: Fx, b: Fx, v: Cx, x: Cx, y: Cx, e: real)
    requires Within(ToCx(b), 32768.0) && Within(v, 1.0) && Within(Sub(Entry(s, c), v), 5.0 / 65536.0)
    requires Within(Sub(ToCx(a), x), e) && Within(Sub(ToCx(b), y), e)
    ensures var p, q := FixButterfly(HalfEntry(s, c), a, b), ExactButterfly(v, x, y);
      Within(Sub(ToCx(p.0), q.0), e + 5.25) && Within(Sub(ToCx(p.1), q.1), e + 5.25)
  {
    hide FixButterfly, Mul, Entry, HalfEntry, Within;
    var u, z, w := ToCx(a), ToCx(b), Entry(s, c);
    var p, q, g := FixButterfly(HalfEntry(s, c), a, b), ExactButterfly(v, x, y), ExactButterfly(w, u, z);
    NormOfFx(b, 32768.0);
    ButterflyError(s, c, a, b);
    var da, db := Half(Sub(u, x)), Half(Sub(Mul(w, z), Mul(v, y)));
    WithinHalf(Sub(u, x), e);
    ProductError(w, v, z, y, e);
    WithinHalf(Sub(Mul(w, z), Mul(v, y)), e + 2.5);
    WithinNeg(db, e / 2.0 + 1.25);
    WithinAdd(da, db, e / 2.0, e / 2.0 + 1.25);
    WithinAdd(da, Neg(db), e / 2.0, e / 2.0 + 1.25);
    WithinAdd(Sub(ToCx(p.0), g.0), Add(da, db), 4.0, e + 1.25);
    WithinAdd(Sub(ToCx(p.1), g.1), Add(da, Neg(db)), 4.0, e + 1.25);
    assert Add(Sub(ToCx(p.0), g.0), Add(da, db)) == Sub(ToCx(p.0), q.0);
    assert Add(Sub(ToCx(p.1), g.1), Add(da, Neg(db))) == Sub(ToCx(p.1), q.1);
  }

  lemma ProductError(w: Cx, v: Cx, z: Cx, y: Cx, e: real)
    requires Within(z, 32768.0) && Within(v, 1.0) && Within(Sub(w, v), 5.0 / 65536.0) && Within(Sub(z, y), e)
    ensures Within(Sub(Mul(w, z), Mul(v, y)), e + 2.5)
  {
    hide Mul, Within;
    WithinMul(Sub(w, v), z, 5.0 / 65536.0, 32768.0);
    WithinMul(v, Sub(z, y), 1.0, e);
    WithinAdd(Mul(Sub(w, v), z), Mul(v, Sub(z, y)), 2.5, e);
    MulAdd(w, v, z);
    MulComm(v, Sub(z, y));
    MulAdd(z, y, v);
    MulComm(z, v);
    MulComm(y, v);
  }
}
