/** Bounds on the modulus of complex numbers, stated without square roots. */
module Modulus {
  import opened Complex

  /** The modulus of u is at most r. */
  predicate Within(u: Cx, r: real) { r >= 0.0 && u.re * u.re + u.im * u.im <= r * r }

  lemma MulPositive(a: real, b: real)
    requires a > 0.0 && b > 0.0
    ensures a * b > 0.0
  {
  }

  lemma SquareGrows(a: real, b: real)
    requires a > b >= 0.0
    ensures a * a > b * b
  {
    MulPositive(a - b, a + b);
    assert (a - b) * (a + b) == a * a - b * b;
  }

  lemma SquareOrder(a: real, b: real)
    requires b >= 0.0 && a * a <= b * b
    ensures a <= b
  {
    if a > b { SquareGrows(a, b); }
  }

  lemma DotBound(u: Cx, v: Cx, r: real, s: real)
    requires Within(u, r) && Within(v, s)
    ensures u.re * v.re + u.im * v.im <= r * s
  {
    var dot, cross := u.re * v.re + u.im * v.im, u.re * v.im - u.im * v.re;
    var x, y := u.re * u.re + u.im * u.im, v.re * v.re + v.im * v.im;
    assert dot * dot + cross * cross == x * y;
    assert x * y <= (r * r) * (s * s) by {
      assert x * y <= (r * r) * y;
      assert (r * r) * y <= (r * r) * (s * s);
    }
    assert (r * r) * (s * s) == (r * s) * (r * s);
    SquareOrder(dot, r * s);
  }

  /** The triangle inequality. */
  lemma WithinAdd(u: Cx, v: Cx, r: real, s: real)
    requires Within(u, r) && Within(v, s)
    ensures Within(Add(u, v), r + s)
  {
    DotBound(u, v, r, s);
    var dot := u.re * v.re + u.im * v.im;
    assert (u.re + v.re) * (u.re + v.re) == u.re * u.re + v.re * v.re + 2.0 * (u.re * v.re);
    assert (u.im + v.im) * (u.im + v.im) == u.im * u.im + v.im * v.im + 2.0 * (u.im * v.im);
    assert (r + s) * (r + s) == r * r + s * s + 2.0 * (r * s);
  }

  lemma WithinMul(u: Cx, v: Cx, r: real, s: real)
    requires Within(u, r) && Within(v, s)
    ensures Within(Mul(u, v), r * s)
  {
    var x, y, p := u.re * u.re + u.im * u.im, v.re * v.re + v.im * v.im, Mul(u, v);
    assert p.re * p.re + p.im * p.im == x * y by { NormOfProduct(u, v); }
    assert x * y <= (r * r) * y <= (r * r) * (s * s);
    assert (r * r) * (s * s) == (r * s) * (r * s);
  }

  lemma NormOfProduct(u: Cx, v: Cx)
    ensures Mul(u, v).re * Mul(u, v).re + Mul(u, v).im * Mul(u, v).im
         == (u.re * u.re + u.im * u.im) * (v.re * v.re + v.im * v.im)
  {
  }

  lemma WithinHalf(u: Cx, r: real)
    requires Within(u, r)
    ensures Within(Half(u), r / 2.0)
  {
  }

  lemma WithinNeg(u: Cx, r: real)
    requires Within(u, r)
    ensures Within(Neg(u), r)
  {
  }

  lemma WithinMore(u: Cx, r: real, s: real)
    requires Within(u, r) && r <= s
    ensures Within(u, s)
  {
    assert r * r <= r * s <= s * s;
  }

  lemma WithinParts(u: Cx, r: real)
    requires Within(u, r)
    ensures -r <= u.re <= r && -r <= u.im <= r
  {
    SquareOrder(u.re, r);
    SquareOrder(-u.re, r);
    SquareOrder(u.im, r);
    SquareOrder(-u.im, r);
  }
}
