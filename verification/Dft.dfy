/** The discrete Fourier transform as a double sum, and the way it splits in halves. */
module Dft {
  import opened Complex

  /** The summands of bin j. The table belongs to a transform dilate times as large as x. */
  function Terms(x: seq<Cx>, ex: seq<Cx>, dilate: nat, j: int): (t: seq<Cx>)
    requires |ex| > 0
    ensures |t| == |x|
  {
    seq(|x|, k requires 0 <= k < |x| => Mul(x[k], W(ex, j * k * dilate)))
  }

  function Bin(x: seq<Cx>, ex: seq<Cx>, dilate: nat, j: int): Cx
    requires |ex| > 0
  {
    Sum(Terms(x, ex, dilate, j))
  }

  /** All bins of the transform, in order. */
  function Transform(x: seq<Cx>, ex: seq<Cx>, dilate: nat): (y: seq<Cx>)
    requires |ex| > 0
    ensures |y| == |x|
  {
    seq(|x|, j => Bin(x, ex, dilate, j))
  }

  /** The direct transform: a double loop over bins and samples. */
  method DFT(data: seq<Cx>, result: array<Cx>, n: nat, ex: seq<Cx>)
    requires |data| == n == |ex| && n <= result.Length
    modifies result
    ensures n > 0 ==> result[..n] == Transform(data, ex, 1)
    ensures result[n..] == old(result[n..])
  {
    hide Mul, Sum;
    for j := 0 to n
      invariant n > 0 ==> forall i :: 0 <= i < j ==> result[i] == Bin(data, ex, 1, i)
      invariant result[n..] == old(result[n..])
    {
      result[j] := ZERO;
      SumSteps(data, ex, j, 0);
      for k := 0 to n
        invariant forall i :: 0 <= i < j ==> result[i] == Bin(data, ex, 1, i)
        invariant result[j] == Sum(Terms(data, ex, 1, j)[..k])
        invariant result[n..] == old(result[n..])
      {
        var m := (j * k) % n;
        var c, s := ex[m].re, ex[m].im;
        SumSteps(data, ex, j, k);
        ghost var product := Mul(data[k], ex[m]);
        assert product == Cx(data[k].re * c - data[k].im * s, data[k].re * s + data[k].im * c) by {
          MulParts(data[k], ex[m]);
        }
        result[j] := result[j].(re := result[j].re + (data[k].re * c - data[k].im * s));
        result[j] := result[j].(im := result[j].im + (data[k].re * s + data[k].im * c));
      }
      assert Terms(data, ex, 1, j)[..n] == Terms(data, ex, 1, j);
    }
  }

  lemma MulParts(a: Cx, b: Cx)
    ensures Mul(a, b) == Cx(a.re * b.re - a.im * b.im, a.re * b.im + a.im * b.re)
  {
  }

  lemma SumSteps(data: seq<Cx>, ex: seq<Cx>, j: nat, k: nat)
    requires |data| == |ex| > 0
    ensures Sum(Terms(data, ex, 1, j)[..0]) == ZERO
    ensures k < |data| ==>
      Sum(Terms(data, ex, 1, j)[..k + 1]) == Add(Sum(Terms(data, ex, 1, j)[..k]), Mul(data[k], ex[(j * k) % |ex|]))
  {
    var t := Terms(data, ex, 1, j);
    if k < |data| {
      assert t[..k + 1][..k] == t[..k];
      assert j * k * 1 == j * k;
    }
  }

  /** What the butterflies make of the first half of a block. */
  function Evens(y: seq<Cx>): seq<Cx>
    requires |y| % 2 == 0
  {
    var h := |y| / 2;
    seq(h, k requires 0 <= k < h => Add(y[k], y[k + h]))
  }

  /** What the butterflies make of the second half of a block. */
  function Odds(y: seq<Cx>, ex: seq<Cx>, dilate: nat): seq<Cx>
    requires |y| % 2 == 0 && |ex| > 0
  {
    var h := |y| / 2;
    seq(h, k requires 0 <= k < h => Mul(Sub(y[k], y[k + h]), W(ex, k * dilate)))
  }

  /** Even bins are the transform of the folded sums, odd bins that of the twiddled differences. */
  lemma SplitInFrequency(y: seq<Cx>, ex: seq<Cx>, dilate: nat, j: int, odd: bool)
    requires |ex| > 0 && RootTable(ex) && |y| % 2 == 0 && |y| * dilate == |ex|
    ensures Bin(y, ex, dilate, 2 * j + if odd then 1 else 0)
         == Bin(if odd then Odds(y, ex, dilate) else Evens(y), ex, 2 * dilate, j)
  {
    var t := Terms(y, ex, dilate, 2 * j + if odd then 1 else 0);
    var u := Terms(if odd then Odds(y, ex, dilate) else Evens(y), ex, 2 * dilate, j);
    FoldedTerms(y, ex, dilate, j, odd, |y| / 2, t, u);
    SumFolded(t, u, |y| / 2);
  }

  lemma SumFolded(t: seq<Cx>, u: seq<Cx>, h: nat)
    requires |u| == h && |t| == 2 * h && forall k :: 0 <= k < h ==> u[k] == Add(t[k], t[k + h])
    ensures Sum(t) == Sum(u)
  {
    hide Sum, Add;
    SumZip(t[..h], t[h..], u);
    SumConcat(t[..h], t[h..]);
    assert t == t[..h] + t[h..];
  }

  lemma FoldedTerms(y: seq<Cx>, ex: seq<Cx>, dilate: nat, j: int, odd: bool, h: nat, t: seq<Cx>, u: seq<Cx>)
    requires |ex| > 0 && RootTable(ex) && |y| == 2 * h && |y| * dilate == |ex|
    requires t == Terms(y, ex, dilate, 2 * j + if odd then 1 else 0)
    requires u == Terms(if odd then Odds(y, ex, dilate) else Evens(y), ex, 2 * dilate, j)
    ensures |u| == h && |t| == 2 * h && forall k :: 0 <= k < h ==> u[k] == Add(t[k], t[k + h])
  {
    hide Mul, W, RootTable, Add;
    forall k | 0 <= k < h ensures u[k] == Add(t[k], t[k + h]) {
      FoldedTerm(y[k], y[k + h], ex, dilate, j, odd, h, k);
    }
  }

  lemma FoldedTerm(a: Cx, b: Cx, ex: seq<Cx>, dilate: nat, j: int, odd: bool, h: nat, k: nat)
    requires |ex| > 0 && RootTable(ex) && (2 * h) * dilate == |ex|
    ensures Add(Mul(a, W(ex, (2 * j + if odd then 1 else 0) * k * dilate)),
                Mul(b, W(ex, (2 * j + if odd then 1 else 0) * (k + h) * dilate)))
         == Mul(if odd then Mul(Sub(a, b), W(ex, k * dilate)) else Add(a, b), W(ex, j * k * (2 * dilate)))
  {
    hide Mul, W, RootTable;
    var e := if odd then 1 else 0;
    var w, v := W(ex, j * k * (2 * dilate)), W(ex, k * dilate);
    var near, far := (2 * j + e) * k * dilate, (2 * j + e) * (k + h) * dilate;
    assert 2 * (h * dilate) == |ex|;
    TwiddleExponents(j, k, e, h, dilate);
    assert far == near + e * (h * dilate) + |ex| * j;
    WPeriod(ex, near + e * (h * dilate), j);
    if odd {
      WAdd(ex, j * k * (2 * dilate), k * dilate);
      WHalf(ex, h * dilate);
      WAdd(ex, near, h * dilate);
      MulNeg(W(ex, near), ONE);
      MulOne(W(ex, near));
      MulNeg(b, W(ex, near));
      MulAssoc(Sub(a, b), v, w);
      MulComm(v, w);
      MulAdd(a, b, W(ex, near));
    } else {
      MulAdd(a, b, w);
    }
  }

  lemma TwiddleExponents(j: int, k: int, e: int, h: int, d: int)
    ensures (2 * j + e) * k * d == j * k * (2 * d) + e * (k * d)
    ensures (2 * j + e) * (k + h) * d == (2 * j + e) * k * d + e * (h * d) + 2 * (h * d) * j
  {
    assert (2 * j + e) * k == 2 * (j * k) + e * k;
    assert (2 * (j * k) + e * k) * d == 2 * (j * k) * d + e * k * d;
    assert (2 * j + e) * (k + h) == (2 * j + e) * k + 2 * j * h + e * h;
    assert ((2 * j + e) * k + 2 * j * h + e * h) * d == (2 * j + e) * k * d + 2 * j * h * d + e * h * d;
  }

  lemma SingleBin(a: Cx, ex: seq<Cx>, d: nat)
    requires RootTable(ex)
    ensures Bin([a], ex, d, 0) == a
  {
    var t := Terms([a], ex, d, 0);
    assert 0 * 0 * d == 0;
    assert t[0] == Mul(a, W(ex, 0 * 0 * d)) == a by { MulOne(a); }
    assert Sum(t) == Add(Sum(t[..0]), t[0]);
  }
}
