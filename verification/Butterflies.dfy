/** Decimation in frequency: what one pass of butterflies, and a run of such passes, computes. */
module Butterflies {
  import opened Complex
  import opened BitReversal
  import opened Dft
  import opened Passes

  /** Sum and twiddled difference of two partners. */
  function Twiddled(ex: seq<Cx>, d: nat): Combine<Cx>
    requires |ex| > 0
  {
    (o, a, b) => (Add(a, b), Mul(Sub(a, b), W(ex, o * d)))
  }

  lemma BlockOfPass(s0: seq<Cx>, s: seq<Cx>, m: nat, h: nat, ex: seq<Cx>, d: nat, b: nat, odd: bool)
    requires |ex| > 0 && Passed(s0, s, m, h, Twiddled(ex, d)) && b < m
    requires |s0| == |s| == m * (2 * h) == (2 * m) * h
    ensures Block(s, 2 * b + if odd then 1 else 0, h, 2 * m)
         == if odd then Odds(Block(s0, b, 2 * h, m), ex, d) else Evens(Block(s0, b, 2 * h, m))
  {
    hide Mul, Add, Sub, W, Block, Passed;
    var y := Block(s, 2 * b + if odd then 1 else 0, h, 2 * m);
    var y0 := Block(s0, b, 2 * h, m);
    forall o | 0 <= o < h ensures y[o] == if odd then Odds(y0, ex, d)[o] else Evens(y0)[o] {
      PassedBlock(s0, s, m, h, Twiddled(ex, d), b, o);
    }
  }

  /** The bin of the whole transform that is bin j of block b. */
  function BinOf(level: nat, b: nat, j: nat): nat { j * Pow2(level) + Rev(level, b) }

  function Spread(level: nat, d: nat): nat { Pow2(level) * d }

  /** After level passes, block b of s transforms to the bins of x that are Rev(b) modulo 2^level. */
  ghost predicate Reduced(x: seq<Cx>, s: seq<Cx>, ex: seq<Cx>, d: nat, level: nat, len: nat) {
    && |ex| > 0
    && |x| == |s| == Pow2(level) * len
    && forall b, j :: 0 <= b < Pow2(level) && 0 <= j < len ==> ReducedBin(x, s, ex, d, level, len, b, j)
  }

  ghost predicate ReducedBin(x: seq<Cx>, s: seq<Cx>, ex: seq<Cx>, d: nat, level: nat, len: nat, b: nat, j: nat)
    requires |ex| > 0 && |s| == Pow2(level) * len && b < Pow2(level)
  {
    Bin(Block(s, b, len, Pow2(level)), ex, Spread(level, d), j) == Bin(x, ex, d, BinOf(level, b, j))
  }

  lemma ReducedStart(x: seq<Cx>, ex: seq<Cx>, d: nat)
    requires |ex| > 0
    ensures Reduced(x, x, ex, d, 0, |x|)
  {
    assert Block(x, 0, |x|, 1) == x;
  }

  lemma ReducedPass(x: seq<Cx>, s0: seq<Cx>, s: seq<Cx>, ex: seq<Cx>, d: nat, level: nat, h: nat)
    requires |ex| > 0 && RootTable(ex) && |x| * d == |ex|
    requires Reduced(x, s0, ex, d, level, 2 * h)
    requires Passed(s0, s, Pow2(level), h, Twiddled(ex, Pow2(level) * d))
    ensures Reduced(x, s, ex, d, level + 1, h)
  {
    hide Passed, Twiddled, RootTable, ReducedBin, Rev;
    var m, next := Pow2(level), level + 1;
    assert |s| == |s0| == Pow2(next) * h by { PassedSize(s0, s, m, h, Twiddled(ex, m * d)); }
    forall c: nat, j: nat | c < Pow2(next) && j < h ensures ReducedBin(x, s, ex, d, next, h, c, j) {
      assert ReducedBin(x, s0, ex, d, level, 2 * h, c / 2, 2 * j + c % 2);
      ReducedPassBin(x, s0, s, ex, d, level, m, h, c / 2, c % 2 == 1, j);
    }
  }

  lemma PassedSize(s0: seq<Cx>, s: seq<Cx>, m: nat, h: nat, f: Combine<Cx>)
    requires Passed(s0, s, m, h, f)
    ensures |s0| == |s| == (2 * m) * h
  {
    assert m * (2 * h) == (2 * m) * h;
  }

  lemma ReducedPassBin(x: seq<Cx>, s0: seq<Cx>, s: seq<Cx>, ex: seq<Cx>, d: nat, level: nat, m: nat, h: nat,
                       b: nat, odd: bool, j: nat)
    requires |ex| > 0 && RootTable(ex) && |x| * d == |ex| && |x| == |s0|
    requires m == Pow2(level) && b < m && |s0| == m * (2 * h) && |s| == Pow2(level + 1) * h
    requires ReducedBin(x, s0, ex, d, level, 2 * h, b, 2 * j + if odd then 1 else 0)
    requires Passed(s0, s, m, h, Twiddled(ex, m * d))
    ensures ReducedBin(x, s, ex, d, level + 1, h, 2 * b + if odd then 1 else 0, j)
  {
    hide Bin, Block, Odds, Evens, RootTable, Passed, Twiddled, Rev, Pow2, BinOf, Spread;
    var e := if odd then 1 else 0;
    SpreadNext(level, m, h, d, |ex|);
    BlockOfPass(s0, s, m, h, ex, Spread(level, d), b, odd);
    SplitInFrequency(Block(s0, b, 2 * h, m), ex, Spread(level, d), j, odd);
    BinOfNext(level, b, e, j);
  }

  lemma SpreadNext(level: nat, m: nat, h: nat, d: nat, size: nat)
    requires m == Pow2(level) && (m * (2 * h)) * d == size
    ensures Spread(level, d) == m * d && Spread(level + 1, d) == 2 * Spread(level, d)
    ensures (2 * h) * Spread(level, d) == size && Pow2(level + 1) == 2 * m
  {
    assert (m * (2 * h)) * d == (2 * h) * (m * d);
  }

  lemma BinOfNext(level: nat, b: nat, e: nat, j: nat)
    requires e <= 1
    ensures BinOf(level, b, 2 * j + e) == BinOf(level + 1, 2 * b + e, j)
  {
    RevDouble(level, b, e);
    TwiceSplit(j, e, Pow2(level));
  }

  lemma RevDouble(level: nat, b: nat, e: nat)
    requires e <= 1
    ensures Rev(level + 1, 2 * b + e) == (if e == 1 then Pow2(level) else 0) + Rev(level, b)
  {
    assert (2 * b + e) % 2 == e && (2 * b + e) / 2 == b;
  }

  lemma TwiceSplit(j: nat, e: nat, p: nat)
    ensures (2 * j + e) * p == j * (2 * p) + e * p
  {
  }

  /** Once blocks are single cells, cell b holds bin Rev(b): mirroring the cells leaves the transform. */
  lemma ReducedDone(x: seq<Cx>, s: seq<Cx>, ex: seq<Cx>, d: nat, level: nat)
    requires |ex| > 0 && RootTable(ex) && Reduced(x, s, ex, d, level, 1)
    ensures Reversed(level, s) == Transform(x, ex, d)
  {
    hide Bin, RootTable, Rev, Pow2, Spread;
    forall i | 0 <= i < |s| ensures Reversed(level, s)[i] == Bin(x, ex, d, i) {
      var b := Rev(level, i);
      RevInvolution(level, i);
      assert ReducedBin(x, s, ex, d, level, 1, b, 0);
      SingleBin(s[b], ex, Spread(level, d));
      assert Block(s, b, 1, Pow2(level)) == [s[b]];
    }
  }
}
