/** One pass over an array cut into m blocks of 2h cells: cell o of the first half of every block
    is combined with its partner h cells on. The passes of both transforms have this shape. */
module Passes {
  import opened Arith

  /** What a pass makes of offset o and the two partners. */
  type Combine<!T> = (nat, T, T) -> (T, T)

  /** Cell o of block b, when blocks have len cells. */
  function At(b: nat, o: nat, len: nat): nat { b * len + o }

  lemma AtBound(b: nat, o: nat, len: nat, m: nat)
    requires b < m && o < len
    ensures At(b, o, len) < m * len
  {
    MulGap(len, m, b);
  }

  lemma AtUnique(b: nat, o: nat, b': nat, o': nat, len: nat)
    requires o < len && o' < len && At(b, o, len) == At(b', o', len)
    ensures b == b' && o == o'
  {
    QuotRem(len, b, o, b', o');
  }

  lemma AtHalves(b: nat, o: nat, h: nat)
    ensures At(2 * b, o, h) == At(b, o, 2 * h)
    ensures At(2 * b + 1, o, h) == At(b, o, 2 * h) + h == At(b, o + h, 2 * h)
  {
  }

  lemma AtNext(t: nat, j: nat, n1: nat)
    ensures At(t + 1, j, n1) == At(t, j, n1) + n1 && At(0, j, n1) == j
  {
  }

  function Block<T>(s: seq<T>, b: nat, len: nat, m: nat): (r: seq<T>)
    requires |s| == m * len && b < m
    ensures |r| == len
  {
    MulGap(len, m, b);
    s[b * len..b * len + len]
  }

  lemma BlockAt<T>(s: seq<T>, b: nat, len: nat, m: nat, o: nat)
    requires |s| == m * len && b < m && o < len
    ensures At(b, o, len) < |s| && Block(s, b, len, m)[o] == s[At(b, o, len)]
  {
    MulGap(len, m, b);
  }

  ghost predicate Untouched<T>(s0: seq<T>, s: seq<T>, h: nat, b: nat, o: nat) {
    && At(b, o, 2 * h) + h < |s0| == |s|
    && s[At(b, o, 2 * h)] == s0[At(b, o, 2 * h)]
    && s[At(b, o, 2 * h) + h] == s0[At(b, o, 2 * h) + h]
  }

  ghost predicate Combined<T>(s0: seq<T>, s: seq<T>, h: nat, f: Combine<T>, b: nat, o: nat) {
    && At(b, o, 2 * h) + h < |s0| == |s|
    && (s[At(b, o, 2 * h)], s[At(b, o, 2 * h) + h]) == f(o, s0[At(b, o, 2 * h)], s0[At(b, o, 2 * h) + h])
  }

  /** A pass over m blocks of 2h cells that has done all offsets below j, and offset j of t blocks. */
  ghost predicate Partial<T>(s0: seq<T>, s: seq<T>, m: nat, h: nat, f: Combine<T>, j: nat, t: nat) {
    && |s0| == |s| == m * (2 * h)
    && forall b, o :: 0 <= b < m && 0 <= o < h ==>
         if o < j || (o == j && b < t) then Combined(s0, s, h, f, b, o) else Untouched(s0, s, h, b, o)
  }

  /** The whole pass. */
  ghost predicate Passed<T>(s0: seq<T>, s: seq<T>, m: nat, h: nat, f: Combine<T>) {
    && |s0| == |s| == m * (2 * h)
    && forall b, o :: 0 <= b < m && 0 <= o < h ==> Combined(s0, s, h, f, b, o)
  }

  lemma PartialStart<T>(s: seq<T>, m: nat, h: nat, f: Combine<T>)
    requires |s| == m * (2 * h)
    ensures Partial(s, s, m, h, f, 0, 0)
  {
    forall b, o | 0 <= b < m && 0 <= o < h ensures Untouched(s, s, h, b, o) {
      AtBound(b, o + h, 2 * h, m);
    }
  }

  lemma PartialStep<T>(s0: seq<T>, s: seq<T>, m: nat, h: nat, f: Combine<T>, j: nat, t: nat,
                       i: nat, p: nat, next: seq<T>)
    requires Partial(s0, s, m, h, f, j, t) && j < h && t < m
    requires i == At(t, j, 2 * h) && p == i + h < |s|
    requires next == s[i := f(j, s[i], s[p]).0][p := f(j, s[i], s[p]).1]
    ensures Partial(s0, next, m, h, f, j, t + 1)
  {
    assert Untouched(s0, s, h, t, j);
    forall b, o | 0 <= b < m && 0 <= o < h
      ensures if o < j || (o == j && b < t + 1) then Combined(s0, next, h, f, b, o)
              else Untouched(s0, next, h, b, o)
    {
      if b == t && o == j {
      } else {
        PairsDiffer(b, o, t, j, h);
        assert Combined(s0, s, h, f, b, o) || Untouched(s0, s, h, b, o);
      }
    }
  }

  lemma PairsDiffer(b: nat, o: nat, t: nat, j: nat, h: nat)
    requires o < h && j < h && (b != t || o != j)
    ensures At(b, o, 2 * h) != At(t, j, 2 * h) && At(b, o, 2 * h) + h != At(t, j, 2 * h)
    ensures At(b, o, 2 * h) != At(t, j, 2 * h) + h
  {
    hide At;
    AtHalves(b, o, h);
    AtHalves(t, j, h);
    if At(b, o, 2 * h) == At(t, j, 2 * h) { AtUnique(b, o, t, j, 2 * h); }
    if At(b, o + h, 2 * h) == At(t, j, 2 * h) { AtUnique(b, o + h, t, j, 2 * h); }
    if At(b, o, 2 * h) == At(t, j + h, 2 * h) { AtUnique(b, o, t, j + h, 2 * h); }
  }

  lemma PartialNextOffset<T>(s0: seq<T>, s: seq<T>, m: nat, h: nat, f: Combine<T>, j: nat)
    requires Partial(s0, s, m, h, f, j, m)
    ensures Partial(s0, s, m, h, f, j + 1, 0)
  {
    hide Combined, Untouched;
  }

  lemma PartialDone<T>(s0: seq<T>, s: seq<T>, m: nat, h: nat, f: Combine<T>)
    requires Partial(s0, s, m, h, f, h, 0)
    ensures Passed(s0, s, m, h, f)
  {
    hide Combined, Untouched;
  }

  /** The two halves of a block after the pass, cell by cell. */
  lemma PassedBlock<T>(s0: seq<T>, s: seq<T>, m: nat, h: nat, f: Combine<T>, b: nat, o: nat)
    requires Passed(s0, s, m, h, f) && b < m && o < h
    ensures |s0| == |s| == m * (2 * h) == (2 * m) * h
    ensures var y0 := Block(s0, b, 2 * h, m);
      (Block(s, 2 * b, h, 2 * m)[o], Block(s, 2 * b + 1, h, 2 * m)[o]) == f(o, y0[o], y0[o + h])
    ensures (Block(s, b, 2 * h, m)[o], Block(s, b, 2 * h, m)[o + h])
         == f(o, Block(s0, 2 * b, h, 2 * m)[o], Block(s0, 2 * b + 1, h, 2 * m)[o])
  {
    hide Block, At;
    assert m * (2 * h) == (2 * m) * h;
    assert Combined(s0, s, h, f, b, o);
    AtHalves(b, o, h);
    BlockAt(s0, b, 2 * h, m, o);
    BlockAt(s0, b, 2 * h, m, o + h);
    BlockAt(s, b, 2 * h, m, o);
    BlockAt(s, b, 2 * h, m, o + h);
    BlockAt(s, 2 * b, h, 2 * m, o);
    BlockAt(s, 2 * b + 1, h, 2 * m, o);
    BlockAt(s0, 2 * b, h, 2 * m, o);
    BlockAt(s0, 2 * b + 1, h, 2 * m, o);
  }

  /** The result of a pass as a function of what was there before. */
  function PassOf<T>(s0: seq<T>, h: nat, f: Combine<T>): (s: seq<T>)
    requires h > 0 && |s0| % (2 * h) == 0
    ensures |s| == |s0|
  {
    seq(|s0|, i requires 0 <= i < |s0| => PassedCell(s0, h, f, i))
  }

  function PassedCell<T>(s0: seq<T>, h: nat, f: Combine<T>, i: nat): T
    requires h > 0 && |s0| % (2 * h) == 0 && i < |s0|
  {
    var o := i % (2 * h);
    PartnerInRange(|s0|, h, 2 * h, i);
    if o < h then f(o, s0[i], s0[i + h]).0 else f(o - h, s0[i - h], s0[i]).1
  }

  lemma PartnerInRange(n: nat, h: nat, len: nat, i: nat)
    requires h > 0 && len == 2 * h && n % len == 0 && i < n
    ensures i % len < h ==> i + h < n
    ensures i % len >= h ==> i >= h
    ensures 0 <= i / len < n / len
    ensures i == At(i / len, i % len, len)
  {
    hide At;
    var m, b, r := n / len, i / len, i % len;
    assert n == len * m by { Division(n, len); }
    assert i == len * b + r && 0 <= r < len by { Division(i, len); }
    CellInBlock(n, h, len, m, i, b, r);
  }

  lemma CellInBlock(n: nat, h: nat, len: nat, m: int, i: nat, b: int, r: int)
    requires n == len * m && i == len * b + r && 0 <= r < len == 2 * h && i < n
    ensures 0 <= b < m && i == At(b, r, len) && i >= r && (r < h ==> i + h < n)
  {
    if b >= m { MulOrder(len, m, b); }
    if b < 0 { MulOrder(len, b, -1); }
    MulOrder(len, b + 1, m);
    MulOrder(len, 0, b);
    assert len * (b + 1) == len * b + len;
  }

  lemma PassedIsPassOf<T>(s0: seq<T>, s: seq<T>, m: nat, h: nat, f: Combine<T>)
    requires h > 0 && Passed(s0, s, m, h, f)
    ensures |s0| % (2 * h) == 0 && s == PassOf(s0, h, f)
  {
    DivMod(|s0|, m, 0, 2 * h);
    forall i: nat | i < |s0| ensures s[i] == PassedCell(s0, h, f, i) {
      PartnerInRange(|s0|, h, 2 * h, i);
      var b, o := i / (2 * h), i % (2 * h);
      assert Combined(s0, s, h, f, b, if o < h then o else o - h);
      AtHalves(b, if o < h then o else o - h, h);
    }
  }

  lemma PassOfPassed<T>(s0: seq<T>, m: nat, h: nat, f: Combine<T>)
    requires h > 0 && |s0| == m * (2 * h)
    ensures |s0| % (2 * h) == 0 && Passed(s0, PassOf(s0, h, f), m, h, f)
  {
    DivMod(|s0|, m, 0, 2 * h);
    var s := PassOf(s0, h, f);
    forall b, o | 0 <= b < m && 0 <= o < h ensures Combined(s0, s, h, f, b, o) {
      AtBound(b, o + h, 2 * h, m);
      DivMod(At(b, o, 2 * h), b, o, 2 * h);
      DivMod(At(b, o, 2 * h) + h, b, o + h, 2 * h);
    }
  }

  lemma PairInRange(t: nat, j: nat, m: nat, h: nat, n: nat)
    requires n == m * (2 * h) && j < h && t <= m && At(t, j, 2 * h) < n
    ensures t < m && At(t, j, 2 * h) + h < n
  {
    if t < m { AtBound(t, j + h, 2 * h, m); }
  }

  lemma LastBlock(t: nat, j: nat, m: nat, n1: nat, n: nat)
    requires n == m * n1 && j < n1 && t <= m && At(t, j, n1) >= n
    ensures t == m
  {
    if t < m { AtBound(t, j, n1, m); }
  }
}
