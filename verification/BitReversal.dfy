/** Powers of two and the bit reversal of an index, with the two loops that generate it. */
module BitReversal {
  import opened Arith

  function Pow2(n: nat): (p: nat)
    ensures p >= 1
  {
    if n == 0 then 1 else 2 * Pow2(n - 1)
  }

  lemma {:induction false} Pow2Add(a: nat, b: nat)
    ensures Pow2(a + b) == Pow2(a) * Pow2(b)
  {
    if a != 0 {
      Pow2Add(a - 1, b);
      assert Pow2(a + b) == 2 * Pow2(a - 1 + b);
      assert 2 * (Pow2(a - 1) * Pow2(b)) == Pow2(a) * Pow2(b);
    }
  }

  lemma {:induction false} Pow2Monotone(a: nat, b: nat)
    requires a < b
    ensures 2 * Pow2(a) <= Pow2(b)
  {
    if a + 1 < b { Pow2Monotone(a, b - 1); }
  }

  /** The number whose bits-wide binary notation is that of i read backwards. */
  function Rev(bits: nat, i: nat): (r: nat)
    ensures r < Pow2(bits)
  {
    if bits == 0 then 0 else (if i % 2 == 1 then Pow2(bits - 1) else 0) + Rev(bits - 1, i / 2)
  }

  lemma {:induction false} RevTop(bits: nat, i: nat)
    requires i < Pow2(bits)
    ensures Rev(bits + 1, i) == 2 * Rev(bits, i)
    ensures Rev(bits + 1, i + Pow2(bits)) == 2 * Rev(bits, i) + 1
  {
    if bits == 0 {
      assert Rev(1, 1) == 1 + Rev(0, 0);
    } else {
      RevTop(bits - 1, i / 2);
      var p := Pow2(bits - 1);
      assert (i + Pow2(bits)) % 2 == i % 2 && (i + Pow2(bits)) / 2 == i / 2 + p;
    }
  }

  /** Reversing twice changes nothing. */
  lemma {:induction false} RevInvolution(bits: nat, i: nat)
    requires i < Pow2(bits)
    ensures Rev(bits, Rev(bits, i)) == i
  {
    if bits != 0 {
      RevInvolution(bits - 1, i / 2);
      RevTop(bits - 1, Rev(bits - 1, i / 2));
    }
  }

  lemma {:induction false} RevZero(bits: nat)
    ensures Rev(bits, 0) == 0
    ensures Rev(bits, Pow2(bits) - 1) == Pow2(bits) - 1
  {
    if bits != 0 {
      RevZero(bits - 1);
      assert (Pow2(bits) - 1) % 2 == 1 && (Pow2(bits) - 1) / 2 == Pow2(bits - 1) - 1;
    }
  }

  /** Swapping cell i with its mirror for every i below the bound leaves exactly the mirrored cells. */
  ghost predicate SwappedBelow<T>(bits: nat, before: seq<T>, now: seq<T>, i: nat) {
    && |before| == |now| == Pow2(bits)
    && forall a :: 0 <= a < |now| ==>
         now[a] == if a < i || Rev(bits, a) < i then before[Rev(bits, a)] else before[a]
  }

  /** The sequence in bit-reversed order. */
  function Reversed<T>(bits: nat, s: seq<T>): (r: seq<T>)
    requires |s| == Pow2(bits)
    ensures |r| == |s|
  {
    seq(|s|, i requires 0 <= i < |s| => s[Rev(bits, i)])
  }

  lemma ReversedTwice<T>(bits: nat, s: seq<T>)
    requires |s| == Pow2(bits)
    ensures Reversed(bits, Reversed(bits, s)) == s
  {
    forall i | 0 <= i < |s| ensures Reversed(bits, Reversed(bits, s))[i] == s[i] {
      RevInvolution(bits, i);
    }
  }

  lemma SwapStep<T>(bits: nat, before: seq<T>, now: seq<T>, i: nat, next: seq<T>)
    requires SwappedBelow(bits, before, now, i) && i < |now|
    requires next == if i < Rev(bits, i) then now[Rev(bits, i) := now[i]][i := now[Rev(bits, i)]] else now
    ensures SwappedBelow(bits, before, next, i + 1)
  {
    hide Rev, Pow2;
    forall a | 0 <= a < |now|
      ensures next[a] == if a < i + 1 || Rev(bits, a) < i + 1 then before[Rev(bits, a)] else before[a]
    {
      RevInvolution(bits, a);
      RevInvolution(bits, i);
    }
  }

  lemma SwapDone<T>(bits: nat, before: seq<T>, now: seq<T>, i: nat)
    requires SwappedBelow(bits, before, now, i) && i + 1 >= Pow2(bits)
    ensures now == Reversed(bits, before)
  {
    RevZero(bits);
    forall a | 0 <= a < |now| ensures now[a] == before[Rev(bits, a)] {
      RevInvolution(bits, a);
    }
  }

  /** How the reversal of a counter and of its successor split on the lowest bit. */
  lemma RevNext(b: nat, c: nat)
    requires b > 0 && c + 1 < Pow2(b)
    ensures c % 2 == 1 ==> b > 1 && c / 2 + 1 < Pow2(b - 1) == 2 * Pow2(b - 2)
    ensures c % 2 == 1 ==> Rev(b, c) == Pow2(b - 1) + Rev(b - 1, c / 2) && Rev(b, c + 1) == Rev(b - 1, c / 2 + 1)
    ensures c % 2 == 0 ==> Rev(b, c) < Pow2(b - 1) && Rev(b, c + 1) == Rev(b, c) + Pow2(b - 1)
  {
    assert (c + 1) / 2 == if c % 2 == 1 then c / 2 + 1 else c / 2;
  }

  lemma FirstBit(bits: nat, n: nat)
    requires n == Pow2(bits) && n > 1
    ensures bits > 0 && n == 2 * Pow2(bits - 1)
  {
  }

  /** One step of the carry-ripple counter: strip the leading ones, then set the bit below them.
      It turns the reversal of i into the reversal of i + 1. */
  method RippleCarry(ghost bits: nat, ghost i: nat, n: nat, j0: nat) returns (j: nat)
    requires n == Pow2(bits) && i + 1 < n && j0 == Rev(bits, i)
    ensures j == Rev(bits, i + 1)
  {
    j := j0;
    var k := n / 2;
    ghost var b: nat, c: nat := bits, i;
    while k <= j
      invariant 0 < b && k == Pow2(b - 1) && c + 1 < Pow2(b)
      invariant j == Rev(b, c) && Rev(bits, i + 1) == Rev(b, c + 1)
      decreases j
    {
      RevNext(b, c);
      j := j - k;
      k := k / 2;
      b, c := b - 1, c / 2;
    }
    RevNext(b, c);
    j := j + k;
  }

  /** One step of the top-down counter: find the highest clear bit, set it and clear those above.
      It too turns the reversal of i into the reversal of i + 1. */
  method HighestClear(ghost bits: nat, ghost i: nat, n: nat, mr0: nat) returns (mr: nat)
    requires n == Pow2(bits) && i + 1 < n && mr0 == Rev(bits, i)
    ensures mr == Rev(bits, i + 1)
  {
    var l := n / 2;
    ghost var b: nat, c: nat := bits, i;
    DivMod(n, 1, 0, n);
    FirstBit(bits, n);
    hide Pow2, Rev;
    while mr0 + l > n - 1
      invariant 0 < b && l == Pow2(b - 1) && c + 1 < Pow2(b) && n >= 2 * l
      invariant mr0 == n - 2 * l + Rev(b, c) && Rev(bits, i + 1) == Rev(b, c + 1)
      invariant n % (2 * l) == 0
      decreases l
    {
      RevNext(b, c);
      HalfDivides(n, l);
      l := l / 2;
      b, c := b - 1, c / 2;
    }
    RevNext(b, c);
    HalfDivides(n, l);
    TopBits(n, l, Rev(b, c));
    mr := mr0 % l + l;
    assert mr == Rev(b, c) + l;
  }

  lemma HalfDivides(n: nat, l: nat)
    requires l > 0 && n % (2 * l) == 0
    ensures n % l == 0
  {
    var q := n / (2 * l);
    assert n == (2 * l) * q == l * (2 * q);
    DivMod(n, 2 * q, 0, l);
  }

  lemma TopBits(n: nat, l: nat, r: nat)
    requires l > 0 && n % l == 0 && r < l && n >= 2 * l
    ensures (n - 2 * l + r) % l == r
  {
    var q := n / l;
    assert n - 2 * l + r == l * (q - 2) + r;
    DivMod(n - 2 * l + r, q - 2, r, l);
  }
}
