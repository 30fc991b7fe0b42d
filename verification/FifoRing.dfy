/** Positions on a ring: masked indices and the distances the code computes from them. */
module FifoRing {
  import opened Arith

  /** Masking with size - 1, for a size that is a power of two. */
  function Mask(p: int, size: nat): (i: nat)
    requires size > 0
    ensures i < size
  {
    p % size
  }

  /** The samples between two masked indices. */
  function Used(r: nat, w: nat, size: nat): nat
    requires size > 0
  {
    Mask(w - r, size)
  }

  /** The room between them; one sample is never used. */
  function Free(k: nat, w: nat, size: nat): nat
    requires size > 0
  {
    Mask(k - w + (size - 1), size)
  }

  /** Masked indices less than a ring apart determine the distance of the positions. */
  lemma UsedIs(p: nat, q: nat, size: nat)
    requires size > 0 && 0 <= q - p < size
    ensures Used(Mask(p, size), Mask(q, size), size) == q - p
  {
    Division(p, size);
    Division(q, size);
    var a, b := p / size, q / size;
    assert size * (a - b) == size * a - size * b;
    DivMod(q % size - p % size, a - b, q - p, size);
  }

  /** The room is what the samples leave of the ring, less one. */
  lemma FreeIs(k: nat, w: nat, size: nat)
    requires size > 0 && 0 <= w - k < size
    ensures Free(Mask(k, size), Mask(w, size), size) == size - 1 - (w - k)
  {
    Division(k, size);
    Division(w, size);
    var a, b := k / size, w / size;
    assert size * (b - a) == size * b - size * a;
    DivMod(k % size - w % size + (size - 1), b - a, size - 1 - (w - k), size);
  }

  /** Advancing a masked index. */
  lemma Advance(p: nat, n: nat, size: nat)
    requires size > 0
    ensures Mask(Mask(p, size) + n, size) == Mask(p + n, size)
  {
    Division(p, size);
    Division(p + n, size);
    var a, b := p / size, (p + n) / size;
    assert size * (b - a) == size * b - size * a;
    DivMod(p % size + n, b - a, (p + n) % size, size);
  }

  /** Where position p + i lies: further on, or round the end. */
  lemma Along(p: nat, i: nat, size: nat)
    requires size > 0 && i <= size
    ensures Mask(p + i, size) == if Mask(p, size) + i < size then Mask(p, size) + i else Mask(p, size) + i - size
  {
    Division(p, size);
    var a := p / size;
    var m := Mask(p, size);
    if m + i < size {
      DivMod(p + i, a, m + i, size);
    } else {
      assert size * (a + 1) == size * a + size;
      DivMod(p + i, a + 1, m + i - size, size);
    }
  }

  /** Positions less than a ring apart have different indices. */
  lemma Different(p: nat, q: nat, size: nat)
    requires size > 0 && 0 < q - p < size
    ensures Mask(p, size) != Mask(q, size)
  {
    UsedIs(p, q, size);
  }

  /** The samples from position from up to position to, as the ring holds them. */
  ghost predicate Holds(ring: seq<int>, hist: seq<int>, from: nat, to: nat) {
    |ring| > 0 && to <= |hist|
    && forall i {:trigger hist[i]} :: from <= i < to ==> ring[Mask(i, |ring|)] == hist[i]
  }

  /** Writing the cell of a position less than a ring ahead keeps what is held, and extends it when it is the next. */
  lemma WriteAhead(ring: seq<int>, hist: seq<int>, from: nat, to: nat, p: nat, x: int)
    requires Holds(ring, hist, from, to) && from <= to <= p < from + |ring|
    ensures Holds(ring[Mask(p, |ring|) := x], hist, from, to)
    ensures p == to < |hist| && hist[p] == x ==> Holds(ring[Mask(p, |ring|) := x], hist, from, p + 1)
  {
    forall i | from <= i < to ensures Mask(i, |ring|) != Mask(p, |ring|) { Different(i, p, |ring|); }
  }

  /** The first of the two segments that n samples from an index take. */
  function First(at: nat, n: nat, size: nat): nat
    requires at <= size
  {
    if size - at > n then n else size - at
  }

  /** The cell of the j-th of n samples from position p. */
  lemma CellOf(p: nat, n: nat, size: nat, j: nat)
    requires size > 0 && j < n < size
    ensures var at := Mask(p, size);
      Mask(p + j, size) == if j < First(at, n, size) then at + j else j - First(at, n, size)
  {
    Along(p, j, size);
  }

  /** The n cells from position p hold none of the samples less than a ring before p + n. */
  lemma CellKept(from: nat, p: nat, n: nat, size: nat, i: nat)
    requires size > 0 && from <= i < p && p + n < from + size
    ensures var at, f := Mask(p, size), First(Mask(p, size), n, size);
      !(at <= Mask(i, size) < at + f) && !(0 <= Mask(i, size) < n - f)
  {
    var at, f, c := Mask(p, size), First(Mask(p, size), n, size), Mask(i, size);
    if at <= c < at + f {
      CellOf(p, n, size, c - at);
      Different(i, p + (c - at), size);
    } else if c < n - f {
      CellOf(p, n, size, f + c);
      Different(i, p + (f + c), size);
    }
  }
}
