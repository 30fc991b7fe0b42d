/** The external heap as its layout: blocks that tile it in address order, used or free. */
module HeapLayout {

  /** The size of a block structure, which is also the smallest block. */
  const MIN_FREEBLOCK_SZ := 20

  datatype Block = Block(offset: nat, used: bool)

  datatype Heap = Heap(cells: seq<Block>, total: nat)

  function End(h: Heap, i: nat): nat
    requires i < |h.cells|
  {
    if i + 1 < |h.cells| then h.cells[i + 1].offset else h.total
  }

  function Size(h: Heap, i: nat): int
    requires i < |h.cells|
  {
    End(h, i) - h.cells[i].offset
  }

  predicate CellOk(h: Heap, i: nat)
    requires i < |h.cells|
  {
    && Size(h, i) >= MIN_FREEBLOCK_SZ
    && (i + 1 < |h.cells| ==> h.cells[i].used || h.cells[i + 1].used)
  }

  /** Blocks tile the heap, none is too small, and no two neighbours are free. */
  ghost predicate WellFormed(h: Heap) {
    && (h.cells == [] ==> h.total == 0)
    && (h.cells != [] ==> h.cells[0].offset == 0)
    && forall i {:trigger CellOk(h, i)} :: 0 <= i < |h.cells| ==> CellOk(h, i)
  }

  predicate Fits(h: Heap, i: nat, size: nat)
    requires i < |h.cells|
  {
    !h.cells[i].used && Size(h, i) >= size
  }

  /** The lowest free block from index i on that is big enough; the number of blocks if there is none. */
  function FirstFit(h: Heap, size: nat, i: nat): (r: nat)
    requires i <= |h.cells|
    ensures i <= r <= |h.cells|
    ensures r < |h.cells| ==> Fits(h, r, size)
    ensures forall j :: i <= j < r ==> !Fits(h, j, size)
    decreases |h.cells| - i
  {
    if i == |h.cells| || Fits(h, i, size) then i else FirstFit(h, size, i + 1)
  }

  /** The highest free block below index i that is big enough; the number of blocks if there is none. */
  function LastFit(h: Heap, size: nat, i: nat): (r: nat)
    requires i <= |h.cells|
    ensures r < i || r == |h.cells|
    ensures r < |h.cells| ==> Fits(h, r, size) && forall j :: r < j < i ==> !Fits(h, j, size)
    ensures r == |h.cells| ==> forall j :: 0 <= j < i ==> !Fits(h, j, size)
  {
    if i == 0 then |h.cells| else if Fits(h, i - 1, size) then i - 1 else LastFit(h, size, i - 1)
  }

  function Choice(h: Heap, size: nat, small: nat): (r: nat)
    ensures r <= |h.cells|
  {
    if size < small then LastFit(h, size, |h.cells|) else FirstFit(h, size, 0)
  }

  /** Does the block go entirely to the request? */
  predicate Whole(h: Heap, i: nat, size: nat)
    requires i < |h.cells|
  {
    Size(h, i) - size < MIN_FREEBLOCK_SZ
  }

  /** Block i gives room to the request: all of it, its upper end to a small one, its lower end to a large one. */
  function Carve(h: Heap, i: nat, size: nat, small: nat): Heap
    requires i < |h.cells| && Size(h, i) >= size
  {
    var off := h.cells[i].offset;
    if Whole(h, i, size) then h.(cells := h.cells[i := Block(off, true)])
    else if size < small then
      h.(cells := h.cells[..i] + [Block(off, false), Block(End(h, i) - size, true)] + h.cells[i + 1..])
    else
      h.(cells := h.cells[..i] + [Block(off, true), Block(off + size, false)] + h.cells[i + 1..])
  }

  /** Where the request ends up. */
  function Given(h: Heap, i: nat, size: nat, small: nat): nat
    requires i < |h.cells|
  {
    if !Whole(h, i, size) && size < small then i + 1 else i
  }

  /** The total that growing asks for. */
  function Wanted(h: Heap, size: nat): nat {
    if h.cells == [] || h.cells[|h.cells| - 1].used then h.total + size else h.cells[|h.cells| - 1].offset + size
  }

  /** Growing asks for room at the end; answer is the total that is granted. */
  function Grown(h: Heap, answer: nat): Heap {
    if h.cells == [] || h.cells[|h.cells| - 1].used then Heap(h.cells + [Block(h.total, false)], answer)
    else h.(total := answer)
  }

  /** Is there enough room at the end after growing? */
  predicate GrowsEnough(h: Heap, size: nat, answer: nat) {
    if h.cells == [] || h.cells[|h.cells| - 1].used then answer - h.total >= size
    else answer - h.cells[|h.cells| - 1].offset >= size
  }

  /** A growth that is too small is forgotten, unless it has already widened a free block at the end. */
  function GrowthRefused(h: Heap, answer: nat): Heap {
    if h.cells == [] || h.cells[|h.cells| - 1].used then h else h.(total := answer)
  }

  function Clamp(size: nat): nat { if size < MIN_FREEBLOCK_SZ then MIN_FREEBLOCK_SZ else size }

  datatype Outcome = Failed(heap: Heap) | Allocated(heap: Heap, index: nat)

  function Alloc(h: Heap, request: nat, small: nat, answer: nat): Outcome {
    var size := Clamp(request);
    var i := Choice(h, size, small);
    if i < |h.cells| then Allocated(Carve(h, i, size, small), Given(h, i, size, small))
    else if GrowsEnough(h, size, answer) then
      var g := Grown(h, answer);
      Allocated(Carve(g, |g.cells| - 1, size, small), Given(g, |g.cells| - 1, size, small))
    else Failed(GrowthRefused(h, answer))
  }

  predicate FreeBefore(h: Heap, i: nat)
    requires i < |h.cells|
  {
    i > 0 && !h.cells[i - 1].used
  }

  predicate FreeAfter(h: Heap, i: nat)
    requires i < |h.cells|
  {
    i + 1 < |h.cells| && !h.cells[i + 1].used
  }

  /** Block i is given back and joins its free neighbours. */
  function Free(h: Heap, i: nat): Heap
    requires i < |h.cells|
  {
    var off := h.cells[i].offset;
    if FreeBefore(h, i) then
      if FreeAfter(h, i) then h.(cells := h.cells[..i] + h.cells[i + 2..])
      else h.(cells := h.cells[..i] + h.cells[i + 1..])
    else if FreeAfter(h, i) then h.(cells := h.cells[..i] + [Block(off, false)] + h.cells[i + 2..])
    else h.(cells := h.cells[i := Block(off, false)])
  }

  // ----- the invariant

  lemma CarveWellFormed(h: Heap, i: nat, size: nat, small: nat)
    requires WellFormed(h) && i < |h.cells| && Fits(h, i, size) && size >= MIN_FREEBLOCK_SZ
    ensures WellFormed(Carve(h, i, size, small))
  {
    var g := Carve(h, i, size, small);
    var more := if Whole(h, i, size) then 0 else 1;
    forall j | 0 <= j < |g.cells| ensures CellOk(g, j) {
      var o := if j <= i then j else j - more;
      assert CellOk(h, o);
      if o > 0 { assert CellOk(h, o - 1); }
      if i > 0 { assert CellOk(h, i - 1); }
      assert CellOk(h, i);
    }
  }

  lemma GrownWellFormed(h: Heap, size: nat, answer: nat)
    requires WellFormed(h) && GrowsEnough(h, size, answer) && size >= MIN_FREEBLOCK_SZ
    ensures WellFormed(Grown(h, answer)) && Grown(h, answer).cells != []
    ensures Fits(Grown(h, answer), |Grown(h, answer).cells| - 1, size)
  {
    var g := Grown(h, answer);
    forall j | 0 <= j < |g.cells| ensures CellOk(g, j) {
      if j < |h.cells| { assert CellOk(h, j); }
    }
  }

  lemma RefusedWellFormed(h: Heap, answer: nat)
    requires WellFormed(h) && answer >= h.total
    ensures WellFormed(GrowthRefused(h, answer))
  {
    var g := GrowthRefused(h, answer);
    forall j | 0 <= j < |g.cells| ensures CellOk(g, j) { assert CellOk(h, j); }
  }

  /** Every allocation keeps the heap well formed, granted or not. */
  lemma AllocWellFormed(h: Heap, request: nat, small: nat, answer: nat)
    requires WellFormed(h) && answer >= h.total
    ensures WellFormed(Alloc(h, request, small, answer).heap)
  {
    hide WellFormed, Carve, Grown, GrowsEnough, GrowthRefused, Choice, Fits;
    var size := Clamp(request);
    var i := Choice(h, size, small);
    ChoiceFits(h, size, small);
    if i < |h.cells| {
      CarveWellFormed(h, i, size, small);
    } else if GrowsEnough(h, size, answer) {
      GrownWellFormed(h, size, answer);
      CarveWellFormed(Grown(h, answer), |Grown(h, answer).cells| - 1, size, small);
    } else {
      RefusedWellFormed(h, answer);
    }
  }

  /** Every release keeps the heap well formed. */
  lemma FreeWellFormed(h: Heap, i: nat)
    requires WellFormed(h) && i < |h.cells| && h.cells[i].used
    ensures WellFormed(Free(h, i))
  {
    var g := Free(h, i);
    var less := |h.cells| - |g.cells|;
    forall j | 0 <= j < |g.cells| ensures CellOk(g, j) {
      var o := if j < i then j else j + less;
      assert CellOk(h, o);
      assert CellOk(h, i);
      if i > 0 { assert CellOk(h, i - 1); }
      if i + 1 < |h.cells| { assert CellOk(h, i + 1); }
      if j + 1 < |h.cells| { assert CellOk(h, j + 1); }
    }
  }

  // ----- what is chosen, and when allocation fails

  /** Small requests take the highest free block that fits, large ones the lowest; none is missed. */
  lemma ChoiceFits(h: Heap, size: nat, small: nat)
    ensures var i := Choice(h, size, small);
      (i == |h.cells| <==> forall j :: 0 <= j < |h.cells| ==> !Fits(h, j, size))
      && (i < |h.cells| ==> Fits(h, i, size))
      && (i < |h.cells| && size < small ==> forall j :: i < j < |h.cells| ==> !Fits(h, j, size))
      && (size >= small ==> forall j :: 0 <= j < i ==> !Fits(h, j, size))
  {
  }

  /** Where the last of the first n blocks that is used ends; 0 if none is. */
  function UsedEnd(h: Heap, n: nat): nat
    requires n <= |h.cells|
  {
    if n == 0 then 0 else if h.cells[n - 1].used then End(h, n - 1) else UsedEnd(h, n - 1)
  }

  /** What growing has to go on from, and ask for: everything behind the last used block is free already. */
  lemma GrowsFrom(h: Heap, size: nat, answer: nat)
    requires WellFormed(h)
    ensures Wanted(h, size) == UsedEnd(h, |h.cells|) + size
    ensures GrowsEnough(h, size, answer) <==> answer - UsedEnd(h, |h.cells|) >= size
  {
    var n := |h.cells|;
    if n > 0 { assert CellOk(h, n - 1); }
    if n > 1 { assert CellOk(h, n - 2); }
  }

  /** Allocation fails exactly when no free block fits, and what is granted ends less than the size asked for, or than
      that of a block structure, behind the last used block. */
  lemma FailsExactly(h: Heap, request: nat, small: nat, answer: nat)
    requires WellFormed(h)
    ensures Alloc(h, request, small, answer).Failed? <==>
      (forall j :: 0 <= j < |h.cells| ==> !Fits(h, j, Clamp(request)))
      && answer - UsedEnd(h, |h.cells|) < Clamp(request)
  {
    ChoiceFits(h, Clamp(request), small);
    GrowsFrom(h, Clamp(request), answer);
  }

  /** Where memory never runs out no allocation fails. */
  lemma GenerousNeverFails(h: Heap, request: nat, small: nat, sbrk: nat -> nat)
    requires WellFormed(h) && forall total :: sbrk(total) >= total
    ensures Alloc(h, request, small, sbrk(Wanted(h, Clamp(request)))).Allocated?
  {
    GrowsFrom(h, Clamp(request), sbrk(Wanted(h, Clamp(request))));
  }

  /** Where a block is when the heap had to grow: directly behind the last used one, or at the upper end of all that was
      granted when the request is small and leaves a block over. */
  lemma GrownPlace(h: Heap, request: nat, small: nat, answer: nat)
    requires WellFormed(h) && answer >= UsedEnd(h, |h.cells|) + Clamp(request)
    requires forall j :: 0 <= j < |h.cells| ==> !Fits(h, j, Clamp(request))
    ensures var o, e, size := Alloc(h, request, small, answer), UsedEnd(h, |h.cells|), Clamp(request);
      o.Allocated? && o.heap.total == answer && o.index < |o.heap.cells| && o.heap.cells[o.index].used
      && o.heap.cells[o.index].offset
         == if size < small && answer - e - size >= MIN_FREEBLOCK_SZ then answer - size else e
  {
    var size := Clamp(request);
    ChoiceFits(h, size, small);
    GrowsFrom(h, size, answer);
    var n, g := |h.cells|, Grown(h, answer);
    if n > 0 { assert CellOk(h, n - 1); }
    if n > 1 { assert CellOk(h, n - 2); }
    hide WellFormed, Choice;
    assert g.cells[|g.cells| - 1] == Block(UsedEnd(h, n), false) && g.total == answer;
    LastCarved(g, size, small);
  }

  lemma LastCarved(g: Heap, size: nat, small: nat)
    requires g.cells != [] && Fits(g, |g.cells| - 1, size)
    ensures var i := |g.cells| - 1;
      var o, k, off := Carve(g, i, size, small), Given(g, i, size, small), g.cells[i].offset;
      o.total == g.total && k < |o.cells| && o.cells[k].used
      && o.cells[k].offset == if size < small && g.total - off - size >= MIN_FREEBLOCK_SZ then g.total - size else off
  {
  }

  /** A failed allocation changes no block. What was granted in vain is kept exactly if the heap ends in a free
      block. */
  lemma FailedLeaves(h: Heap, request: nat, small: nat, answer: nat)
    requires WellFormed(h) && Alloc(h, request, small, answer).Failed?
    ensures var g := Alloc(h, request, small, answer).heap;
      g.cells == h.cells && g.total == if UsedEnd(h, |h.cells|) < h.total then answer else h.total
  {
    var n := |h.cells|;
    if n > 0 { assert CellOk(h, n - 1); }
    if n > 1 { assert CellOk(h, n - 2); }
  }

  /** The first texture: the heap is empty and all the memory is granted at once. */
  lemma FirstTexture()
    ensures var o := Alloc(Heap([], 0), 128, 10240, 4000000);
      o.Allocated? && o.index < |o.heap.cells| && o.heap.cells[o.index].offset == 3999872
  {
    GrownPlace(Heap([], 0), 128, 10240, 4000000);
  }

  // ----- canonicity

  /** Giving back what was carved restores the layout exactly. */
  lemma FreeUndoesCarve(h: Heap, i: nat, size: nat, small: nat)
    requires WellFormed(h) && i < |h.cells| && Fits(h, i, size)
    ensures var g := Carve(h, i, size, small);
      Given(h, i, size, small) < |g.cells| && g.cells[Given(h, i, size, small)].used
      && Free(g, Given(h, i, size, small)) == h
  {
    var g, k := Carve(h, i, size, small), Given(h, i, size, small);
    assert CellOk(h, i);
    if i > 0 { assert CellOk(h, i - 1); }
    assert h.cells == h.cells[..i] + [h.cells[i]] + h.cells[i + 1..];
    if Whole(h, i, size) {
      assert h.cells[i := Block(h.cells[i].offset, true)][i := Block(h.cells[i].offset, false)] == h.cells;
    } else if size < small {
      assert g.cells[..i + 1] == h.cells[..i] + [h.cells[i]] && g.cells[i + 2..] == h.cells[i + 1..];
    } else {
      assert g.cells[..i] == h.cells[..i] && g.cells[i + 2..] == h.cells[i + 1..];
    }
  }

  /** An allocation that did not have to grow, given back, leaves the heap as it was. */
  lemma AllocFreeRestores(h: Heap, request: nat, small: nat, answer: nat)
    requires WellFormed(h) && exists j :: 0 <= j < |h.cells| && Fits(h, j, Clamp(request))
    ensures var o := Alloc(h, request, small, answer);
      o.Allocated? && o.index < |o.heap.cells| && o.heap.cells[o.index].used && Free(o.heap, o.index) == h
  {
    ChoiceFits(h, Clamp(request), small);
    FreeUndoesCarve(h, Choice(h, Clamp(request), small), Clamp(request), small);
  }

  /** One that had to grow leaves the heap with its free end widened. */
  lemma GrownFreeRestores(h: Heap, request: nat, small: nat, answer: nat)
    requires WellFormed(h) && answer >= UsedEnd(h, |h.cells|) + Clamp(request)
    requires forall j :: 0 <= j < |h.cells| ==> !Fits(h, j, Clamp(request))
    ensures var o := Alloc(h, request, small, answer);
      o.Allocated? && o.index < |o.heap.cells| && o.heap.cells[o.index].used
      && Free(o.heap, o.index) == Grown(h, answer)
  {
    ChoiceFits(h, Clamp(request), small);
    GrowsFrom(h, Clamp(request), answer);
    GrownWellFormed(h, Clamp(request), answer);
    var g := Grown(h, answer);
    FreeUndoesCarve(g, |g.cells| - 1, Clamp(request), small);
  }

  // ----- live allocations

  /** A used block at that offset, of that size. */
  ghost predicate Live(h: Heap, offset: nat, size: int) {
    exists i :: LiveAt(h, i, offset, size)
  }

  predicate LiveAt(h: Heap, i: int, offset: nat, size: int) {
    0 <= i < |h.cells| && h.cells[i].used && h.cells[i].offset == offset && Size(h, i) == size
  }

  lemma CarveLive(h: Heap, i: nat, size: nat, small: nat, offset: nat, sz: int)
    requires i < |h.cells| && Fits(h, i, size)
    ensures var g, k := Carve(h, i, size, small), Given(h, i, size, small);
      k < |g.cells| && g.cells[k].used && Size(g, k) >= size
      && (Live(g, offset, sz) <==> Live(h, offset, sz) || (g.cells[k].offset == offset && Size(g, k) == sz))
  {
    var g, k := Carve(h, i, size, small), Given(h, i, size, small);
    var more := if Whole(h, i, size) then 0 else 1;
    CarveGives(h, i, size, small);
    if Live(h, offset, sz) {
      var j :| LiveAt(h, j, offset, sz);
      CarveMoves(h, i, size, small, j);
      assert LiveAt(g, if j < i then j else j + more, offset, sz);
    }
    if g.cells[k].offset == offset && Size(g, k) == sz { assert LiveAt(g, k, offset, sz); }
    if Live(g, offset, sz) {
      var j :| LiveAt(g, j, offset, sz);
      if j != k {
        CarveMoves(h, i, size, small, if j <= i then j else j - more);
        assert LiveAt(h, if j <= i then j else j - more, offset, sz);
      }
    }
  }

  lemma CarveGives(h: Heap, i: nat, size: nat, small: nat)
    requires i < |h.cells| && Fits(h, i, size)
    ensures var g, k := Carve(h, i, size, small), Given(h, i, size, small);
      k < |g.cells| && g.cells[k].used && Size(g, k) >= size
  {
  }

  /** A used block keeps its offset and size while another is carved. */
  lemma CarveMoves(h: Heap, i: nat, size: nat, small: nat, o: nat)
    requires i < |h.cells| && Fits(h, i, size) && o < |h.cells|
    ensures var g, k := Carve(h, i, size, small), Given(h, i, size, small);
      var j := if o < i then o else o + if Whole(h, i, size) then 0 else 1;
      j < |g.cells| && (o != i ==> j != k && g.cells[j].used == h.cells[o].used)
      && (o != i ==> g.cells[j].offset == h.cells[o].offset && Size(g, j) == Size(h, o))
      && (o == i && !Whole(h, i, size) ==> !g.cells[i + i + 1 - k].used)
  {
  }

  lemma GrownLive(h: Heap, answer: nat, offset: nat, sz: int)
    ensures Live(Grown(h, answer), offset, sz) <==> Live(h, offset, sz)
    ensures Live(GrowthRefused(h, answer), offset, sz) <==> Live(h, offset, sz)
  {
    var g, r := Grown(h, answer), GrowthRefused(h, answer);
    if Live(h, offset, sz) {
      var j :| LiveAt(h, j, offset, sz);
      assert LiveAt(g, j, offset, sz) && LiveAt(r, j, offset, sz);
    }
    if Live(g, offset, sz) {
      var j :| LiveAt(g, j, offset, sz);
      assert LiveAt(h, j, offset, sz);
    }
    if Live(r, offset, sz) {
      var j :| LiveAt(r, j, offset, sz);
      assert LiveAt(h, j, offset, sz);
    }
  }

  /** Allocation adds one live block, at least as big as asked for, and leaves every other where and as big as it was;
      a failed one leaves them all. */
  lemma AllocLive(h: Heap, request: nat, small: nat, answer: nat, offset: nat, sz: int)
    requires WellFormed(h)
    ensures var o := Alloc(h, request, small, answer);
      (o.Failed? ==> (Live(o.heap, offset, sz) <==> Live(h, offset, sz)))
      && (o.Allocated? ==> o.index < |o.heap.cells| && Size(o.heap, o.index) >= request)
      && (o.Allocated? ==> (Live(o.heap, offset, sz) <==>
            Live(h, offset, sz) || (o.heap.cells[o.index].offset == offset && Size(o.heap, o.index) == sz)))
  {
    hide WellFormed, Carve, Given, Grown, GrowsEnough, GrowthRefused, Choice, Fits, Live;
    GrownLive(h, answer, offset, sz);
    var size := Clamp(request);
    var i := Choice(h, size, small);
    ChoiceFits(h, size, small);
    if i < |h.cells| {
      CarveLive(h, i, size, small, offset, sz);
    } else if GrowsEnough(h, size, answer) {
      GrownWellFormed(h, size, answer);
      CarveLive(Grown(h, answer), |Grown(h, answer).cells| - 1, size, small, offset, sz);
    }
  }

  lemma {:induction false} OffsetsGrow(h: Heap, i: nat, j: nat)
    requires WellFormed(h) && i < j < |h.cells|
    ensures End(h, i) <= h.cells[j].offset < h.total
    decreases j - i
  {
    if i + 1 < j {
      OffsetsGrow(h, i + 1, j);
      assert CellOk(h, i + 1);
    } else {
      BelowTotal(h, j);
    }
  }

  lemma {:induction false} BelowTotal(h: Heap, j: nat)
    requires WellFormed(h) && j < |h.cells|
    ensures h.cells[j].offset < End(h, j) <= h.total
    decreases |h.cells| - j
  {
    assert CellOk(h, j);
    if j + 1 < |h.cells| { BelowTotal(h, j + 1); }
  }

  /** Two live blocks never overlap, and all of them lie in the heap. */
  lemma LiveDisjoint(h: Heap, i: nat, j: nat)
    requires WellFormed(h) && i < |h.cells| && j < |h.cells| && i != j
    ensures End(h, i) <= h.cells[j].offset || End(h, j) <= h.cells[i].offset
    ensures End(h, i) <= h.total
  {
    if i < j { OffsetsGrow(h, i, j); } else { OffsetsGrow(h, j, i); }
    BelowTotal(h, i);
  }

  /** Giving back removes one live block and leaves every other where and as big as it was. */
  lemma FreeLive(h: Heap, i: nat, offset: nat, sz: int)
    requires WellFormed(h) && i < |h.cells| && h.cells[i].used
    ensures Live(Free(h, i), offset, sz) <==> Live(h, offset, sz) && offset != h.cells[i].offset
  {
    var g := Free(h, i);
    if Live(h, offset, sz) && offset != h.cells[i].offset {
      var j :| LiveAt(h, j, offset, sz);
      FreeMoves(h, i, j);
      assert LiveAt(g, if j < i then j else j - (|h.cells| - |g.cells|), offset, sz);
    }
    if Live(g, offset, sz) {
      var j :| LiveAt(g, j, offset, sz);
      var o := if j < i then j else j + (|h.cells| - |g.cells|);
      FreeMoves(h, i, o);
      assert LiveAt(h, o, offset, sz);
      if o < i { OffsetsGrow(h, o, i); } else { OffsetsGrow(h, i, o); }
      assert CellOk(h, o) && CellOk(h, i);
    }
  }

  /** A used block other than the one given back keeps its offset and size. */
  lemma FreeMoves(h: Heap, i: nat, o: nat)
    requires i < |h.cells| && h.cells[i].used && o < |h.cells|
    ensures var g := Free(h, i);
      var j := if o < i then o else o - (|h.cells| - |g.cells|);
      (o != i && h.cells[o].used ==> LiveAt(g, j, h.cells[o].offset, Size(h, o)))
      && ((o < i || j >= i) && 0 <= j < |g.cells| && g.cells[j].used ==>
            o != i && h.cells[o].used && LiveAt(g, j, h.cells[o].offset, Size(h, o)))
  {
    var g := Free(h, i);
    if FreeBefore(h, i) {
      if FreeAfter(h, i) {
        assert |g.cells| == |h.cells| - 2;
      } else {
        assert |g.cells| == |h.cells| - 1;
      }
    } else if FreeAfter(h, i) {
      assert |g.cells| == |h.cells| - 1;
    } else {
      assert |g.cells| == |h.cells|;
    }
  }

  // ----- runs

  datatype Op = Request(size: nat, answer: nat) | Release(index: nat)

  /** A heap with what its callers hold: the offset of each allocation and the size they asked for. */
  datatype Held = Held(heap: Heap, grants: map<nat, nat>)

  /** One call; a growth never answers with less than there is, and only used blocks are given back. */
  function Step(s: Held, op: Op, small: nat): Held {
    match op
    case Request(size, answer) =>
      var o := Alloc(s.heap, size, small, if answer < s.heap.total then s.heap.total else answer);
      if o.Allocated? && o.index < |o.heap.cells| then Held(o.heap, s.grants[o.heap.cells[o.index].offset := size])
      else Held(o.heap, s.grants)
    case Release(i) =>
      if i < |s.heap.cells| && s.heap.cells[i].used then
        Held(Free(s.heap, i), s.grants - {s.heap.cells[i].offset})
      else s
  }

  function Run(s: Held, ops: seq<Op>, small: nat): Held
    decreases |ops|
  {
    if ops == [] then s else Run(Step(s, ops[0], small), ops[1..], small)
  }

  ghost predicate Backed(h: Heap, offset: nat, request: nat) {
    exists size: int :: Live(h, offset, size) && size >= request
  }

  /** Every grant is a used block at its offset that is at least as big as was asked for. */
  ghost predicate Sound(s: Held) {
    && WellFormed(s.heap)
    && forall o :: o in s.grants ==> Backed(s.heap, o, s.grants[o])
  }

  /** A new allocation is never placed where another is held. */
  lemma AllocFresh(h: Heap, request: nat, small: nat, answer: nat, offset: nat, sz: int)
    requires WellFormed(h) && answer >= h.total && Live(h, offset, sz)
    ensures var o := Alloc(h, request, small, answer);
      o.Allocated? ==> o.index < |o.heap.cells| && o.heap.cells[o.index].offset != offset
  {
    hide WellFormed, Carve, Given, Grown, GrowsEnough, GrowthRefused, Choice, Fits, Live;
    GrownLive(h, answer, offset, sz);
    var size := Clamp(request);
    var i := Choice(h, size, small);
    ChoiceFits(h, size, small);
    if i < |h.cells| {
      CarveFresh(h, i, size, small, offset, sz);
    } else if GrowsEnough(h, size, answer) {
      GrownWellFormed(h, size, answer);
      CarveFresh(Grown(h, answer), |Grown(h, answer).cells| - 1, size, small, offset, sz);
    }
  }

  lemma CarveFresh(h: Heap, i: nat, size: nat, small: nat, offset: nat, sz: int)
    requires WellFormed(h) && i < |h.cells| && Fits(h, i, size) && size >= MIN_FREEBLOCK_SZ && Live(h, offset, sz)
    ensures var g, k := Carve(h, i, size, small), Given(h, i, size, small);
      k < |g.cells| && g.cells[k].offset != offset
  {
    var g, k := Carve(h, i, size, small), Given(h, i, size, small);
    var o: nat :| LiveAt(h, o, offset, sz);
    CarveWellFormed(h, i, size, small);
    CarveGives(h, i, size, small);
    CarveMoves(h, i, size, small, o);
    var j := if o < i then o else o + if Whole(h, i, size) then 0 else 1;
    hide WellFormed, Carve, Given;
    LiveDisjoint(g, j, k);
    CellHolds(g, j);
    CellHolds(g, k);
  }

  lemma CellHolds(h: Heap, i: nat)
    requires WellFormed(h) && i < |h.cells|
    ensures h.cells[i].offset < End(h, i)
  {
    assert CellOk(h, i);
  }

  lemma RequestSound(s: Held, request: nat, answer: nat, small: nat)
    requires Sound(s)
    ensures Sound(Step(s, Request(request, answer), small))
  {
    var h := s.heap;
    var more := if answer < h.total then h.total else answer;
    var o := Alloc(h, request, small, more);
    AllocWellFormed(h, request, small, more);
    AllocLive(h, request, small, more, 0, 0);
    hide WellFormed, Alloc, Live;
    var t := Step(s, Request(request, answer), small);
    forall p | p in t.grants ensures Backed(t.heap, p, t.grants[p]) {
      if o.Allocated? && p == o.heap.cells[o.index].offset {
        AllocLive(h, request, small, more, p, Size(o.heap, o.index));
      } else {
        assert Backed(h, p, s.grants[p]);
        var size :| Live(h, p, size) && size >= s.grants[p];
        AllocLive(h, request, small, more, p, size);
      }
    }
  }

  lemma ReleaseSound(s: Held, i: nat, small: nat)
    requires Sound(s) && i < |s.heap.cells| && s.heap.cells[i].used
    ensures Sound(Step(s, Release(i), small))
  {
    FreeWellFormed(s.heap, i);
    hide WellFormed, Free, Live;
    var t := Step(s, Release(i), small);
    forall p | p in t.grants ensures Backed(t.heap, p, t.grants[p]) {
      assert Backed(s.heap, p, s.grants[p]);
      var size :| Live(s.heap, p, size) && size >= s.grants[p];
      FreeLive(s.heap, i, p, size);
    }
  }

  /** Every run keeps the heap well formed and every allocation that is held at least as big as was asked for. */
  lemma {:induction false} RunSound(s: Held, ops: seq<Op>, small: nat)
    requires Sound(s)
    ensures Sound(Held(Heap([], 0), map[])) && Sound(Run(s, ops, small))
    decreases |ops|
  {
    hide Alloc, Free;
    if ops != [] {
      match ops[0] {
        case Request(size, answer) => RequestSound(s, size, answer, small);
        case Release(i) => if i < |s.heap.cells| && s.heap.cells[i].used { ReleaseSound(s, i, small); }
      }
      RunSound(Step(s, ops[0], small), ops[1..], small);
    }
  }

  /** What two callers hold never overlaps, and all of it lies in the heap. */
  lemma HeldDisjoint(s: Held, o: nat, p: nat)
    requires Sound(s) && o in s.grants && p in s.grants && o < p
    ensures o + s.grants[o] <= p && p + s.grants[p] <= s.heap.total
  {
    assert Backed(s.heap, o, s.grants[o]) && Backed(s.heap, p, s.grants[p]);
    var so :| Live(s.heap, o, so) && so >= s.grants[o];
    var sp :| Live(s.heap, p, sp) && sp >= s.grants[p];
    var i: nat :| LiveAt(s.heap, i, o, so);
    var j: nat :| LiveAt(s.heap, j, p, sp);
    hide WellFormed, Live;
    LiveDisjoint(s.heap, i, j);
    LiveDisjoint(s.heap, j, i);
    CellHolds(s.heap, j);
  }
}
