/** The external heap as the code runs it: a list of block structures in address order, the list of the free ones,
    and the structures themselves in an explicit memory. */
module ExHeapClass {
  import opened Common
  import opened HeapLayout

  type Ptr = nat
  type Blocks = map<Ptr, Block>

  // ----- lists of pointers

  function Index(s: seq<Ptr>, p: Ptr): (i: nat)
    ensures i <= |s| && (i < |s| ==> s[i] == p) && (p in s <==> i < |s|)
  {
    if s == [] || s[0] == p then 0 else 1 + Index(s[1..], p)
  }

  lemma {:induction false} IndexIs(s: seq<Ptr>, i: nat)
    requires Distinct(s) && i < |s|
    ensures Index(s, s[i]) == i
  {
    if i > 0 { IndexIs(s[1..], i - 1); }
  }

  function Remove(s: seq<Ptr>, p: Ptr): seq<Ptr> {
    if p in s then s[..Index(s, p)] + s[Index(s, p) + 1..] else s
  }

  function InsertBefore(s: seq<Ptr>, p: Ptr, q: Ptr): seq<Ptr> { s[..Index(s, p)] + [q] + s[Index(s, p)..] }

  function InsertAfter(s: seq<Ptr>, p: Ptr, q: Ptr): seq<Ptr> {
    if p in s then s[..Index(s, p) + 1] + [q] + s[Index(s, p) + 1..] else s
  }

  /** The element before p; p itself if there is none. */
  function Before(s: seq<Ptr>, p: Ptr): Ptr {
    if Index(s, p) == 0 then p else s[Index(s, p) - 1]
  }

  lemma Slices(pre: seq<Ptr>, p: Ptr, post: seq<Ptr>)
    ensures var s := pre + [p] + post;
      s[..|pre|] == pre && s[|pre| + 1..] == post && s[|pre|..] == [p] + post
      && s[..|pre| + 1] == pre + [p] && s[|pre|] == p
  {
  }

  lemma AroundIndex(pre: seq<Ptr>, p: Ptr, post: seq<Ptr>)
    requires Distinct(pre + [p] + post)
    ensures Index(pre + [p] + post, p) == |pre| && p in pre + [p] + post
    ensures var s := pre + [p] + post;
      s[..|pre|] == pre && s[|pre| + 1..] == post && s[|pre|..] == [p] + post && s[..|pre| + 1] == pre + [p]
  {
    hide Distinct, Index;
    Slices(pre, p, post);
    IndexIs(pre + [p] + post, |pre|);
  }

  lemma Around(pre: seq<Ptr>, p: Ptr, post: seq<Ptr>, q: Ptr)
    requires Distinct(pre + [p] + post)
    ensures Index(pre + [p] + post, p) == |pre| && p in pre + [p] + post
    ensures Remove(pre + [p] + post, p) == pre + post
    ensures InsertBefore(pre + [p] + post, p, q) == pre + [q, p] + post
    ensures InsertAfter(pre + [p] + post, p, q) == pre + [p, q] + post
  {
    hide Distinct, Index;
    AroundIndex(pre, p, post);
    assert pre + [q] + ([p] + post) == pre + [q, p] + post;
    assert (pre + [p]) + [q] + post == pre + [p, q] + post;
  }

  // ----- the free blocks of a list

  function FreeOf(s: seq<Ptr>, m: Blocks): seq<Ptr> {
    if s == [] then [] else (if s[0] in m && !m[s[0]].used then [s[0]] else []) + FreeOf(s[1..], m)
  }

  lemma {:induction false} FreeOfConcat(s: seq<Ptr>, t: seq<Ptr>, m: Blocks)
    ensures FreeOf(s + t, m) == FreeOf(s, m) + FreeOf(t, m)
  {
    if s == [] {
      assert s + t == t;
    } else {
      assert (s + t)[1..] == s[1..] + t;
      FreeOfConcat(s[1..], t, m);
    }
  }

  lemma {:induction false} FreeOfSame(s: seq<Ptr>, m: Blocks, m': Blocks)
    requires forall p :: p in s ==> (p in m && !m[p].used <==> p in m' && !m'[p].used)
    ensures FreeOf(s, m) == FreeOf(s, m')
  {
    if s != [] { FreeOfSame(s[1..], m, m'); }
  }

  lemma {:induction false} FreeOfIn(s: seq<Ptr>, m: Blocks)
    ensures forall p :: p in FreeOf(s, m) <==> p in s && p in m && !m[p].used
  {
    if s != [] { FreeOfIn(s[1..], m); }
  }

  lemma {:induction false} FreeOfDistinct(s: seq<Ptr>, m: Blocks)
    requires Distinct(s)
    ensures Distinct(FreeOf(s, m))
  {
    if s != [] {
      FreeOfDistinct(s[1..], m);
      FreeOfIn(s[1..], m);
    }
  }

  /** The last free block of a list. */
  lemma {:induction false} LastFree(s: seq<Ptr>, n: nat, m: Blocks)
    requires n < |s| && s[n] in m
    requires forall j :: n < j < |s| ==> s[j] in m && m[s[j]].used
    ensures FreeOf(s, m) == FreeOf(s[..n], m) + (if m[s[n]].used then [] else [s[n]])
    decreases n
  {
    if n == 0 {
      UsedOnly(s[1..], m);
    } else {
      assert s[1..][..n - 1] == s[..n][1..];
      LastFree(s[1..], n - 1, m);
    }
  }

  lemma {:induction false} UsedOnly(s: seq<Ptr>, m: Blocks)
    requires forall j :: 0 <= j < |s| ==> s[j] in m && m[s[j]].used
    ensures FreeOf(s, m) == []
  {
    if s != [] { UsedOnly(s[1..], m); }
  }

  lemma FreeOfSplit(pre: seq<Ptr>, b: Ptr, post: seq<Ptr>, m: Blocks)
    ensures FreeOf(pre + [b] + post, m)
         == FreeOf(pre, m) + (if b in m && !m[b].used then [b] else []) + FreeOf(post, m)
  {
    FreeOfConcat(pre + [b], post, m);
    FreeOfConcat(pre, [b], m);
    assert [b][1..] == [];
  }

  // ----- the layout

  function Cells(s: seq<Ptr>, m: Blocks): (c: seq<Block>)
    requires forall p :: p in s ==> p in m
    ensures |c| == |s|
  {
    seq(|s|, i requires 0 <= i < |s| => m[s[i]])
  }

  /** A heap structure: the two lists, the block structures, the size, and the two parameters. */
  datatype Lists = Lists(list: seq<Ptr>, free: seq<Ptr>, blocks: Blocks, total: nat)

  ghost predicate Linked(x: Lists) {
    && Distinct(x.list)
    && (forall p :: p in x.list <==> p in x.blocks)
    && x.free == FreeOf(x.list, x.blocks)
  }

  function Layout(x: Lists): Heap
    requires Linked(x)
  {
    Heap(Cells(x.list, x.blocks), x.total)
  }

  ghost predicate Valid(x: Lists) { Linked(x) && WellFormed(Layout(x)) }

  /** The parts of the lists around a block. */
  lemma Parts(x: Lists, b: Ptr) returns (pre: seq<Ptr>, post: seq<Ptr>)
    requires Linked(x) && b in x.list
    ensures x.list == pre + [b] + post && |pre| == Index(x.list, b)
    ensures x.free == FreeOf(pre, x.blocks) + (if !x.blocks[b].used then [b] else []) + FreeOf(post, x.blocks)
    ensures forall p :: p in pre || p in post ==> p in x.blocks && p != b
    ensures Distinct(x.free)
  {
    var i := Index(x.list, b);
    pre, post := x.list[..i], x.list[i + 1..];
    SplitAt(x.list, i);
    FreeOfDistinct(x.list, x.blocks);
    FreeOfSplit(pre, b, post, x.blocks);
    hide FreeOf, Index;
    forall p | p in pre || p in post ensures p in x.blocks && p != b {
      ElementOf(x.list, i, p);
    }
  }

  lemma SplitAt(s: seq<Ptr>, i: nat)
    requires i < |s|
    ensures s == s[..i] + [s[i]] + s[i + 1..]
  {
  }

  lemma ElementOf(s: seq<Ptr>, i: nat, p: Ptr)
    requires Distinct(s) && i < |s| && (p in s[..i] || p in s[i + 1..])
    ensures p in s && p != s[i]
  {
    if p in s[..i] {
      var j: nat :| j < i && s[..i][j] == p;
      assert s[j] == p;
    } else {
      var j: nat :| j < |s| - i - 1 && s[i + 1..][j] == p;
      assert s[i + 1 + j] == p;
    }
  }

  // ----- rebuilding the middle of a list

  /** The new middle has new pointers only. */
  ghost predicate NewMiddle(pre: seq<Ptr>, mid: seq<Ptr>, post: seq<Ptr>) {
    Distinct(mid) && forall p :: p in mid ==> p !in pre && p !in post
  }

  lemma RebuiltDistinct(pre: seq<Ptr>, mid: seq<Ptr>, post: seq<Ptr>, mid': seq<Ptr>)
    requires Distinct(pre + mid + post) && NewMiddle(pre, mid', post)
    ensures Distinct(pre + mid' + post)
  {
    var x, s := pre + mid + post, pre + mid' + post;
    forall i, j | 0 <= i < j < |s| ensures s[i] != s[j] {
      var i' := if i < |pre| then i else i - |mid'| + |mid|;
      var j' := if j < |pre| then j else j - |mid'| + |mid|;
      if |pre| <= i < |pre| + |mid'| {
        assert s[i] == mid'[i - |pre|] && s[i] in mid';
        if j < |pre| + |mid'| { assert s[j] == mid'[j - |pre|]; } else { assert s[j] in post; }
      } else if |pre| <= j < |pre| + |mid'| {
        assert s[j] == mid'[j - |pre|] && s[j] in mid' && s[i] in pre;
      } else {
        assert s[i] == x[i'] && s[j] == x[j'];
      }
    }
  }

  lemma RebuiltCells(pre: seq<Ptr>, mid: seq<Ptr>, post: seq<Ptr>, m: Blocks)
    requires forall p :: p in pre || p in mid || p in post ==> p in m
    ensures forall p :: p in pre + mid + post ==> p in m
    ensures Cells(pre + mid + post, m) == Cells(pre, m) + Cells(mid, m) + Cells(post, m)
  {
  }

  lemma CellsSame(s: seq<Ptr>, m: Blocks, m': Blocks)
    requires forall p :: p in s ==> p in m && p in m' && m'[p] == m[p]
    ensures Cells(s, m') == Cells(s, m)
  {
  }

  /** Rebuilding the middle of a list keeps it linked. */
  lemma Rebuilt(x: Lists, pre: seq<Ptr>, mid: seq<Ptr>, post: seq<Ptr>, mid': seq<Ptr>, m: Blocks, total: nat)
    returns (y: Lists)
    requires Linked(x) && x.list == pre + mid + post && NewMiddle(pre, mid', post)
    requires forall p :: p in m <==> p in pre || p in mid' || p in post
    requires forall p :: p in pre || p in post ==> p in x.blocks && m[p] == x.blocks[p]
    ensures y == Lists(pre + mid' + post, FreeOf(pre, x.blocks) + FreeOf(mid', m) + FreeOf(post, x.blocks), m, total)
    ensures Linked(y) && Layout(y) == Heap(Cells(pre, x.blocks) + Cells(mid', m) + Cells(post, x.blocks), total)
  {
    y := Lists(pre + mid' + post, FreeOf(pre, x.blocks) + FreeOf(mid', m) + FreeOf(post, x.blocks), m, total);
    RebuiltDistinct(pre, mid, post, mid');
    hide Distinct;
    FreeOfConcat(pre + mid', post, m);
    FreeOfConcat(pre, mid', m);
    FreeOfSame(pre, x.blocks, m);
    FreeOfSame(post, x.blocks, m);
    CellsSame(pre, x.blocks, m);
    CellsSame(post, x.blocks, m);
    hide Cells, FreeOf;
    RebuiltCells(pre, mid', post, m);
  }

  lemma CellsAt(x: Lists, pre: seq<Ptr>, mid: seq<Ptr>, post: seq<Ptr>)
    requires Linked(x) && x.list == pre + mid + post
    ensures forall p :: p in pre || p in mid || p in post ==> p in x.blocks
    ensures Layout(x).cells == Cells(pre, x.blocks) + Cells(mid, x.blocks) + Cells(post, x.blocks)
  {
    hide Distinct, FreeOf;
    forall p | p in pre || p in mid || p in post ensures p in x.blocks { assert p in pre + mid + post; }
    RebuiltCells(pre, mid, post, x.blocks);
  }

  // ----- the free list follows the address order

  function SizeOf(x: Lists, b: Ptr): int
    requires forall p :: p in x.list ==> p in x.blocks
    requires b in x.list
  {
    var i := Index(x.list, b);
    (if i + 1 < |x.list| then x.blocks[x.list[i + 1]].offset else x.total) - x.blocks[b].offset
  }

  lemma SizeOfIs(x: Lists, i: nat)
    requires Linked(x) && i < |x.list|
    ensures x.list[i] in x.list && SizeOf(x, x.list[i]) == Size(Layout(x), i)
  {
    IndexIs(x.list, i);
  }

  lemma LayoutLength(x: Lists)
    requires Linked(x)
    ensures |Layout(x).cells| == |x.list| && Layout(x).total == x.total
  {
  }

  lemma CellIs(x: Lists, i: nat)
    requires Linked(x) && i < |x.list|
    ensures x.list[i] in x.blocks && Layout(x).cells[i] == x.blocks[x.list[i]]
  {
    assert x.list[i] in x.list;
  }

  lemma SizeOfNext(x: Lists, b: Ptr)
    requires Linked(x) && b in x.list
    ensures b in x.blocks && Index(x.list, b) < |x.list|
    ensures var next := Index(x.list, b) + 1;
      (next < |x.list| ==>
        x.list[next] in x.blocks && SizeOf(x, b) == x.blocks[x.list[next]].offset - x.blocks[b].offset)
      && (next == |x.list| ==> SizeOf(x, b) == x.total - x.blocks[b].offset)
  {
  }

  lemma NotHere(x: Lists, g: nat, size: nat)
    requires Linked(x) && g < |x.free| && x.free[g] in x.list && SizeOf(x, x.free[g]) < size
    ensures TooSmall(x, g, size)
  {
  }

  ghost predicate TooSmall(x: Lists, g: nat, size: nat)
    requires Linked(x) && g < |x.free|
  {
    x.free[g] in x.list && SizeOf(x, x.free[g]) < size
  }

  /** The free blocks below a free block come before it in the free list. */
  lemma OrderedBelow(x: Lists, f: nat, j: nat) returns (g: nat)
    requires Linked(x) && f < |x.free| && j < |x.list| && x.list[j] in x.blocks && !x.blocks[x.list[j]].used
    requires x.free[f] in x.list && j < Index(x.list, x.free[f])
    ensures g < f && x.free[g] == x.list[j]
  {
    FreeListed(x, f);
    hide Distinct, Linked, Index, FreeOf;
    var b := x.free[f];
    var pre, post := FreeParts(x, b);
    var fp, fq := FreeOf(pre, x.blocks), FreeOf(post, x.blocks);
    Middle(fp, b, fq, f);
    ElementAt(pre, b, post, j);
    g := Listed(pre, x.blocks, j);
    ElementAt(fp, b, fq, g);
  }

  /** The free blocks above it come after it. */
  lemma OrderedAbove(x: Lists, f: nat, j: nat) returns (g: nat)
    requires Linked(x) && f < |x.free| && j < |x.list| && x.list[j] in x.blocks && !x.blocks[x.list[j]].used
    requires x.free[f] in x.list && j > Index(x.list, x.free[f])
    ensures f < g < |x.free| && x.free[g] == x.list[j]
  {
    FreeListed(x, f);
    hide Distinct, Linked, Index, FreeOf;
    var b := x.free[f];
    var pre, post := FreeParts(x, b);
    var fp, fq := FreeOf(pre, x.blocks), FreeOf(post, x.blocks);
    Middle(fp, b, fq, f);
    g := AboveIn(pre, b, post, x.blocks, j);
  }

  lemma AboveIn(pre: seq<Ptr>, b: Ptr, post: seq<Ptr>, m: Blocks, j: nat) returns (g: nat)
    requires |pre| < j < |pre| + 1 + |post| && (pre + [b] + post)[j] in m && !m[(pre + [b] + post)[j]].used
    ensures var free := FreeOf(pre, m) + [b] + FreeOf(post, m);
      |FreeOf(pre, m)| < g < |free| && free[g] == (pre + [b] + post)[j]
  {
    hide FreeOf;
    AfterMiddle(pre, b, post, j);
    var k := Listed(post, m, j - |pre| - 1);
    g := |FreeOf(pre, m)| + 1 + k;
    AfterMiddle(FreeOf(pre, m), b, FreeOf(post, m), g);
  }

  lemma AfterMiddle(pre: seq<Ptr>, b: Ptr, post: seq<Ptr>, j: nat)
    requires |pre| < j < |pre| + 1 + |post|
    ensures (pre + [b] + post)[j] == post[j - |pre| - 1]
  {
  }

  lemma FreeParts(x: Lists, b: Ptr) returns (pre: seq<Ptr>, post: seq<Ptr>)
    requires Linked(x) && b in x.list && b in x.blocks && !x.blocks[b].used
    ensures x.list == pre + [b] + post && |pre| == Index(x.list, b)
    ensures x.free == FreeOf(pre, x.blocks) + [b] + FreeOf(post, x.blocks) && Distinct(x.free)
  {
    pre, post := Parts(x, b);
  }

  lemma ElementAt(pre: seq<Ptr>, b: Ptr, post: seq<Ptr>, j: nat)
    requires j < |pre| + 1 + |post|
    ensures (pre + [b] + post)[j] == if j < |pre| then pre[j] else if j == |pre| then b else post[j - |pre| - 1]
  {
  }

  lemma Middle(fp: seq<Ptr>, b: Ptr, fq: seq<Ptr>, f: nat)
    requires Distinct(fp + [b] + fq) && f < |fp + [b] + fq| && (fp + [b] + fq)[f] == b
    ensures f == |fp|
  {
    assert (fp + [b] + fq)[|fp|] == b;
  }

  lemma Listed(s: seq<Ptr>, m: Blocks, j: nat) returns (g: nat)
    requires j < |s| && s[j] in m && !m[s[j]].used
    ensures g < |FreeOf(s, m)| && FreeOf(s, m)[g] == s[j]
  {
    FreeOfIn(s, m);
    assert s[j] in FreeOf(s, m);
    g :| g < |FreeOf(s, m)| && FreeOf(s, m)[g] == s[j];
  }

  lemma FreeListed(x: Lists, f: nat)
    requires Linked(x) && f < |x.free|
    ensures x.free[f] in x.list && x.free[f] in x.blocks && !x.blocks[x.free[f]].used
    ensures Index(x.list, x.free[f]) < |x.list|
  {
    assert x.free[f] in x.free;
    FreeOfIn(x.list, x.blocks);
  }

  /** The first free block that is big enough is the lowest fit. */
  lemma ChosenForward(x: Lists, f: nat, size: nat)
    requires Linked(x) && f < |x.free|
    requires forall g :: 0 <= g < f ==> TooSmall(x, g, size)
    requires x.free[f] in x.list && SizeOf(x, x.free[f]) >= size
    ensures FirstFit(Layout(x), size, 0) == Index(x.list, x.free[f])
  {
    FreeListed(x, f);
    var i, r := Index(x.list, x.free[f]), FirstFit(Layout(x), size, 0);
    SizeOfIs(x, i);
    CellIs(x, i);
    hide Linked, Layout, SizeOf;
    assert x.list[i] == x.free[f] && Fits(Layout(x), i, size);
    if r < i {
      CellIs(x, r);
      var g := OrderedBelow(x, f, r);
      assert TooSmall(x, g, size);
      SizeOfIs(x, r);
    }
  }

  /** The last free block that is big enough is the highest fit. */
  lemma ChosenBackward(x: Lists, f: nat, size: nat)
    requires Linked(x) && f < |x.free|
    requires forall g :: f < g < |x.free| ==> TooSmall(x, g, size)
    requires x.free[f] in x.list && SizeOf(x, x.free[f]) >= size
    ensures LastFit(Layout(x), size, |x.list|) == Index(x.list, x.free[f])
  {
    FreeListed(x, f);
    var i, r := Index(x.list, x.free[f]), LastFit(Layout(x), size, |x.list|);
    SizeOfIs(x, i);
    CellIs(x, i);
    LayoutLength(x);
    hide Linked, Layout, SizeOf;
    assert x.list[i] == x.free[f] && Fits(Layout(x), i, size);
    if r < |x.list| && r > i {
      CellIs(x, r);
      var g := OrderedAbove(x, f, r);
      assert TooSmall(x, g, size);
      SizeOfIs(x, r);
    }
  }

  lemma NoneChosen(x: Lists, size: nat, small: nat)
    requires Linked(x) && forall g :: 0 <= g < |x.free| ==> TooSmall(x, g, size)
    ensures Choice(Layout(x), size, small) == |x.list|
  {
    var r := Choice(Layout(x), size, small);
    LayoutLength(x);
    FreeOfIn(x.list, x.blocks);
    if r < |x.list| {
      CellIs(x, r);
      hide Choice;
      ChoiceFits(Layout(x), size, small);
      assert x.list[r] in x.free;
      var g: nat :| g < |x.free| && x.free[g] == x.list[r];
      assert TooSmall(x, g, size);
      hide Linked, Layout, SizeOf;
      SizeOfIs(x, r);
    }
  }

  /** The last free block is the last block exactly when the heap ends in a free block. */
  lemma LastBlock(x: Lists)
    requires Linked(x)
    ensures x.list == [] ==> x.free == []
    ensures x.list != [] ==> x.list[|x.list| - 1] in x.blocks
    ensures x.free != [] ==> x.free[|x.free| - 1] in x.list
    ensures x.free != [] && Index(x.list, x.free[|x.free| - 1]) + 1 == |x.list| <==>
            x.list != [] && !x.blocks[x.list[|x.list| - 1]].used
    ensures x.list != [] && !x.blocks[x.list[|x.list| - 1]].used ==> x.free[|x.free| - 1] == x.list[|x.list| - 1]
  {
    if x.list != [] {
      var n := |x.list| - 1;
      assert x.list[n] in x.list;
      LastFree(x.list, n, x.blocks);
      IndexIs(x.list, n);
      if x.free != [] { FreeListed(x, |x.free| - 1); }
    }
  }

  // ----- what the code's steps leave

  lemma ShortList(p: Ptr, q: Ptr, m: Blocks)
    requires p in m && q in m
    ensures FreeOf([], m) == [] && FreeOf([p], m) == (if !m[p].used then [p] else [])
    ensures FreeOf([p, q], m) == (if !m[p].used then [p] else []) + (if !m[q].used then [q] else [])
    ensures Cells([], m) == [] && Cells([p], m) == [m[p]] && Cells([p, q], m) == [m[p], m[q]]
  {
    assert [p][1..] == [] && [p, q][1..] == [q] && [q][1..] == [];
  }

  /** The blocks that take the place of a carved one. */
  function Carving(h: Heap, i: nat, size: nat, small: nat): seq<Block>
    requires i < |h.cells| && Size(h, i) >= size
  {
    var off := h.cells[i].offset;
    if Whole(h, i, size) then [Block(off, true)]
    else if size < small then [Block(off, false), Block(End(h, i) - size, true)]
    else [Block(off, true), Block(off + size, false)]
  }

  lemma CarveIs(h: Heap, i: nat, size: nat, small: nat)
    requires i < |h.cells| && Size(h, i) >= size
    ensures Carve(h, i, size, small) == Heap(h.cells[..i] + Carving(h, i, size, small) + h.cells[i + 1..], h.total)
  {
    var used := Block(h.cells[i].offset, true);
    assert h.cells[i := used] == h.cells[..i] + [used] + h.cells[i + 1..];
  }

  /** Block b of a linked heap with its neighbours. */
  ghost predicate Locates(x: Lists, pre: seq<Ptr>, b: Ptr, post: seq<Ptr>) {
    && Linked(x) && x.list == pre + [b] + post && Index(x.list, b) == |pre|
    && (forall p :: p in x.blocks <==> p in pre || p == b || p in post)
    && b !in pre && b !in post
  }

  /** The new structures take the place of the old one, and every other block stays. */
  ghost predicate Swapped(m: Blocks, b: Ptr, mid: seq<Ptr>, m': Blocks) {
    && (forall p :: p in m' <==> p in mid || (p in m && p != b))
    && (forall p :: p in m && p != b && p !in mid ==> m'[p] == m[p])
  }

  lemma SwapOne(m: Blocks, b: Ptr, a: Ptr, f: Block)
    requires b in m && (a == b || a !in m)
    ensures a == b ==> Swapped(m, b, [b], m[b := f])
    ensures a != b ==> Swapped(m, b, [a], m[a := f] - {b})
  {
  }

  lemma SwapTwo(m: Blocks, b: Ptr, a: Ptr, nb: Ptr, f: Block, g: Block)
    requires b in m && a !in m && nb !in m.Keys - {b} && nb != a
    ensures Swapped(m, b, [b, a], m[a := f])
    ensures Swapped(m, b, [a, nb], (m[a := f] - {b})[nb := g])
  {
  }

  lemma SwapNew(m: Blocks, b: Ptr, nb: Ptr, f: Block)
    requires b in m && nb !in m.Keys - {b}
    ensures Swapped(m, b, [nb], (m - {b})[nb := f])
  {
  }

  lemma NoMiddle<T>(s: seq<T>, t: seq<T>)
    ensures s + [] + t == s + t
  {
  }

  lemma Keyed(x: Lists, pre: seq<Ptr>, b: Ptr, post: seq<Ptr>, mid: seq<Ptr>, m: Blocks)
    requires Locates(x, pre, b, post) && Swapped(x.blocks, b, mid, m) && NewMiddle(pre, mid, post)
    ensures forall p :: p in m <==> p in pre || p in mid || p in post
    ensures forall p :: p in pre || p in post ==> p in x.blocks && m[p] == x.blocks[p]
  {
    hide Linked, Distinct, Index;
  }

  /** Other structures put in the place of block b. */
  lemma Put(x: Lists, pre: seq<Ptr>, b: Ptr, post: seq<Ptr>, mid: seq<Ptr>, y: Lists)
    requires Locates(x, pre, b, post) && NewMiddle(pre, mid, post) && Swapped(x.blocks, b, mid, y.blocks)
    requires y.list == pre + mid + post && y.total == x.total && (forall p :: p in mid ==> p in y.blocks)
    requires y.free == FreeOf(pre, x.blocks) + FreeOf(mid, y.blocks) + FreeOf(post, x.blocks)
    ensures Linked(y) && |pre| < |Layout(x).cells|
    ensures Layout(y) == Heap(Layout(x).cells[..|pre|] + Cells(mid, y.blocks) + Layout(x).cells[|pre| + 1..], x.total)
  {
    hide NewMiddle, Swapped;
    CellsAt(x, pre, [b], post);
    Keyed(x, pre, b, post, mid, y.blocks);
    var z := Rebuilt(x, pre, [b], post, mid, y.blocks, x.total);
    hide Linked, FreeOf, Distinct;
    assert Layout(x).cells[..|pre|] == Cells(pre, x.blocks);
    assert Layout(x).cells[|pre| + 1..] == Cells(post, x.blocks);
  }

  /** Putting the right blocks in the place of a free one carves it. */
  lemma Carved(x: Lists, pre: seq<Ptr>, b: Ptr, post: seq<Ptr>, mid: seq<Ptr>, y: Lists, size: nat, small: nat)
    requires Locates(x, pre, b, post) && Size(Layout(x), |pre|) >= size && NewMiddle(pre, mid, post)
    requires Swapped(x.blocks, b, mid, y.blocks)
    requires Cells(mid, y.blocks) == Carving(Layout(x), |pre|, size, small)
    requires y.list == pre + mid + post && y.total == x.total
    requires y.free == FreeOf(pre, x.blocks) + FreeOf(mid, y.blocks) + FreeOf(post, x.blocks)
    ensures Linked(y) && Layout(y) == Carve(Layout(x), |pre|, size, small)
  {
    CarveIs(Layout(x), |pre|, size, small);
    hide NewMiddle, Carving, Carve, Size, FreeOf;
    Put(x, pre, b, post, mid, y);
  }

  /** The place of a pointer in a list. */
  lemma PlaceOf(y: Lists, pre: seq<Ptr>, p: Ptr, post: seq<Ptr>)
    requires Linked(y) && y.list == pre + [p] + post
    ensures p in y.list && p in y.blocks && Index(y.list, p) == |pre|
  {
    Around(pre, p, post, p);
  }

  /** Same used blocks, at the same structures. */
  ghost predicate UsedKept(m: Blocks, m': Blocks, but: set<Ptr>) {
    forall p {:trigger p in m'} :: p in m && m[p].used && p !in but ==> p in m' && m'[p] == m[p]
  }

  /** An allocator of block structures never hands out one that is in use. */
  ghost predicate Allocator(alloc: set<Ptr> -> Ptr) {
    forall s {:trigger alloc(s)} :: alloc(s) !in s
  }

  lemma Located(x: Lists, b: Ptr) returns (pre: seq<Ptr>, post: seq<Ptr>)
    requires Linked(x) && b in x.list
    ensures Locates(x, pre, b, post) && b in x.blocks && Distinct(x.free) && Distinct(x.list)
    ensures x.free == FreeOf(pre, x.blocks) + (if !x.blocks[b].used then [b] else []) + FreeOf(post, x.blocks)
  {
    pre, post := Parts(x, b);
    hide Distinct, FreeOf, Index;
    forall p ensures p in x.blocks <==> p in pre || p == b || p in post {
      assert p in x.list <==> p in pre || p == b || p in post;
    }
  }

  lemma InMiddle(x: Lists, pre: seq<Ptr>, b: Ptr, post: seq<Ptr>, p: Ptr, q: Ptr)
    requires Locates(x, pre, b, post) && p !in x.blocks.Keys - {b} && q !in x.blocks.Keys - {b}
    ensures NewMiddle(pre, [p], post)
    ensures p != q ==> NewMiddle(pre, [p, q], post)
    ensures Linked(x) && |Layout(x).cells| == |x.list| && |pre| < |x.list|
    ensures b in x.blocks && Layout(x).cells[|pre|] == x.blocks[b] && x.list == pre + [b] + post
  {
    LayoutLength(x);
    CellIs(x, |pre|);
    hide Distinct, FreeOf, Index;
  }

  /** Heap y is x with its free block b carved, r is what the request gets, and no used block has changed. */
  ghost predicate CarvedFrom(x: Lists, b: Ptr, size: nat, small: nat, y: Lists, r: Ptr) {
    && Linked(x) && Linked(y) && b in x.list && r in y.list && r in y.blocks && y.blocks[r].used
    && Index(x.list, b) < |Layout(x).cells| && Size(Layout(x), Index(x.list, b)) >= size
    && Layout(y) == Carve(Layout(x), Index(x.list, b), size, small)
    && Index(y.list, r) == Given(Layout(x), Index(x.list, b), size, small)
    && UsedKept(x.blocks, y.blocks, {})
  }

  lemma CarvedFromIs(x: Lists, pre: seq<Ptr>, b: Ptr, post: seq<Ptr>, size: nat, small: nat, y: Lists, r: Ptr,
                     before: seq<Ptr>, after: seq<Ptr>)
    requires Locates(x, pre, b, post) && b in x.blocks && !x.blocks[b].used && Linked(x) && Linked(y)
    requires |pre| < |Layout(x).cells| && Size(Layout(x), |pre|) >= size
    requires Layout(y) == Carve(Layout(x), |pre|, size, small)
    requires y.list == before + [r] + after && |before| == Given(Layout(x), |pre|, size, small)
    requires r in y.blocks && y.blocks[r].used
    requires forall p :: p in x.blocks && p != b ==> p in y.blocks && y.blocks[p] == x.blocks[p]
    ensures CarvedFrom(x, b, size, small, y, r)
  {
    hide Distinct, FreeOf, Carve, Linked, Size, Whole, Layout, Given;
    assert Index(x.list, b) == |pre| && b in x.list;
    PlaceOf(y, before, r, after);
  }

  /** The structure of the free block becomes the used one. */
  lemma WholeInPlace(x: Lists, pre: seq<Ptr>, b: Ptr, post: seq<Ptr>, y: Lists, size: nat, small: nat)
    requires Locates(x, pre, b, post) && b in x.blocks && !x.blocks[b].used && Size(Layout(x), |pre|) >= size
    requires Whole(Layout(x), |pre|, size)
    requires y == Lists(x.list, FreeOf(pre, x.blocks) + FreeOf(post, x.blocks),
                        x.blocks[b := Block(x.blocks[b].offset, true)], x.total)
    ensures CarvedFrom(x, b, size, small, y, b)
  {
    hide Distinct, FreeOf, Carve, Index, NewMiddle, Linked, Size, Whole, Layout, Cells, Swapped, Locates, CarvedFrom;
    SwapOne(x.blocks, b, b, y.blocks[b]);
    NoMiddle(FreeOf(pre, x.blocks), FreeOf(post, x.blocks));
    InMiddle(x, pre, b, post, b, b);
    ShortList(b, b, y.blocks);
    Carved(x, pre, b, post, [b], y, size, small);
    CarvedFromIs(x, pre, b, post, size, small, y, b, pre, post);
  }

  /** A new structure stands for all of the free block. */
  lemma WholeReplaced(x: Lists, pre: seq<Ptr>, b: Ptr, post: seq<Ptr>, a: Ptr, y: Lists, size: nat, small: nat)
    requires Locates(x, pre, b, post) && b in x.blocks && !x.blocks[b].used && Size(Layout(x), |pre|) >= size
    requires Whole(Layout(x), |pre|, size)
    requires a !in x.blocks && y.blocks == x.blocks[a := Block(x.blocks[b].offset, true)] - {b} && y.total == x.total
    requires y.list == pre + [a] + post && y.free == FreeOf(pre, x.blocks) + FreeOf(post, x.blocks)
    ensures CarvedFrom(x, b, size, small, y, a)
  {
    hide Distinct, FreeOf, Carve, Index, NewMiddle, Linked, Size, Whole, Layout, Cells, Swapped, Locates, CarvedFrom;
    SwapOne(x.blocks, b, a, y.blocks[a]);
    NoMiddle(FreeOf(pre, x.blocks), FreeOf(post, x.blocks));
    InMiddle(x, pre, b, post, a, a);
    ShortList(a, a, y.blocks);
    Carved(x, pre, b, post, [a], y, size, small);
    CarvedFromIs(x, pre, b, post, size, small, y, a, pre, post);
  }

  /** The used part is cut from the upper end. */
  lemma SmallSplit(x: Lists, pre: seq<Ptr>, b: Ptr, post: seq<Ptr>, a: Ptr, y: Lists, size: nat, small: nat)
    requires Locates(x, pre, b, post) && b in x.blocks && !x.blocks[b].used && Size(Layout(x), |pre|) >= size
    requires !Whole(Layout(x), |pre|, size)
    requires size < small && a !in x.blocks && y.total == x.total
    requires y.blocks == x.blocks[a := Block(x.blocks[b].offset + Size(Layout(x), |pre|) - size, true)]
    requires y.list == pre + [b, a] + post && y.free == FreeOf(pre, x.blocks) + [b] + FreeOf(post, x.blocks)
    ensures CarvedFrom(x, b, size, small, y, a)
  {
    hide Distinct, FreeOf, Carve, Index, NewMiddle, Linked, Whole, Layout, Cells, Swapped, Locates, CarvedFrom;
    SwapTwo(x.blocks, b, a, b, y.blocks[a], y.blocks[b]);
    InMiddle(x, pre, b, post, b, a);
    ShortList(b, a, y.blocks);
    Carved(x, pre, b, post, [b, a], y, size, small);
    assert pre + [b, a] + post == (pre + [b]) + [a] + post;
    CarvedFromIs(x, pre, b, post, size, small, y, a, pre + [b], post);
  }

  /** The used part is cut from the lower end. */
  lemma LargeSplit(x: Lists, pre: seq<Ptr>, b: Ptr, post: seq<Ptr>, a: Ptr, nb: Ptr, y: Lists, size: nat, small: nat)
    requires Locates(x, pre, b, post) && b in x.blocks && !x.blocks[b].used && Size(Layout(x), |pre|) >= size
    requires !Whole(Layout(x), |pre|, size)
    requires size >= small && a !in x.blocks && nb !in x.blocks.Keys - {b} && nb != a && y.total == x.total
    requires y.blocks
      == (x.blocks[a := Block(x.blocks[b].offset, true)] - {b})[nb := Block(x.blocks[b].offset + size, false)]
    requires y.list == pre + [a, nb] + post && y.free == FreeOf(pre, x.blocks) + [nb] + FreeOf(post, x.blocks)
    ensures CarvedFrom(x, b, size, small, y, a)
  {
    hide Distinct, FreeOf, Carve, Index, NewMiddle, Linked, Size, Whole, Layout, Cells, Swapped, Locates, CarvedFrom;
    SwapTwo(x.blocks, b, a, nb, y.blocks[a], y.blocks[nb]);
    InMiddle(x, pre, b, post, a, nb);
    ShortList(a, nb, y.blocks);
    Carved(x, pre, b, post, [a, nb], y, size, small);
    assert pre + [a, nb] + post == pre + [a] + ([nb] + post);
    CarvedFromIs(x, pre, b, post, size, small, y, a, pre, [nb] + post);
  }

  /** Taking p out after q was put before it. */
  lemma Replaced(pre: seq<Ptr>, p: Ptr, post: seq<Ptr>, q: Ptr)
    requires Distinct(pre + [p] + post) && NewMiddle(pre, [p], post) && NewMiddle(pre, [q], post) && p != q
    ensures Remove(InsertBefore(pre + [p] + post, p, q), p) == pre + [q] + post
    ensures Distinct(pre + [q] + post)
  {
    TwoNew(pre, q, p, post);
    hide Distinct, NewMiddle, Remove, InsertBefore, InsertAfter;
    Around(pre, p, post, q);
    RebuiltDistinct(pre, [p], post, [q, p]);
    RebuiltDistinct(pre, [p], post, [q]);
    Around(pre + [q], p, post, q);
  }

  lemma TwoNew(pre: seq<Ptr>, q: Ptr, p: Ptr, post: seq<Ptr>)
    requires NewMiddle(pre, [p], post) && NewMiddle(pre, [q], post) && p != q
    ensures NewMiddle(pre, [q, p], post)
    ensures pre + [q, p] + post == (pre + [q]) + [p] + post
  {
    assert p in [p] && q in [q];
  }

  lemma DistinctWithout(pre: seq<Ptr>, p: Ptr, post: seq<Ptr>)
    requires Distinct(pre + [p] + post)
    ensures Distinct(pre + post)
  {
    var s, t := pre + [p] + post, pre + post;
    forall i, j | 0 <= i < j < |t| ensures t[i] != t[j] {
      assert t[i] == s[if i < |pre| then i else i + 1] && t[j] == s[if j < |pre| then j else j + 1];
    }
  }

  /** Putting q after the last element of pre. */
  lemma AfterLast(pre: seq<Ptr>, post: seq<Ptr>, q: Ptr)
    requires Distinct(pre + post) && pre != []
    ensures InsertAfter(pre + post, pre[|pre| - 1], q) == pre + [q] + post
  {
    var n := |pre| - 1;
    assert pre + post == pre[..n] + [pre[n]] + post;
    Around(pre[..n], pre[n], post, q);
    hide Distinct, InsertAfter;
    assert pre[..n] + [pre[n], q] + post == pre + [q] + post;
  }

  /** Taking p out of a list and putting q in its place, by way of the element before it. */
  lemma InItsPlace(pre: seq<Ptr>, p: Ptr, post: seq<Ptr>, q: Ptr)
    requires Distinct(pre + [p] + post)
    ensures var s := pre + [p] + post;
      Index(s, p) == |pre| && Remove(s, p) == pre + post
      && (pre == [] ==> [q] + Remove(s, p) == pre + [q] + post)
      && (pre != [] ==> InsertAfter(Remove(s, p), Before(s, p), q) == pre + [q] + post)
  {
    Around(pre, p, post, q);
    DistinctWithout(pre, p, post);
    hide Distinct, InsertAfter, Remove, Index;
    if pre != [] { AfterLast(pre, post, q); }
  }

  // ----- the four ways to carve, as the code's list operations

  ghost predicate Room(x: Lists, b: Ptr, bsz: nat, size: nat) {
    && Linked(x) && b in x.list && b in x.blocks && !x.blocks[b].used
    && SizeOf(x, b) == bsz >= size
  }

  lemma RoomParts(x: Lists, b: Ptr, bsz: nat, size: nat) returns (pre: seq<Ptr>, post: seq<Ptr>)
    requires Room(x, b, bsz, size)
    ensures Locates(x, pre, b, post) && b in x.blocks && !x.blocks[b].used && Linked(x) && x.list == pre + [b] + post
    ensures Distinct(pre + [b] + post) && Distinct(FreeOf(pre, x.blocks) + [b] + FreeOf(post, x.blocks))
    ensures x.free == FreeOf(pre, x.blocks) + [b] + FreeOf(post, x.blocks)
    ensures |pre| < |Layout(x).cells| && Size(Layout(x), |pre|) == bsz >= size && NewMiddle(pre, [b], post)
  {
    pre, post := Located(x, b);
    hide Distinct, FreeOf, Index, Linked, Layout, Size, Locates, SizeOf, NewMiddle;
    InMiddle(x, pre, b, post, b, b);
    assert x.list[|pre|] == b;
    SizeOfIs(x, |pre|);
  }

  lemma InPlaceSteps(x: Lists, b: Ptr, bsz: nat, size: nat, small: nat, y: Lists)
    requires Room(x, b, bsz, size) && bsz - size < MIN_FREEBLOCK_SZ
    requires y == Lists(x.list, Remove(x.free, b), x.blocks[b := Block(x.blocks[b].offset, true)], x.total)
    ensures CarvedFrom(x, b, size, small, y, b)
  {
    hide Distinct, FreeOf, Index, Linked, Layout, Size, Locates, Remove, CarvedFrom, Room;
    var pre, post := RoomParts(x, b, bsz, size);
    InItsPlace(FreeOf(pre, x.blocks), b, FreeOf(post, x.blocks), b);
    WholeInPlace(x, pre, b, post, y, size, small);
  }

  lemma WholeSteps(x: Lists, b: Ptr, bsz: nat, size: nat, small: nat, a: Ptr, y: Lists)
    requires Room(x, b, bsz, size) && bsz - size < MIN_FREEBLOCK_SZ && a !in x.blocks && y.total == x.total
    requires y.list == Remove(InsertBefore(x.list, b, a), b) && y.free == Remove(x.free, b)
    requires y.blocks == x.blocks[a := Block(x.blocks[b].offset, true)] - {b}
    ensures CarvedFrom(x, b, size, small, y, a)
  {
    hide Distinct, FreeOf, Index, Linked, Layout, Size, Locates, Remove, InsertBefore, CarvedFrom, NewMiddle, Room;
    var pre, post := RoomParts(x, b, bsz, size);
    InItsPlace(FreeOf(pre, x.blocks), b, FreeOf(post, x.blocks), b);
    InMiddle(x, pre, b, post, a, b);
    Replaced(pre, b, post, a);
    WholeReplaced(x, pre, b, post, a, y, size, small);
  }

  lemma SmallSteps(x: Lists, b: Ptr, bsz: nat, size: nat, small: nat, a: Ptr, y: Lists)
    requires Room(x, b, bsz, size) && bsz - size >= MIN_FREEBLOCK_SZ && size < small && a !in x.blocks
    requires y.total == x.total
    requires y.list == InsertAfter(x.list, b, a) && y.free == x.free
    requires y.blocks == x.blocks[a := Block(x.blocks[b].offset + bsz - size, true)]
    ensures CarvedFrom(x, b, size, small, y, a)
  {
    hide Distinct, FreeOf, Index, Linked, Layout, Size, Locates, InsertAfter, CarvedFrom, NewMiddle, Room;
    var pre, post := RoomParts(x, b, bsz, size);
    Around(pre, b, post, a);
    SmallSplit(x, pre, b, post, a, y, size, small);
  }

  lemma LargeSteps(x: Lists, b: Ptr, bsz: nat, size: nat, small: nat, a: Ptr, nb: Ptr, y: Lists)
    requires Room(x, b, bsz, size) && bsz - size >= MIN_FREEBLOCK_SZ && size >= small && y.total == x.total
    requires a !in x.blocks && nb !in x.blocks.Keys - {b} && nb != a
    requires y.list == InsertAfter(Remove(InsertBefore(x.list, b, a), b), a, nb)
    requires y.free == if Index(x.free, b) == 0 then [nb] + Remove(x.free, b)
                       else InsertAfter(Remove(x.free, b), Before(x.free, b), nb)
    requires y.blocks
      == (x.blocks[a := Block(x.blocks[b].offset, true)] - {b})[nb := Block(x.blocks[b].offset + size, false)]
    ensures CarvedFrom(x, b, size, small, y, a)
  {
    hide Distinct, FreeOf, Index, Linked, Layout, Size, Locates, Remove, InsertBefore, InsertAfter, CarvedFrom;
    hide NewMiddle, Room;
    var pre, post := RoomParts(x, b, bsz, size);
    InItsPlace(FreeOf(pre, x.blocks), b, FreeOf(post, x.blocks), nb);
    InMiddle(x, pre, b, post, a, b);
    Replaced(pre, b, post, a);
    Around(pre, a, post, nb);
    LargeSplit(x, pre, b, post, a, nb, y, size, small);
  }

  // ----- growing

  lemma LastCell(x: Lists)
    requires Linked(x) && x.list != []
    ensures Layout(x).cells != [] && x.list[|x.list| - 1] in x.blocks
    ensures Layout(x).cells[|x.list| - 1] == x.blocks[x.list[|x.list| - 1]] && |Layout(x).cells| == |x.list|
  {
    CellIs(x, |x.list| - 1);
    LayoutLength(x);
  }

  /** Does the heap end in a free block? The code asks the free list. */
  predicate EndsFree(x: Lists) {
    x.free != [] && x.free[|x.free| - 1] in x.list && Index(x.list, x.free[|x.free| - 1]) + 1 == |x.list|
  }

  lemma EndsFreeIs(x: Lists)
    requires Linked(x)
    ensures EndsFree(x) <==> Layout(x).cells != [] && !Layout(x).cells[|Layout(x).cells| - 1].used
    ensures EndsFree(x) ==> x.free[|x.free| - 1] == x.list[|x.list| - 1] && x.free[|x.free| - 1] in x.blocks
    ensures EndsFree(x) ==> Layout(x).cells[|Layout(x).cells| - 1] == x.blocks[x.free[|x.free| - 1]]
  {
    LastBlock(x);
    LayoutLength(x);
    if x.list != [] { LastCell(x); }
  }

  lemma Appended(x: Lists, b: Ptr, f: nat, answer: nat) returns (y: Lists)
    requires Linked(x) && b !in x.blocks
    ensures y == Lists(x.list + [b], x.free + [b], x.blocks[b := Block(f, false)], answer)
    ensures Linked(y) && Layout(y) == Heap(Layout(x).cells + [Block(f, false)], answer)
  {
    var m := x.blocks[b := Block(f, false)];
    assert x.list + [] + [] == x.list && x.list + [b] + [] == x.list + [b] && x.free + [b] + [] == x.free + [b];
    assert NewMiddle(x.list, [b], []) by { assert forall p :: p in x.list <==> p in x.blocks; }
    ShortList(b, b, m);
    hide Distinct, NewMiddle;
    y := Rebuilt(x, x.list, [], [], [b], m, answer);
    hide FreeOf, Cells;
  }

  /** A new free block at the end. */
  lemma GrownAtEnd(x: Lists, b: Ptr, answer: nat, size: nat)
    requires Linked(x) && !EndsFree(x) && b !in x.blocks && answer >= x.total + size
    ensures var y := Lists(x.list + [b], x.free + [b], x.blocks[b := Block(x.total, false)], answer);
      Room(y, b, answer - x.total, size) && Layout(y) == Grown(Layout(x), answer) && Index(y.list, b) == |x.list|
  {
    hide Distinct, FreeOf, Linked, Layout, EndsFree;
    EndsFreeIs(x);
    LayoutLength(x);
    var y := Appended(x, b, x.total, answer);
    assert x.list + [b] + [] == y.list;
    PlaceOf(y, x.list, b, []);
    SizeOfNext(y, b);
  }

  /** The free block at the end is widened. */
  lemma WidenedAtEnd(x: Lists, answer: nat)
    requires Linked(x) && EndsFree(x)
    ensures var y := Lists(x.list, x.free, x.blocks, answer);
      var b := x.free[|x.free| - 1];
      Linked(y) && Layout(y) == Grown(Layout(x), answer) && b in y.list && b in y.blocks && !y.blocks[b].used
      && SizeOf(y, b) == answer - y.blocks[b].offset && Index(y.list, b) == |x.list| - 1
  {
    EndsFreeIs(x);
  }

  /** What an allocation leaves: the layout the specification says, the request at the index it says,
      and every used block where it was. */
  ghost predicate Allocates(x: Lists, request: nat, small: nat, answer: nat, y: Lists, r: Ptr, ok: bool) {
    && Valid(x) && Valid(y)
    && UsedKept(x.blocks, y.blocks, {})
    && var o := Alloc(Layout(x), request, small, answer);
    && Layout(y) == o.heap && ok == o.Allocated?
    && (ok ==> r in y.list && Index(y.list, r) == o.index && r in y.blocks && y.blocks[r].used)
  }

  lemma AllocatesValid(x: Lists, request: nat, small: nat, answer: nat, y: Lists, r: Ptr, ok: bool)
    requires Allocates(x, request, small, answer, y, r, ok)
    ensures Valid(y)
  {
  }

  lemma FoundSteps(x: Lists, request: nat, small: nat, answer: nat, b: Ptr, y: Lists, r: Ptr)
    requires Valid(x) && answer >= x.total
    requires CarvedFrom(x, b, Clamp(request), small, y, r)
    requires Choice(Layout(x), Clamp(request), small) == Index(x.list, b) < |x.list|
    ensures Allocates(x, request, small, answer, y, r, true)
  {
    AllocWellFormed(Layout(x), request, small, answer);
    LayoutLength(x);
    hide Distinct, FreeOf, Linked, Layout, Carve, Choice, Index, Given, UsedKept, WellFormed;
  }

  lemma KeptTwice(m: Blocks, m': Blocks, m'': Blocks)
    requires UsedKept(m, m', {}) && UsedKept(m', m'', {})
    ensures UsedKept(m, m'', {})
  {
    forall p | p in m && m[p].used ensures p in m'' && m''[p] == m[p] { assert p in m'; }
  }

  lemma GrownSteps(x: Lists, request: nat, small: nat, answer: nat, g: Lists, b: Ptr, y: Lists, r: Ptr)
    requires Valid(x) && answer >= x.total
    requires Linked(x) && Linked(g) && Choice(Layout(x), Clamp(request), small) == |x.list|
    requires GrowsEnough(Layout(x), Clamp(request), answer) && Layout(g) == Grown(Layout(x), answer)
    requires CarvedFrom(g, b, Clamp(request), small, y, r) && Index(g.list, b) + 1 == |g.list|
    requires UsedKept(x.blocks, g.blocks, {})
    ensures Allocates(x, request, small, answer, y, r, true)
  {
    hide Distinct, FreeOf, Linked, Layout, Carve, Choice, Index, Given, UsedKept, Grown, GrowsEnough, WellFormed, Size;
    hide Fits;
    LayoutLength(x);
    LayoutLength(g);
    AllocWellFormed(Layout(x), request, small, answer);
    KeptTwice(x.blocks, g.blocks, y.blocks);
  }

  lemma FailedSteps(x: Lists, request: nat, small: nat, answer: nat, y: Lists)
    requires Valid(x) && answer >= x.total
    requires Linked(x) && Choice(Layout(x), Clamp(request), small) == |x.list|
    requires !GrowsEnough(Layout(x), Clamp(request), answer)
    requires y == x.(total := if EndsFree(x) then answer else x.total)
    ensures Allocates(x, request, small, answer, y, 0, false)
  {
    AllocWellFormed(Layout(x), request, small, answer);
    LayoutLength(x);
    EndsFreeIs(x);
    hide Choice, EndsFree, WellFormed;
  }

  // ----- giving back

  /** What giving a block back leaves: the layout the specification says, and every other used block where it was. */
  ghost predicate Frees(x: Lists, b: Ptr, y: Lists) {
    && Valid(x) && Valid(y) && b in x.list && Index(x.list, b) < |Layout(x).cells|
    && Layout(y) == Free(Layout(x), Index(x.list, b))
    && UsedKept(x.blocks, y.blocks, {b})
  }

  lemma FreesIs(x: Lists, pre: seq<Ptr>, b: Ptr, post: seq<Ptr>, y: Lists)
    requires Valid(x) && Locates(x, pre, b, post) && b in x.blocks && x.blocks[b].used && Linked(y)
    requires |pre| < |Layout(x).cells| && Layout(y) == Free(Layout(x), |pre|)
    requires UsedKept(x.blocks, y.blocks, {b})
    ensures Frees(x, b, y)
  {
    CellIs(x, |pre|);
    hide Distinct, FreeOf, WellFormed, Layout, Free;
    FreeWellFormed(Layout(x), |pre|);
  }

  lemma DroppedFree(x: Lists, pre: seq<Ptr>, b: Ptr, post: seq<Ptr>)
    requires Linked(x) && b in x.blocks && x.list == pre + [b] + post
    ensures Remove(x.free, b) == FreeOf(pre, x.blocks) + FreeOf(post, x.blocks)
    ensures x.blocks[b].used ==> Remove(x.free, b) == x.free
  {
    FreeOfSplit(pre, b, post, x.blocks);
    FreeOfIn(x.list, x.blocks);
    FreeOfDistinct(x.list, x.blocks);
    NoMiddle(FreeOf(pre, x.blocks), FreeOf(post, x.blocks));
    hide FreeOf, Distinct;
    if !x.blocks[b].used { Around(FreeOf(pre, x.blocks), b, FreeOf(post, x.blocks), b); }
  }

  lemma At(x: Lists, pre: seq<Ptr>, b: Ptr, post: seq<Ptr>)
    requires Linked(x) && x.list == pre + [b] + post
    ensures Locates(x, pre, b, post) && b in x.blocks && NewMiddle(pre, [], post) && Index(x.list, b) == |pre|
    ensures b in x.list
    ensures Remove(x.list, b) == pre + post
  {
    Around(pre, b, post, b);
    var pre', post' := Located(x, b);
    hide Distinct, Index;
    SamePlace(pre, pre', b, post, post');
  }

  /** A block leaves the lists. */
  lemma Dropped(x: Lists, pre: seq<Ptr>, b: Ptr, post: seq<Ptr>)
    requires Linked(x) && x.list == pre + [b] + post
    ensures var y := Lists(Remove(x.list, b), Remove(x.free, b), x.blocks - {b}, x.total);
      Linked(y) && y.list == pre + post && |pre| < |Layout(x).cells|
      && Layout(y) == Heap(Layout(x).cells[..|pre|] + Layout(x).cells[|pre| + 1..], x.total)
    ensures b in x.blocks && (x.blocks[b].used ==> Remove(x.free, b) == x.free)
  {
    var y := Lists(Remove(x.list, b), Remove(x.free, b), x.blocks - {b}, x.total);
    assert Swapped(x.blocks, b, [], y.blocks);
    NoFree(y.blocks);
    hide Distinct, Swapped, NewMiddle, Locates, Linked, FreeOf, Remove, Index, Layout, Cells;
    At(x, pre, b, post);
    DroppedFree(x, pre, b, post);
    LayoutLength(x);
    NoMiddle(pre, post);
    NoMiddle(FreeOf(pre, x.blocks), FreeOf(post, x.blocks));
    NoMiddle(Layout(x).cells[..|pre|], Layout(x).cells[|pre| + 1..]);
    Put(x, pre, b, post, [], y);
  }

  lemma NoFree(m: Blocks)
    ensures FreeOf([], m) == [] && Cells([], m) == []
  {
  }

  lemma SamePlace(pre: seq<Ptr>, pre': seq<Ptr>, b: Ptr, post: seq<Ptr>, post': seq<Ptr>)
    requires pre + [b] + post == pre' + [b] + post' && |pre| == |pre'|
    ensures pre == pre' && post == post'
  {
    var s := pre + [b] + post;
    assert pre == s[..|pre|] && pre' == s[..|pre|];
    assert post == s[|pre| + 1..] && post' == s[|pre| + 1..];
  }

  /** A free block takes over the room before it. */
  lemma Lowered(x: Lists, pre: seq<Ptr>, n: Ptr, post: seq<Ptr>, f: nat)
    requires Linked(x) && x.list == pre + [n] + post && n in x.blocks && !x.blocks[n].used
    ensures var y := x.(blocks := x.blocks[n := x.blocks[n].(offset := f)]);
      Linked(y) && |pre| < |Layout(x).cells|
      && Layout(y) == Heap(Layout(x).cells[..|pre|] + [Block(f, false)] + Layout(x).cells[|pre| + 1..], x.total)
  {
    var y := x.(blocks := x.blocks[n := x.blocks[n].(offset := f)]);
    FreeOfSplit(pre, n, post, x.blocks);
    hide Distinct, Swapped, NewMiddle, Locates, Linked, FreeOf, Layout, Cells;
    At(x, pre, n, post);
    LayoutLength(x);
    InMiddle(x, pre, n, post, n, n);
    SwapOne(x.blocks, n, n, y.blocks[n]);
    ShortList(n, n, y.blocks);
    Put(x, pre, n, post, [n], y);
  }

  /** A new free block in the place of the one given back. */
  lemma Reborn(x: Lists, pre: seq<Ptr>, b: Ptr, post: seq<Ptr>, nb: Ptr, y: Lists)
    requires Linked(x) && x.list == pre + [b] + post && b in x.blocks && nb !in x.blocks.Keys - {b}
    requires y.list == pre + [nb] + post && y.free == FreeOf(pre, x.blocks) + [nb] + FreeOf(post, x.blocks)
    requires y.blocks == (x.blocks - {b})[nb := Block(x.blocks[b].offset, false)] && y.total == x.total
    ensures Linked(y) && |pre| < |Layout(x).cells|
    ensures Layout(y)
      == Heap(Layout(x).cells[..|pre|] + [Block(x.blocks[b].offset, false)] + Layout(x).cells[|pre| + 1..], x.total)
  {
    hide Distinct, Swapped, NewMiddle, Locates, Linked, FreeOf, Layout, Cells;
    SwapNew(x.blocks, b, nb, y.blocks[nb]);
    At(x, pre, b, post);
    LayoutLength(x);
    InMiddle(x, pre, b, post, nb, nb);
    ShortList(nb, nb, y.blocks);
    Put(x, pre, b, post, [nb], y);
  }

  ghost predicate GivenBack(x: Lists, pre: seq<Ptr>, b: Ptr, post: seq<Ptr>) {
    Valid(x) && x.list == pre + [b] + post && b in x.blocks && x.blocks[b].used
  }

  ghost predicate HeadFree(s: seq<Ptr>, m: Blocks) { s != [] && s[0] in m && !m[s[0]].used }

  ghost predicate LastIsFree(s: seq<Ptr>, m: Blocks) { s != [] && s[|s| - 1] in m && !m[s[|s| - 1]].used }

  lemma Neighbours(x: Lists, pre: seq<Ptr>, b: Ptr, post: seq<Ptr>)
    requires GivenBack(x, pre, b, post)
    ensures |pre| < |Layout(x).cells| && Layout(x).cells[|pre|] == x.blocks[b] && |Layout(x).cells| == |x.list|
    ensures FreeBefore(Layout(x), |pre|) <==> LastIsFree(pre, x.blocks)
    ensures FreeAfter(Layout(x), |pre|) <==> HeadFree(post, x.blocks)
  {
    LayoutLength(x);
    assert x.list[|pre|] == b;
    CellIs(x, |pre|);
    if pre != [] {
      assert x.list[|pre| - 1] == pre[|pre| - 1];
      CellIs(x, |pre| - 1);
    }
    if post != [] {
      assert x.list[|pre| + 1] == post[0];
      CellIs(x, |pre| + 1);
    }
  }

  lemma UsedStay(m: Blocks, b: Ptr, n: Ptr, f: Block)
    requires b in m && n in m && !m[n].used
    ensures UsedKept(m, m - {b}, {b})
    ensures UsedKept(m, m - {b} - {n}, {b})
    ensures UsedKept(m, (m - {b})[n := f], {b})
  {
  }

  lemma UsedStayNew(m: Blocks, b: Ptr, nb: Ptr, f: Block)
    requires b in m && nb !in m.Keys - {b}
    ensures UsedKept(m, m - {b}, {b})
    ensures UsedKept(m, (m - {b})[nb := f], {b})
  {
  }

  lemma Head(pre: seq<Ptr>, b: Ptr, post: seq<Ptr>, m: Blocks) returns (n: Ptr, rest: seq<Ptr>)
    requires HeadFree(post, m)
    ensures n == post[0] && n in m && !m[n].used
    ensures pre + post == pre + [n] + rest
  {
    n, rest := post[0], post[1..];
  }

  /** Index j is just above the last free block below index k, 0 if there is none. */
  ghost predicate AboveFree(s: seq<Ptr>, m: Blocks, j: nat, k: nat) {
    && j <= k <= |s|
    && (forall i :: j <= i < k ==> s[i] in m && m[s[i]].used)
    && (j > 0 ==> s[j - 1] in m && !m[s[j - 1]].used)
  }

  ghost predicate Known(s: seq<Ptr>, m: Blocks, k: nat) { k <= |s| && forall i :: 0 <= i < k ==> s[i] in m }

  lemma NewInList(x: Lists, pre: seq<Ptr>, b: Ptr, post: seq<Ptr>, nb: Ptr)
    requires GivenBack(x, pre, b, post) && pre != []
    ensures InsertAfter(Remove(x.list, b), pre[|pre| - 1], nb) == pre + [nb] + post
  {
    At(x, pre, b, post);
    DistinctWithout(pre, b, post);
    hide Distinct, Linked, WellFormed, InsertAfter, Remove, Index, NewMiddle, FreeOf, Locates;
    AfterLast(pre, post, nb);
  }

  ghost predicate Elsewhere(s: seq<Ptr>, b: Ptr, m: Blocks) { forall p :: p in s ==> p in m && p != b }

  /** The part of the list below the new block is as it was. */
  lemma BelowNew(pre: seq<Ptr>, rest: seq<Ptr>, b: Ptr, m: Blocks, m': Blocks)
    requires Elsewhere(pre, b, m)
    requires forall p :: p in m && p != b ==> p in m' && m'[p] == m[p]
    ensures Known(pre + rest, m', |pre|)
    ensures forall j :: AboveFree(pre + rest, m', j, |pre|) ==> AboveFree(pre, m, j, |pre|)
  {
    var s := pre + rest;
    forall i | 0 <= i < |pre| ensures s[i] == pre[i] && s[i] in m' && s[i] in m && m'[s[i]] == m[s[i]] {
      assert pre[i] in pre;
    }
  }

  lemma NoneAbove(s: seq<Ptr>, m: Blocks)
    requires s == []
    ensures AboveFree(s, m, 0, |s|)
  {
  }

  lemma AboveBound(s: seq<Ptr>, m: Blocks, j: nat, k: nat)
    requires AboveFree(s, m, j, k)
    ensures j <= k <= |s|
  {
  }

  lemma LastFreeIs(s: seq<Ptr>, m: Blocks, j: nat)
    requires AboveFree(s, m, j, |s|)
    ensures j == 0 ==> FreeOf(s, m) == []
    ensures j > 0 ==> FreeOf(s, m) != [] && FreeOf(s, m)[|FreeOf(s, m)| - 1] == s[j - 1]
  {
    if j == 0 { UsedOnly(s, m); } else { LastFree(s, j - 1, m); }
  }

  /** The free list with nb after the last free block of pre, or at its head if there is none. */
  lemma AfterPrevious(fp: seq<Ptr>, fq: seq<Ptr>, nb: Ptr)
    requires Distinct(fp + fq)
    ensures fp == [] ==> [nb] + (fp + fq) == fp + [nb] + fq
    ensures fp != [] ==> InsertAfter(fp + fq, fp[|fp| - 1], nb) == fp + [nb] + fq
  {
    hide Distinct, InsertAfter;
    if fp != [] { AfterLast(fp, fq, nb); }
  }

  lemma FreeCases(h: Heap, i: nat)
    requires i < |h.cells|
    ensures var c := h.cells[..i] + h.cells[i + 1..];
      var f := Block(h.cells[i].offset, false);
      (FreeBefore(h, i) && !FreeAfter(h, i) ==> Free(h, i) == Heap(c, h.total))
      && (FreeBefore(h, i) && FreeAfter(h, i) ==> i < |c| && Free(h, i) == Heap(c[..i] + c[i + 1..], h.total))
      && (!FreeBefore(h, i) && FreeAfter(h, i) ==> i < |c| && Free(h, i) == Heap(c[..i] + [f] + c[i + 1..], h.total))
      && (!FreeBefore(h, i) && !FreeAfter(h, i) ==> Free(h, i) == Heap(h.cells[..i] + [f] + h.cells[i + 1..], h.total))
  {
    var c := h.cells[..i] + h.cells[i + 1..];
    if FreeAfter(h, i) { assert c[..i] == h.cells[..i] && c[i + 1..] == h.cells[i + 2..]; }
    var freed := Block(h.cells[i].offset, false);
    assert h.cells[i := freed] == h.cells[..i] + [freed] + h.cells[i + 1..];
  }

  lemma BeforeSteps(x: Lists, pre: seq<Ptr>, b: Ptr, post: seq<Ptr>, y: Lists)
    requires GivenBack(x, pre, b, post) && LastIsFree(pre, x.blocks) && !HeadFree(post, x.blocks)
    requires y == Lists(Remove(x.list, b), x.free, x.blocks - {b}, x.total)
    ensures Frees(x, b, y)
  {
    Neighbours(x, pre, b, post);
    hide Distinct, FreeOf, Layout, Linked, WellFormed, Remove, FreeBefore, FreeAfter, LastIsFree, HeadFree, Locates;
    hide Frees, Index, Free, UsedKept;
    Dropped(x, pre, b, post);
    At(x, pre, b, post);
    FreeCases(Layout(x), |pre|);
    UsedStayNew(x.blocks, b, b, x.blocks[b]);
    FreesIs(x, pre, b, post, y);
  }

  lemma BothSteps(x: Lists, pre: seq<Ptr>, b: Ptr, post: seq<Ptr>, y: Lists)
    requires GivenBack(x, pre, b, post) && LastIsFree(pre, x.blocks) && HeadFree(post, x.blocks)
    requires y
      == Lists(Remove(Remove(x.list, b), post[0]), Remove(x.free, post[0]), x.blocks - {b} - {post[0]}, x.total)
    ensures Frees(x, b, y)
  {
    var n, rest := Head(pre, b, post, x.blocks);
    hide Distinct, FreeOf, Layout, Linked, WellFormed, Remove, FreeBefore, FreeAfter, LastIsFree, HeadFree, Locates;
    hide Frees, Index, Free, UsedKept;
    Neighbours(x, pre, b, post);
    Dropped(x, pre, b, post);
    var z := Lists(Remove(x.list, b), Remove(x.free, b), x.blocks - {b}, x.total);
    Dropped(z, pre, n, rest);
    At(x, pre, b, post);
    FreeCases(Layout(x), |pre|);
    UsedStay(x.blocks, b, n, x.blocks[b]);
    FreesIs(x, pre, b, post, y);
  }

  lemma AfterSteps(x: Lists, pre: seq<Ptr>, b: Ptr, post: seq<Ptr>, y: Lists)
    requires GivenBack(x, pre, b, post) && !LastIsFree(pre, x.blocks) && HeadFree(post, x.blocks)
    requires y
      == Lists(Remove(x.list, b), x.free, (x.blocks - {b})[post[0] := Block(x.blocks[b].offset, false)], x.total)
    ensures Frees(x, b, y)
  {
    var n, rest := Head(pre, b, post, x.blocks);
    hide Distinct, FreeOf, Layout, Linked, WellFormed, Remove, FreeBefore, FreeAfter, LastIsFree, HeadFree, Locates;
    hide Frees, Index, Free, UsedKept;
    Neighbours(x, pre, b, post);
    Dropped(x, pre, b, post);
    var z := Lists(Remove(x.list, b), Remove(x.free, b), x.blocks - {b}, x.total);
    At(x, pre, b, post);
    Lowered(z, pre, n, rest, x.blocks[b].offset);
    FreeCases(Layout(x), |pre|);
    UsedStay(x.blocks, b, n, y.blocks[n]);
    FreesIs(x, pre, b, post, y);
  }

  lemma NewSteps(x: Lists, pre: seq<Ptr>, b: Ptr, post: seq<Ptr>, nb: Ptr, y: Lists)
    requires GivenBack(x, pre, b, post) && !LastIsFree(pre, x.blocks) && !HeadFree(post, x.blocks)
    requires nb !in x.blocks.Keys - {b}
    requires y.list == pre + [nb] + post && y.free == FreeOf(pre, x.blocks) + [nb] + FreeOf(post, x.blocks)
    requires y.blocks == (x.blocks - {b})[nb := Block(x.blocks[b].offset, false)] && y.total == x.total
    ensures Frees(x, b, y)
  {
    Neighbours(x, pre, b, post);
    hide Distinct, FreeOf, Layout, Linked, WellFormed, FreeBefore, FreeAfter, LastIsFree, HeadFree, Locates, Frees;
    hide Index, Free, UsedKept;
    Reborn(x, pre, b, post, nb, y);
    At(x, pre, b, post);
    FreeCases(Layout(x), |pre|);
    UsedStayNew(x.blocks, b, nb, y.blocks[nb]);
    FreesIs(x, pre, b, post, y);
  }

  lemma NewListSteps(x: Lists, pre: seq<Ptr>, b: Ptr, post: seq<Ptr>, nb: Ptr, j: nat, y: Lists)
    requires GivenBack(x, pre, b, post) && !LastIsFree(pre, x.blocks) && !HeadFree(post, x.blocks)
    requires nb !in x.blocks.Keys - {b}
    requires Distinct(x.list) && Distinct(x.free) && x.free == FreeOf(pre, x.blocks) + FreeOf(post, x.blocks)
    requires AboveFree(pre, x.blocks, j, |pre|) && Remove(x.list, b) == pre + post && x.list == pre + [b] + post
    requires y.list == if pre == [] then [nb] + Remove(x.list, b)
                       else InsertAfter(Remove(x.list, b), Before(x.list, b), nb)
    requires y.free == if j == 0 then [nb] + x.free else InsertAfter(x.free, pre[j - 1], nb)
    requires y.blocks == (x.blocks - {b})[nb := Block(x.blocks[b].offset, false)] && y.total == x.total
    ensures Frees(x, b, y)
  {
    hide Distinct, FreeOf, Layout, Linked, WellFormed, LastIsFree, HeadFree, Frees, Index, Remove, Before, InsertAfter;
    hide GivenBack;
    InItsPlace(pre, b, post, nb);
    LastFreeIs(pre, x.blocks, j);
    AfterPrevious(FreeOf(pre, x.blocks), FreeOf(post, x.blocks), nb);
    BlockThere(x, pre, b, post);
    NewSteps(x, pre, b, post, nb, y);
  }

  lemma BlockThere(x: Lists, pre: seq<Ptr>, b: Ptr, post: seq<Ptr>)
    requires GivenBack(x, pre, b, post)
    ensures b in x.blocks
  {
  }

  lemma GivenParts(x: Lists, b: Ptr) returns (pre: seq<Ptr>, post: seq<Ptr>)
    requires Valid(x) && b in x.blocks && x.blocks[b].used
    ensures GivenBack(x, pre, b, post) && |pre| == Index(x.list, b) && x.list == pre + [b] + post && b in x.list
    ensures x.free == FreeOf(pre, x.blocks) + FreeOf(post, x.blocks) && Distinct(x.free) && Distinct(x.list)
    ensures Elsewhere(pre, b, x.blocks) && Remove(x.list, b) == pre + post
    ensures pre != [] ==> x.list[|pre| - 1] == pre[|pre| - 1] && pre[|pre| - 1] in x.blocks && pre[|pre| - 1] != b
    ensures post != [] ==> x.list[|pre| + 1] == post[0]
    ensures pre != [] ==> (LastIsFree(pre, x.blocks) <==> !x.blocks[pre[|pre| - 1]].used)
    ensures post != [] ==> post[0] in x.blocks && post[0] != b
    ensures post != [] ==> (HeadFree(post, x.blocks) <==> !x.blocks[post[0]].used)
    ensures (pre == [] ==> !LastIsFree(pre, x.blocks)) && (post == [] ==> !HeadFree(post, x.blocks))
  {
    pre, post := Parts(x, b);
    NoMiddle(FreeOf(pre, x.blocks), FreeOf(post, x.blocks));
    At(x, pre, b, post);
  }

  lemma FreesValid(x: Lists, b: Ptr, y: Lists)
    requires Frees(x, b, y)
    ensures Valid(y)
  {
  }

  class ExHeap {
    /** All blocks in address order, and the free ones in address order. */
    var list: seq<Ptr>
    var freelist: seq<Ptr>
    var blocks: Blocks
    var total: nat
    const small: nat
    /** Are used and free block structures allocated alike? */
    const alike: bool

    ghost function State(): Lists
      reads this
    {
      Lists(list, freelist, blocks, total)
    }

    constructor (small: nat, alike: bool)
      ensures Valid(State()) && State() == Lists([], [], map[], 0)
      ensures this.small == small && this.alike == alike
    {
      list, freelist, blocks, total := [], [], map[], 0;
      this.small, this.alike := small, alike;
    }

    method FreeFreeblock(b: Ptr)
      modifies this
      ensures State() == Lists(Remove(old(list), b), Remove(old(freelist), b), old(blocks) - {b}, old(total))
    {
      freelist := Remove(freelist, b);
      list := Remove(list, b);
      blocks := blocks - {b};
    }

    method FreeUsedblock(b: Ptr)
      modifies this
      ensures State() == Lists(Remove(old(list), b), old(freelist), old(blocks) - {b}, old(total))
    {
      list := Remove(list, b);
      blocks := blocks - {b};
    }

    method NewBlock(offset: nat, used: bool, alloc: set<Ptr> -> Ptr) returns (b: Ptr)
      requires Allocator(alloc)
      modifies this
      ensures b !in old(blocks)
      ensures State() == Lists(old(list), old(freelist), old(blocks)[b := Block(offset, used)], old(total))
    {
      b := alloc(blocks.Keys);
      blocks := blocks[b := Block(offset, used)];
    }

    /** Carve a request out of a free block that is big enough. */
    method DoAlloc(b: Ptr, bsz: nat, size: nat, alloc: set<Ptr> -> Ptr) returns (r: Ptr)
      requires Room(State(), b, bsz, size) && Allocator(alloc)
      modifies this
      ensures CarvedFrom(old(State()), b, size, small, State(), r)
    {
      ghost var x := State();
      hide Distinct, FreeOf, Linked, Layout, Size, SizeOf, Remove, InsertBefore, InsertAfter, CarvedFrom, Index;
      var sz := if bsz - size < MIN_FREEBLOCK_SZ then size else bsz;
      if alike && sz == size {
        freelist := Remove(freelist, b);
        blocks := blocks[b := blocks[b].(used := true)];
        InPlaceSteps(x, b, bsz, size, small, State());
        return b;
      }
      var offset := blocks[b].offset;
      var a := NewBlock(if size < small then offset + sz - size else offset, true, alloc);
      if sz == size {
        list := InsertBefore(list, b, a);
        FreeFreeblock(b);
        WholeSteps(x, b, bsz, size, small, a, State());
      } else if size < small {
        list := InsertAfter(list, b, a);
        SmallSteps(x, b, bsz, size, small, a, State());
      } else {
        list := InsertBefore(list, b, a);
        var first, prev := Index(freelist, b) == 0, Before(freelist, b);
        FreeFreeblock(b);
        var nb := NewBlock(offset + size, false, alloc);
        freelist := if first then [nb] + freelist else InsertAfter(freelist, prev, nb);
        list := InsertAfter(list, a, nb);
        LargeSteps(x, b, bsz, size, small, a, nb, State());
      }
      return a;
    }

    /** The scan of the free list, from the end for a small request and from the start for a large one. */
    method FindFree(size: nat) returns (b: Ptr, sz: nat, found: bool)
      requires Linked(State())
      ensures found ==> Room(State(), b, sz, size) && Choice(Layout(State()), size, small) == Index(list, b) < |list|
      ensures !found ==> Choice(Layout(State()), size, small) == |list|
    {
      ghost var x := State();
      LayoutLength(x);
      hide Distinct, FreeOf, Linked, Layout, TooSmall, SizeOf;
      var i := 0;
      while i < |freelist|
        invariant 0 <= i <= |freelist| && State() == x
        invariant size < small ==> forall g :: |freelist| - i <= g < |freelist| ==> TooSmall(x, g, size)
        invariant size >= small ==> forall g :: 0 <= g < i ==> TooSmall(x, g, size)
      {
        var f := if size < small then |freelist| - 1 - i else i;
        b := freelist[f];
        FreeListed(x, f);
        var next := Index(list, b) + 1;
        var room := if next < |list| then blocks[list[next]].offset - blocks[b].offset else total - blocks[b].offset;
        SizeOfNext(x, b);
        assert SizeOf(x, b) == room;
        if room >= size {
          if size < small { ChosenBackward(x, f, size); } else { ChosenForward(x, f, size); }
          return b, room, true;
        }
        NotHere(x, f, size);
        i := i + 1;
      }
      NoneChosen(x, size, small);
      b, sz, found := 0, 0, false;
    }

    /** Ask for more room at the end. */
    method Grow(size: nat, sbrk: nat -> nat, alloc: set<Ptr> -> Ptr) returns (b: Ptr, sz: nat, ok: bool)
      requires Linked(State()) && Allocator(alloc) && sbrk(Wanted(Layout(State()), size)) >= total
      modifies this
      ensures ok == GrowsEnough(old(Layout(State())), size, sbrk(Wanted(old(Layout(State())), size)))
      ensures !ok ==> State() == old(State()).(total :=
        if old(EndsFree(State())) then sbrk(Wanted(old(Layout(State())), size)) else old(total))
      ensures ok ==> Room(State(), b, sz, size) && Linked(State()) && Index(list, b) + 1 == |list|
      ensures ok ==> Layout(State()) == Grown(old(Layout(State())), sbrk(Wanted(old(Layout(State())), size)))
      ensures UsedKept(old(blocks), blocks, {})
    {
      ghost var x := State();
      EndsFreeIs(x);
      LayoutLength(x);
      hide Distinct, FreeOf, Linked, Layout, SizeOf, Index, Grown, EndsFree;
      b, sz, ok := 0, 0, false;
      if !EndsFree(Lists(list, freelist, blocks, total)) {
        var cur := total;
        total := sbrk(cur + size);
        if total - cur < size {
          total := cur;
          return;
        }
        sz := total - cur;
        b := NewBlock(cur, false, alloc);
        freelist := freelist + [b];
        list := list + [b];
        GrownAtEnd(x, b, total, size);
      } else {
        var last := freelist[|freelist| - 1];
        var cur := blocks[last].offset;
        total := sbrk(cur + size);
        if total - cur < size {
          return;
        }
        WidenedAtEnd(x, total);
        b, sz := last, total - cur;
      }
      ok := true;
    }

    method EhAlloc(request: nat, sbrk: nat -> nat, alloc: set<Ptr> -> Ptr) returns (r: Ptr, ok: bool)
      requires Valid(State()) && Allocator(alloc)
      requires sbrk(Wanted(Layout(State()), Clamp(request))) >= total
      modifies this
      ensures Valid(State())
      ensures Allocates(old(State()), request, small, sbrk(Wanted(old(Layout(State())), Clamp(request))),
                        State(), r, ok)
    {
      ghost var x := State();
      ghost var answer := sbrk(Wanted(Layout(x), Clamp(request)));
      hide Distinct, FreeOf, Linked, Layout, SizeOf, WellFormed, Choice, Index, CarvedFrom, Allocates, UsedKept, Room;
      hide Grown, GrowsEnough, EndsFree, Wanted;
      var size := if request < MIN_FREEBLOCK_SZ then MIN_FREEBLOCK_SZ else request;
      var b, sz, found := FindFree(size);
      if found {
        r := DoAlloc(b, sz, size, alloc);
        FoundSteps(x, request, small, answer, b, State(), r);
        ok := true;
      } else {
        b, sz, ok := Grow(size, sbrk, alloc);
        r := 0;
        ghost var g := State();
        if ok {
          r := DoAlloc(b, sz, size, alloc);
          GrownSteps(x, request, small, answer, g, b, State(), r);
        } else {
          FailedSteps(x, request, small, answer, State());
        }
      }
      AllocatesValid(x, request, small, answer, State(), r, ok);
    }

    /** The backward search for a free block below index k. */
    method PreviousFree(k: nat) returns (j: nat)
      requires Known(list, blocks, k)
      ensures AboveFree(list, blocks, j, k)
    {
      j := k;
      while j > 0 && blocks[list[j - 1]].used
        invariant j <= k && forall i :: j <= i < k ==> blocks[list[i]].used
      {
        j := j - 1;
      }
    }

    /** A new free block, after prev in the list and after the last free block before it in the free list. */
    method AddFree(offset: nat, isFirst: bool, prev: Ptr, k: nat, alloc: set<Ptr> -> Ptr,
                   ghost x: Lists, ghost pre: seq<Ptr>, ghost b: Ptr, ghost post: seq<Ptr>)
      requires GivenBack(x, pre, b, post) && !LastIsFree(pre, x.blocks) && !HeadFree(post, x.blocks)
      requires Distinct(x.list) && Distinct(x.free) && x.free == FreeOf(pre, x.blocks) + FreeOf(post, x.blocks)
      requires Remove(x.list, b) == pre + post && x.list == pre + [b] + post && b in x.blocks
      requires offset == x.blocks[b].offset
      requires k == |pre| && isFirst == (k == 0) && (k > 0 ==> prev == Before(x.list, b) == pre[k - 1])
      requires Allocator(alloc)
      requires State() == Lists(Remove(x.list, b), x.free, x.blocks - {b}, x.total)
      requires Elsewhere(pre, b, x.blocks)
      modifies this
      ensures Frees(x, b, State())
    {
      hide Distinct, FreeOf, Linked, Layout, WellFormed, Remove, InsertAfter, Frees, GivenBack, LastIsFree, HeadFree;
      hide AboveFree, Before, Known, Elsewhere, Allocator;
      var nb := NewBlock(offset, false, alloc);
      var j := 0;
      if isFirst {
        list := [nb] + list;
        freelist := [nb] + freelist;
        NoneAbove(pre, x.blocks);
      } else {
        list := InsertAfter(list, prev, nb);
        NewInList(x, pre, b, post, nb);
        assert list == pre + ([nb] + post);
        BelowNew(pre, [nb] + post, b, x.blocks, blocks);
        j := PreviousFree(k);
        AboveBound(list, blocks, j, k);
        freelist := if j == 0 then [nb] + freelist else InsertAfter(freelist, list[j - 1], nb);
      }
      NewListSteps(x, pre, b, post, nb, j, State());
    }

    method EhFree(b: Ptr, alloc: set<Ptr> -> Ptr)
      requires Valid(State()) && b in blocks && blocks[b].used && Allocator(alloc)
      modifies this
      ensures Valid(State())
      ensures Frees(old(State()), b, State())
    {
      ghost var x := State();
      hide Distinct, FreeOf, Linked, Layout, WellFormed, Remove, InsertAfter, Frees, GivenBack, LastIsFree, HeadFree;
      hide Elsewhere, Allocator, Valid;
      ghost var pre: seq<Ptr>, post: seq<Ptr> := GivenParts(x, b);
      var offset := blocks[b].offset;
      var k := Index(list, b);
      var isFirst, isLast := k == 0, k + 1 == |list|;
      var prev := if isFirst then b else list[k - 1];
      var next := if isLast then b else list[k + 1];
      FreeUsedblock(b);
      if !isFirst && !blocks[prev].used {
        if !isLast && !blocks[next].used {
          FreeFreeblock(next);
          BothSteps(x, pre, b, post, State());
        } else {
          BeforeSteps(x, pre, b, post, State());
        }
      } else if !isLast && !blocks[next].used {
        blocks := blocks[next := blocks[next].(offset := offset)];
        AfterSteps(x, pre, b, post, State());
      } else {
        AddFree(offset, isFirst, prev, k, alloc, x, pre, b, post);
      }
      FreesValid(x, b, State());
    }
  }
}
