/** Chains of entry structures, as they are built front to back, turned round, and given their sub-levels. */
module DcarChains {
  import opened Common
  import opened DcarFormat
  import opened DcarTree
  import opened DcarCut
  import opened DcarEntries

  function Next(s: seq<Ptr>, i: int): Ptr { if 0 <= i < |s| then s[i] else NULL }

  /** The structures of a chain, each of which is in memory. */
  ghost predicate Present(m: Mem, s: seq<Ptr>) { Distinct(s) && forall i :: 0 <= i < |s| ==> s[i] != NULL && s[i] in m }

  /** Each structure links to the one before it. */
  ghost predicate Backward(m: Mem, s: seq<Ptr>) {
    Present(m, s) && forall i :: 0 <= i < |s| ==> m[s[i]].nxt == Next(s, i - 1)
  }

  /** Each structure links to the one after it. */
  ghost predicate Onward(m: Mem, s: seq<Ptr>) {
    Present(m, s) && forall i :: 0 <= i < |s| ==> m[s[i]].nxt == Next(s, i + 1)
  }

  /** Only links of the chain's structures differ. */
  ghost predicate Relinked(m: Mem, m': Mem, s: seq<Ptr>) {
    && m.Keys == m'.Keys
    && (forall p :: p in m ==> m'[p] == m[p].(nxt := m'[p].nxt))
    && (forall p :: p in m && p !in s ==> m'[p] == m[p])
  }

  /** A chain turned round above index k. */
  ghost predicate Turned(m0: Mem, m: Mem, s: seq<Ptr>, k: int) {
    && Present(m, s) && Relinked(m0, m, s)
    && forall i :: 0 <= i < |s| ==> m[s[i]].nxt == if i > k then Next(s, i + 1) else Next(s, i - 1)
  }

  lemma TurnOne(m0: Mem, m: Mem, s: seq<Ptr>, k: int)
    requires Turned(m0, m, s, k) && 0 <= k <= |s|
    ensures k < |s| ==> s[k] in m && Turned(m0, m[s[k] := m[s[k]].(nxt := Next(s, k + 1))], s, k - 1)
    ensures k == |s| ==> Turned(m0, m, s, k - 1)
    ensures Next(s, k) == NULL <==> k == |s|
    ensures k > 0 ==> s[k - 1] in m && s[k - 1] != NULL && m[s[k - 1]].nxt == Next(s, k - 2)
  {
    if k < |s| {
      var m' := m[s[k] := m[s[k]].(nxt := Next(s, k + 1))];
      forall i | 0 <= i < |s|
        ensures s[i] in m' && m'[s[i]].nxt == if i > k - 1 then Next(s, i + 1) else Next(s, i - 1)
      {
        assert i != k ==> s[i] != s[k];
      }
    }
  }

  lemma TurnedEnds(m0: Mem, m: Mem, s: seq<Ptr>)
    ensures Backward(m, s) ==> Turned(m, m, s, |s|)
    ensures Turned(m0, m, s, -1) ==> Onward(m, s) && Relinked(m0, m, s)
  {
  }

  /** A directory entry turned into an archive entry; false for a name or a size the format cannot hold. */
  function De2te(name: Bytes, node: Node): (bool, Te) {
    if |name| >= NAME_SIZE then (false, Te(name[..NAME_SIZE], 0, false, false))
    else if node.Directory? then (true, Te(name, 0, true, false))
    else (|node.body| < SIZE_LIMIT, Te(name, |node.body| % SIZE_LIMIT, false, false))
  }

  /** It reports no error exactly for names of less than 32 bytes and sizes of 30 bits. Nothing of the directory entry
      is lost then; with an error something is, exactly unless it is an empty file with a name of 32 bytes. */
  lemma De2teExact(item: Item)
    ensures De2te(item.name, NodeOf(item)).0 <==> |item.name| < NAME_SIZE && (item.File? ==> |item.body| < SIZE_LIMIT)
    ensures De2te(item.name, NodeOf(item)).1 == Te(item.name, if item.File? then |item.body| else 0, item.Dir?, false)
      <==> De2te(item.name, NodeOf(item)).0 || (|item.name| == NAME_SIZE && item == File(item.name, []))
  {
    if |item.name| == NAME_SIZE { assert item.name[..NAME_SIZE] == item.name; }
  }

  /** The entry is in any case that of the cut item. */
  lemma De2teCut(item: Item)
    ensures De2te(item.name, NodeOf(item)).1 == Bare(CutItem(item), false)
  {
  }

  /** The structures of one level with what lies below each. */
  function Shapes(ls: seq<Ptr>, kids: seq<Level>, i: nat): (ts: Level)
    requires i <= |ls| == |kids|
    ensures |ts| == |ls| - i
    decreases |ls| - i
  {
    if i == |ls| then [] else [Shape(ls[i], kids[i])] + Shapes(ls, kids, i + 1)
  }

  ghost predicate ChildOk(m: Mem, p: Ptr, kids: Level, item: Item) {
    && p in m && Linked(m, m[p].son, kids)
    && Listed(m, kids, if item.Dir? then item.items else []) && Apart(kids)
  }

  function Bare(item: Item, end: bool): Te {
    Te(item.name, SizeOf(item), item.Dir?, end)
  }

  /** What is found below different structures of a level is apart, and apart from the level. */
  ghost predicate Separate(ls: seq<Ptr>, kids: seq<Level>, n: nat) {
    && n <= |kids|
    && (forall i, p :: 0 <= i < n && p in Ptrs(kids[i]) ==> p !in ls)
    && (forall i, j :: 0 <= i < j < n ==> Ptrs(kids[i]) !! Ptrs(kids[j]))
  }

  ghost predicate Owned(p: Ptr, ls: seq<Ptr>, kids: seq<Level>, i: nat) {
    |ls| == |kids| && exists j :: i <= j < |ls| && (p == ls[j] || p in Ptrs(kids[j]))
  }

  /** What is known of a whole level once every directory in it has been read. */
  ghost predicate Complete(m: Mem, ls: seq<Ptr>, kids: seq<Level>, f: Forest) {
    && |ls| == |kids| == |f| && Onward(m, ls)
    && (forall j :: 0 <= j < |ls| ==> ChildOk(m, ls[j], kids[j], f[j]))
    && (forall j :: 0 <= j < |ls| ==> ls[j] in m && m[ls[j]].te == Bare(f[j], j == |ls| - 1))
  }

  lemma CompleteAt(m: Mem, ls: seq<Ptr>, kids: seq<Level>, f: Forest, i: nat)
    requires Complete(m, ls, kids, f) && i < |ls|
    ensures |ls| == |kids| == |f| && ls[i] != NULL && ls[i] in m && m[ls[i]].nxt == Next(ls, i + 1)
    ensures m[ls[i]].te == Bare(f[i], i == |ls| - 1)
    ensures Linked(m, m[ls[i]].son, kids[i]) && Listed(m, kids[i], if f[i].Dir? then f[i].items else [])
    ensures Apart(kids[i])
  {
    assert ChildOk(m, ls[i], kids[i], f[i]);
  }

  lemma {:induction false} AssembleLinked(m: Mem, ls: seq<Ptr>, kids: seq<Level>, f: Forest, i: nat)
    requires |ls| == |kids| == |f| && i <= |ls| && Complete(m, ls, kids, f)
    ensures Linked(m, Next(ls, i), Shapes(ls, kids, i)) && Listed(m, Shapes(ls, kids, i), f[i..])
    decreases |ls| - i
  {
    hide Complete, Apart;
    var ts := Shapes(ls, kids, i);
    if i < |ls| {
      AssembleLinked(m, ls, kids, f, i + 1);
      CompleteAt(m, ls, kids, f, i);
      assert ts[1..] == Shapes(ls, kids, i + 1) && f[i..][1..] == f[i + 1..];
    }
  }

  lemma {:induction false} AssembleOwned(ls: seq<Ptr>, kids: seq<Level>, i: nat, p: Ptr)
    requires i <= |ls| == |kids|
    ensures p in Ptrs(Shapes(ls, kids, i)) <==> Owned(p, ls, kids, i)
    decreases |ls| - i
  {
    if i < |ls| {
      AssembleOwned(ls, kids, i + 1, p);
      assert Shapes(ls, kids, i)[1..] == Shapes(ls, kids, i + 1);
    }
  }

  lemma NotOwned(ls: seq<Ptr>, kids: seq<Level>, i: nat, p: Ptr)
    requires i < |ls| == |kids| && Distinct(ls) && Separate(ls, kids, |ls|) && (p == ls[i] || p in Ptrs(kids[i]))
    ensures !Owned(p, ls, kids, i + 1)
    ensures p == ls[i] ==> p !in Ptrs(kids[i])
  {
    assert ls[i] in ls;
    forall j | i + 1 <= j < |ls| ensures p != ls[j] && p !in Ptrs(kids[j]) {
      assert ls[j] in ls && Ptrs(kids[i]) !! Ptrs(kids[j]);
    }
  }

  lemma {:induction false} AssembleApart(ls: seq<Ptr>, kids: seq<Level>, i: nat)
    requires i <= |ls| == |kids| && Distinct(ls) && Separate(ls, kids, |ls|)
    requires forall j :: 0 <= j < |ls| ==> Apart(kids[j])
    ensures Apart(Shapes(ls, kids, i))
    decreases |ls| - i
  {
    if i < |ls| {
      var ts, rest := Shapes(ls, kids, i), Shapes(ls, kids, i + 1);
      AssembleApart(ls, kids, i + 1);
      assert ts[1..] == rest && Apart(kids[i]);
      hide Distinct, Separate, Owned;
      forall p | p == ls[i] || p in Ptrs(kids[i]) ensures p !in Ptrs(rest) && (p == ls[i] ==> p !in Ptrs(kids[i])) {
        NotOwned(ls, kids, i, p);
        AssembleOwned(ls, kids, i + 1, p);
      }
    }
  }

  /** All the parts make one level. */
  lemma Assemble(m: Mem, ls: seq<Ptr>, kids: seq<Level>, f: Forest)
    requires |ls| == |kids| == |f| && Complete(m, ls, kids, f) && Separate(ls, kids, |ls|)
    ensures var ts := Shapes(ls, kids, 0);
      Linked(m, Next(ls, 0), ts) && Listed(m, ts, f) && Apart(ts)
    ensures forall p :: p in Ptrs(Shapes(ls, kids, 0)) <==> Owned(p, ls, kids, 0)
  {
    AssembleLinked(m, ls, kids, f, 0);
    assert f[0..] == f;
    hide Linked, Listed, Owned, Apart;
    forall j | 0 <= j < |ls| ensures Apart(kids[j]) { CompleteAt(m, ls, kids, f, j); }
    AssembleApart(ls, kids, 0);
    forall p ensures p in Ptrs(Shapes(ls, kids, 0)) <==> Owned(p, ls, kids, 0) { AssembleOwned(ls, kids, 0, p); }
  }

  // ----- building a level

  /** Fresh structures for the first entries of a level, each linked to the one before it. */
  ghost predicate Built(m: Mem, ls: seq<Ptr>, f: Forest) {
    && |ls| <= |f| && Present(m, ls)
    && forall j :: 0 <= j < |ls| ==> m[ls[j]] == AEntry(Next(ls, j - 1), NULL, Bare(f[j], false))
  }

  /** New structures, the parent's son, and nothing else. */
  ghost predicate Extended(m0: Mem, m: Mem, parent: Ptr, added: set<Ptr>) {
    && m.Keys == m0.Keys + added && m0.Keys !! added && parent in m0
    && (forall p :: p in m0 && p != parent ==> m[p] == m0[p])
    && m[parent] == m0[parent].(son := m[parent].son)
  }

  function SetOf(s: seq<Ptr>): set<Ptr> { set p | p in s }

  /** The memory after one more structure has been put in front. */
  function OneMore(m: Mem, parent: Ptr, ls: seq<Ptr>, item: Item, here: Ptr): Mem
    requires parent in m
  {
    var m1 := m[here := AEntry(Next(ls, |ls| - 1), NULL, Bare(item, false))];
    if ls == [] then m1[parent := m1[parent].(son := here)] else m1
  }

  lemma SetOfMore(ls: seq<Ptr>, here: Ptr)
    ensures SetOf(ls + [here]) == SetOf(ls) + {here}
    ensures forall i :: 0 <= i < |ls| ==> ls[i] in SetOf(ls)
  {
  }

  lemma ExtendOne(m0: Mem, m: Mem, parent: Ptr, ls: seq<Ptr>, item: Item, here: Ptr)
    requires here !in m && here != NULL && Extended(m0, m, parent, SetOf(ls)) && parent in m
    requires ls == [] || m[parent].son == ls[0]
    ensures var m2 := OneMore(m, parent, ls, item, here);
      Extended(m0, m2, parent, SetOf(ls + [here])) && parent in m2 && m2[parent].son == (ls + [here])[0]
  {
    SetOfMore(ls, here);
    hide SetOf, Bare;
  }

  lemma BuildOne(m: Mem, parent: Ptr, ls: seq<Ptr>, f: Forest, here: Ptr)
    requires Built(m, ls, f) && |ls| < |f| && here !in m && here != NULL && parent in m && parent !in ls
    ensures Built(OneMore(m, parent, ls, f[|ls|], here), ls + [here], f)
  {
    hide Bare;
    var t, m2 := ls + [here], OneMore(m, parent, ls, f[|ls|], here);
    forall j | 0 <= j < |t|
      ensures t[j] != NULL && t[j] in m2 && m2[t[j]] == AEntry(Next(t, j - 1), NULL, Bare(f[j], false))
    {
      if j < |ls| {
        assert m[ls[j]] == AEntry(Next(ls, j - 1), NULL, Bare(f[j], false));
        assert ls[j] in ls;
      }
    }
  }

  /** A level as it stands before its directories are read. */
  ghost predicate Standing(m: Mem, ls: seq<Ptr>, f: Forest) {
    && |ls| == |f| && Onward(m, ls)
    && forall j :: 0 <= j < |ls| ==> ls[j] in m && m[ls[j]].son == NULL && m[ls[j]].te == Bare(f[j], j == |ls| - 1)
  }

  function MarkEnd(m: Mem, ls: seq<Ptr>): Mem
    requires ls != [] ==> ls[|ls| - 1] in m
  {
    if ls == [] then m else var p := ls[|ls| - 1]; m[p := m[p].(te := m[p].te.(end := true))]
  }

  lemma BuiltBackward(m: Mem, ls: seq<Ptr>, f: Forest)
    requires Built(m, ls, f)
    ensures ls != [] ==> ls[|ls| - 1] in m
    ensures Backward(MarkEnd(m, ls), ls)
  {
    var m1 := MarkEnd(m, ls);
    forall j | 0 <= j < |ls| ensures ls[j] in m1 && m1[ls[j]].nxt == Next(ls, j - 1) {
      assert m[ls[j]] == AEntry(Next(ls, j - 1), NULL, Bare(f[j], false));
    }
  }

  /** The level, marked at its end and turned round. */
  lemma TurnedRound(m0: Mem, m: Mem, parent: Ptr, ls: seq<Ptr>, f: Forest, m2: Mem)
    requires Built(m, ls, f) && |ls| == |f| && Extended(m0, m, parent, SetOf(ls))
    requires ls != [] ==> ls[|ls| - 1] in m
    requires Relinked(MarkEnd(m, ls), m2, ls) && Onward(m2, ls)
    ensures Standing(m2, ls, f) && Extended(m0, m2, parent, SetOf(ls)) && m2[parent] == m[parent]
  {
    var m1 := MarkEnd(m, ls);
    forall j | 0 <= j < |ls| ensures ls[j] in m2 && m2[ls[j]].son == NULL && m2[ls[j]].te == Bare(f[j], j == |ls| - 1) {
      TurnedOne(m, ls, f, m2, j);
    }
    forall p | p in m0 ensures p in m && m2[p] == m[p] {
      hide Built, Onward;
      assert p in SetOf(ls) <==> p in ls;
    }
  }

  lemma TurnedOne(m: Mem, ls: seq<Ptr>, f: Forest, m2: Mem, j: nat)
    requires Built(m, ls, f) && |ls| == |f| && j < |ls| && ls[|ls| - 1] in m
    requires Relinked(MarkEnd(m, ls), m2, ls)
    ensures ls[j] in m2 && m2[ls[j]].son == NULL && m2[ls[j]].te == Bare(f[j], j == |ls| - 1)
  {
    var m1 := MarkEnd(m, ls);
    assert m[ls[j]] == AEntry(Next(ls, j - 1), NULL, Bare(f[j], false));
    assert j < |ls| - 1 ==> ls[j] != ls[|ls| - 1];
    assert m1[ls[j]].son == NULL && m1[ls[j]].te == Bare(f[j], j == |ls| - 1);
  }

  // ----- the directory that is archived

  /** The file system holds the forest below a path. */
  ghost predicate Source(files: Files, path: Path, f: Forest)
    decreases f
  {
    f != [] ==>
      && path + [f[0].name] in files && files[path + [f[0].name]] == NodeOf(f[0])
      && (f[0].Dir? ==> Source(files, path + [f[0].name], f[0].items))
      && Source(files, path, f[1..])
  }

  /** It holds what the entries say is to be copied: the files of a level that are not empty, and of those below. */
  ghost predicate Keeps(files: Files, path: Path, g: Forest)
    decreases g
  {
    g != [] ==>
      && (SizeOf(g[0]) != 0 ==>
        path + [g[0].name] in files && files[path + [g[0].name]] == NodeOf(g[0]))
      && (g[0].Dir? ==> Keeps(files, path + [g[0].name], g[0].items))
      && Keeps(files, path, g[1..])
  }

  lemma {:induction false} SourceKeeps(files: Files, path: Path, f: Forest)
    requires Source(files, path, f)
    ensures Keeps(files, path, Cut(f))
    decreases f
  {
    if f != [] {
      if f[0].Dir? { SourceKeeps(files, path + [f[0].name], f[0].items); }
      SourceKeeps(files, path, f[1..]);
      assert Cut(f)[1..] == Cut(f[1..]);
    }
  }

  function Names(f: Forest): (n: seq<Bytes>)
    ensures |n| == |f| && forall i :: 0 <= i < |f| ==> n[i] == f[i].name
  {
    if f == [] then [] else [f[0].name] + Names(f[1..])
  }

  /** Reading the directories gives the forest's names, in its order. */
  ghost predicate Lists(listing: map<Path, seq<Bytes>>, path: Path, f: Forest)
    decreases f, 1
  {
    path in listing && listing[path] == Names(f) && SubLists(listing, path, f)
  }

  ghost predicate SubLists(listing: map<Path, seq<Bytes>>, path: Path, f: Forest)
    decreases f, 0
  {
    f != [] ==>
      && (f[0].Dir? ==> Lists(listing, path + [f[0].name], f[0].items))
      && SubLists(listing, path, f[1..])
  }

  /** What is known of one entry of a directory that is archived. */
  ghost predicate EntryAt(listing: map<Path, seq<Bytes>>, files: Files, path: Path, item: Item) {
    && path + [item.name] in files && files[path + [item.name]] == NodeOf(item)
    && (item.Dir? ==>
      && Source(files, path + [item.name], item.items) && Lists(listing, path + [item.name], item.items)
      && Strings(item.items))
  }

  lemma ListsParts(listing: map<Path, seq<Bytes>>, path: Path, f: Forest)
    requires Lists(listing, path, f)
    ensures path in listing && listing[path] == Names(f) && SubLists(listing, path, f)
  {
  }

  lemma EntryParts(listing: map<Path, seq<Bytes>>, files: Files, path: Path, item: Item)
    requires EntryAt(listing, files, path, item)
    ensures path + [item.name] in files && De2te(item.name, files[path + [item.name]]).1 == Bare(CutItem(item), false)
    ensures item.Dir? ==>
      && Source(files, path + [item.name], item.items) && Lists(listing, path + [item.name], item.items)
      && Strings(item.items)
    ensures CutItem(item).Dir? ==> item.Dir? && CutItem(item) == Dir(item.name, Cut(item.items))
  {
    De2teCut(item);
  }

  lemma NothingBuilt(m: Mem, parent: Ptr, f: Forest)
    requires parent in m
    ensures Built(m, [], f) && Extended(m, m, parent, SetOf([]))
  {
  }

  lemma {:induction false} EntriesAt(listing: map<Path, seq<Bytes>>, files: Files, path: Path, f: Forest, i: nat)
    requires Source(files, path, f) && SubLists(listing, path, f) && Strings(f) && i < |f|
    ensures EntryAt(listing, files, path, f[i])
    decreases f
  {
    if i > 0 {
      EntriesAt(listing, files, path, f[1..], i - 1);
    }
  }

  /** An allocator of structures never hands out one that is in use. */
  ghost predicate Allocator(alloc: set<Ptr> -> Ptr) {
    forall s {:trigger alloc(s)} :: alloc(s) !in s && alloc(s) != NULL
  }

  // ----- reading the directories of a level

  ghost predicate Outside(m: Mem, kids: seq<Level>) { forall j, p :: 0 <= j < |kids| && p in Ptrs(kids[j]) ==> p !in m }

  /** The part of a level that has been read: the directories below index i, with what lies below each. */
  ghost predicate ReadUpTo(m0: Mem, m: Mem, ls: seq<Ptr>, kids: seq<Level>, f: Forest, i: nat) {
    && i <= |ls| == |kids| == |f| && Onward(m, ls) && Separate(ls, kids, |ls|)
    && m0.Keys <= m.Keys
    && (forall p {:trigger m[p]} :: p in m0 && p !in ls ==> m[p] == m0[p])
    && (forall p :: p in m <==> p in m0 || Owned(p, ls, kids, 0))
    && Outside(m0, kids)
    && (forall j :: 0 <= j < |ls| ==> ls[j] in m0 && m[ls[j]].te == Bare(f[j], j == |ls| - 1))
    && (forall j :: 0 <= j < i ==> ChildOk(m, ls[j], kids[j], f[j]))
    && (forall j :: i <= j < |ls| ==> kids[j] == [] && m[ls[j]].son == NULL)
  }

  lemma NothingRead(m: Mem, ls: seq<Ptr>, f: Forest) returns (kids: seq<Level>)
    requires Standing(m, ls, f)
    ensures ReadUpTo(m, m, ls, kids, f, 0)
  {
    kids := seq(|ls|, i => []);
    assert forall j :: 0 <= j < |ls| ==> Ptrs(kids[j]) == {};
  }

  lemma {:induction false} LinkedSame(m: Mem, m': Mem, p: Ptr, ts: Level)
    requires Linked(m, p, ts) && SameOn(m, m', Ptrs(ts))
    ensures Linked(m', p, ts)
    decreases ts
  {
    if ts != [] {
      assert ts[0].p in Ptrs(ts);
      LinkedSame(m, m', m[p].nxt, ts[1..]);
      LinkedSame(m, m', m[p].son, ts[0].kids);
    }
  }

  lemma {:induction false} LinkedPresent(m: Mem, p: Ptr, ts: Level)
    requires Linked(m, p, ts)
    ensures Ptrs(ts) <= m.Keys
    decreases ts
  {
    if ts != [] {
      LinkedPresent(m, m[p].nxt, ts[1..]);
      LinkedPresent(m, m[p].son, ts[0].kids);
    }
  }

  /** An entry that is not a directory has nothing below it. */
  lemma FileRead(m0: Mem, m: Mem, ls: seq<Ptr>, kids: seq<Level>, f: Forest, i: nat)
    requires ReadUpTo(m0, m, ls, kids, f, i) && i < |ls| && !f[i].Dir?
    ensures ReadUpTo(m0, m, ls, kids, f, i + 1)
  {
    assert ls[i] in m0 && kids[i] == [] && m[ls[i]].son == NULL;
    NoChild(m, ls[i], f[i]);
    hide ChildOk, Separate, Owned, Outside, Bare, Onward;
  }

  lemma NoChild(m: Mem, p: Ptr, item: Item)
    requires p in m && m[p].son == NULL && !item.Dir?
    ensures ChildOk(m, p, [], item)
  {
  }

  /** What reading one directory added. */
  ghost predicate Added(m: Mem, m': Mem, parent: Ptr, ts: Level, f: Forest) {
    && Extended(m, m', parent, Ptrs(ts))
    && Linked(m', m'[parent].son, ts) && Listed(m', ts, f) && Apart(ts)
  }

  lemma DirSeparate(m0: Mem, m: Mem, ls: seq<Ptr>, kids: seq<Level>, f: Forest, i: nat, m': Mem, ts: Level)
    requires ReadUpTo(m0, m, ls, kids, f, i) && i < |ls| && f[i].Dir?
    requires Added(m, m', ls[i], ts, f[i].items)
    ensures Separate(ls, kids[i := ts], |ls|)
    ensures Outside(m0, kids[i := ts])
  {
    hide ChildOk, Onward, Ptrs, Linked, Listed, Apart;
    var kids' := kids[i := ts];
    forall j, p | 0 <= j < |ls| && p in Ptrs(kids'[j]) ensures p !in m0 && p !in ls {
      if j != i { assert p in Ptrs(kids[j]); }
    }
    forall j | 0 <= j < |ls| && j != i ensures Ptrs(kids[j]) !! Ptrs(ts) {
      forall p | p in Ptrs(kids[j]) ensures p in m { assert Owned(p, ls, kids, 0); }
    }
  }

  lemma DirOwned(m0: Mem, m: Mem, ls: seq<Ptr>, kids: seq<Level>, f: Forest, i: nat, m': Mem, ts: Level)
    requires ReadUpTo(m0, m, ls, kids, f, i) && i < |ls| && f[i].Dir?
    requires Added(m, m', ls[i], ts, f[i].items)
    ensures forall p :: p in m' <==> p in m0 || Owned(p, ls, kids[i := ts], 0)
  {
    hide ChildOk, Onward, Ptrs, Linked, Listed, Apart, Separate;
    var kids' := kids[i := ts];
    forall p ensures p in m' <==> p in m0 || Owned(p, ls, kids', 0) {
      NoPtrs();
      if Owned(p, ls, kids, 0) {
        var j :| 0 <= j < |ls| && (p == ls[j] || p in Ptrs(kids[j]));
        assert p == ls[j] || p in Ptrs(kids'[j]);
      }
      if p in Ptrs(ts) { assert p in Ptrs(kids'[i]); }
      if Owned(p, ls, kids', 0) {
        var j :| 0 <= j < |ls| && (p == ls[j] || p in Ptrs(kids'[j]));
        if j != i { assert Owned(p, ls, kids, 0) by { assert p == ls[j] || p in Ptrs(kids[j]); } }
      }
    }
  }

  lemma NoPtrs()
    ensures Ptrs([]) == {}
  {
  }

  lemma DirRest(m0: Mem, m: Mem, ls: seq<Ptr>, kids: seq<Level>, f: Forest, i: nat, m': Mem, ts: Level)
    requires ReadUpTo(m0, m, ls, kids, f, i) && i < |ls| && f[i].Dir?
    requires Added(m, m', ls[i], ts, f[i].items)
    ensures Onward(m', ls) && m0.Keys <= m'.Keys
    ensures forall p {:trigger m'[p]} :: p in m0 && p !in ls ==> m'[p] == m0[p]
    ensures forall j :: 0 <= j < |ls| ==> ls[j] in m0 && m'[ls[j]].te == Bare(f[j], j == |ls| - 1)
    ensures forall j :: i < j < |ls| ==> kids[j] == [] && m'[ls[j]].son == NULL
  {
    hide ChildOk, Ptrs, Linked, Listed, Apart, Separate, Owned, Bare, Outside;
    forall j | 0 <= j < |ls|
      ensures ls[j] in m' && m'[ls[j]] == m[ls[j]].(son := m'[ls[j]].son) && (j != i ==> m'[ls[j]] == m[ls[j]])
    {
      assert ls[j] in m0;
    }
    forall p | p in m0 && p !in ls ensures p in m && m'[p] == m[p] == m0[p] { assert ls[i] in ls; }
  }

  /** Reading the next directory extends the part of the level that has been read. */
  lemma DirRead(m0: Mem, m: Mem, ls: seq<Ptr>, kids: seq<Level>, f: Forest, i: nat, m': Mem, ts: Level)
    requires ReadUpTo(m0, m, ls, kids, f, i) && i < |ls| && f[i].Dir?
    requires Added(m, m', ls[i], ts, f[i].items)
    ensures ReadUpTo(m0, m', ls, kids[i := ts], f, i + 1)
  {
    DirChildren(m0, m, ls, kids, f, i, m', ts);
    DirSeparate(m0, m, ls, kids, f, i, m', ts);
    DirOwned(m0, m, ls, kids, f, i, m', ts);
    DirRest(m0, m, ls, kids, f, i, m', ts);
    Sizes(m0, m, ls, kids, f, i);
    hide ChildOk, Ptrs, Separate, Owned, Bare, Onward, Added;
  }

  lemma Sizes(m0: Mem, m: Mem, ls: seq<Ptr>, kids: seq<Level>, f: Forest, i: nat)
    requires ReadUpTo(m0, m, ls, kids, f, i)
    ensures i <= |ls| == |kids| == |f|
  {
  }

  lemma DirChildren(m0: Mem, m: Mem, ls: seq<Ptr>, kids: seq<Level>, f: Forest, i: nat, m': Mem, ts: Level)
    requires ReadUpTo(m0, m, ls, kids, f, i) && i < |ls| && f[i].Dir?
    requires Added(m, m', ls[i], ts, f[i].items)
    ensures forall j :: 0 <= j <= i ==> ChildOk(m', ls[j], kids[i := ts][j], f[j])
  {
    forall j | 0 <= j <= i ensures ChildOk(m', ls[j], kids[i := ts][j], f[j]) {
      if j < i {
        assert ChildOk(m, ls[j], kids[j], f[j]);
        assert ls[j] != ls[i];
        LinkedPresent(m, m[ls[j]].son, kids[j]);
        assert ls[i] in ls;
        LinkedSame(m, m', m[ls[j]].son, kids[j]);
        ListedSame(m, m', kids[j], if f[j].Dir? then f[j].items else []);
      }
    }
  }

  lemma NextFact(m0: Mem, m: Mem, ls: seq<Ptr>, kids: seq<Level>, f: Forest, i: nat)
    requires ReadUpTo(m0, m, ls, kids, f, i) && i < |ls|
    ensures i < |f| && ls[i] != NULL && ls[i] in m && m[ls[i]].nxt == Next(ls, i + 1)
    ensures m[ls[i]].te == Bare(f[i], i == |ls| - 1) && m[ls[i]].son == NULL
  {
    hide Separate, Owned, ChildOk, Outside;
  }

  lemma LinkFact(m0: Mem, m: Mem, ls: seq<Ptr>, kids: seq<Level>, f: Forest, i: nat, j: nat)
    requires ReadUpTo(m0, m, ls, kids, f, i) && j <= |ls|
    ensures Next(ls, j) == NULL <==> j == |ls|
    ensures j < |ls| ==> ls[j] in m && m[ls[j]].nxt == Next(ls, j + 1)
  {
    hide Separate, Owned, ChildOk, Outside;
  }

  /** A level all of whose directories have been read hangs below its parent as a whole. */
  lemma AllRead(m0: Mem, m1: Mem, m: Mem, parent: Ptr, ls: seq<Ptr>, kids: seq<Level>, f: Forest)
    requires ReadUpTo(m1, m, ls, kids, f, |ls|) && Extended(m0, m1, parent, SetOf(ls)) && parent in m1
    requires m1[parent].son == Next(ls, 0)
    ensures Added(m0, m, parent, Shapes(ls, kids, 0), f)
  {
    hide ReadUpTo, Onward, Complete, Separate, Linked, Listed, Apart, Ptrs, Shapes, Owned, SetOf;
    WholeLevel(m1, m, ls, kids, f);
    Assemble(m, ls, kids, f);
    ParentKept(m0, m1, m, parent, ls, kids, f);
    AllNew(m0, m1, m, parent, ls, kids, f);
  }

  lemma AllNew(m0: Mem, m1: Mem, m: Mem, parent: Ptr, ls: seq<Ptr>, kids: seq<Level>, f: Forest)
    requires ReadUpTo(m1, m, ls, kids, f, |ls|) && Extended(m0, m1, parent, SetOf(ls)) && |ls| == |kids| == |f|
    ensures Ptrs(Shapes(ls, kids, 0)) == m.Keys - m0.Keys
  {
    hide ReadUpTo, Ptrs, Shapes, Owned, SetOf, Extended;
    forall p ensures p in Ptrs(Shapes(ls, kids, 0)) <==> p in m && p !in m0 {
      AssembleOwned(ls, kids, 0, p);
      OwnedNew(m0, m1, m, parent, ls, kids, f, p);
    }
  }

  lemma WholeLevel(m1: Mem, m: Mem, ls: seq<Ptr>, kids: seq<Level>, f: Forest)
    requires ReadUpTo(m1, m, ls, kids, f, |ls|)
    ensures |ls| == |kids| == |f| && Complete(m, ls, kids, f) && Separate(ls, kids, |ls|)
  {
    hide Separate, Owned, ChildOk, Outside, Bare;
    forall j | 0 <= j < |ls| ensures ls[j] in m && m[ls[j]].te == Bare(f[j], j == |ls| - 1) { assert ls[j] in m1; }
  }

  lemma ParentKept(m0: Mem, m1: Mem, m: Mem, parent: Ptr, ls: seq<Ptr>, kids: seq<Level>, f: Forest)
    requires ReadUpTo(m1, m, ls, kids, f, |ls|) && Extended(m0, m1, parent, SetOf(ls))
    ensures m0.Keys <= m.Keys && parent in m && parent in m1 && m[parent] == m1[parent]
    ensures parent in m0 && m[parent] == m0[parent].(son := m[parent].son)
    ensures forall p :: p in m0 && p != parent ==> m[p] == m0[p]
  {
    hide Separate, Owned, ChildOk, Outside, Bare, Onward;
    forall p | p in m0 ensures p in m && p in m1 && m[p] == m1[p] {
      assert p in SetOf(ls) <==> p in ls;
    }
  }

  lemma OwnedNew(m0: Mem, m1: Mem, m: Mem, parent: Ptr, ls: seq<Ptr>, kids: seq<Level>, f: Forest, p: Ptr)
    requires ReadUpTo(m1, m, ls, kids, f, |ls|) && Extended(m0, m1, parent, SetOf(ls))
    ensures Owned(p, ls, kids, 0) <==> p in m && p !in m0
  {
    hide Separate, ChildOk, Bare, Onward, Ptrs;
    assert p in SetOf(ls) <==> p in ls;
    assert p in m <==> p in m1 || Owned(p, ls, kids, 0);
    if Owned(p, ls, kids, 0) {
      var j :| 0 <= j < |ls| && (p == ls[j] || p in Ptrs(kids[j]));
      if p == ls[j] { assert ls[j] in SetOf(ls); }
    }
    if p in ls {
      var j :| 0 <= j < |ls| && ls[j] == p;
      assert Owned(p, ls, kids, 0);
    }
  }
}
