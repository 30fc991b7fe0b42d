/** Names on the RAM disk: looking up a path, and how each change of the tree changes what paths mean. */
module RamNames {
  import opened RamTree
  import opened RamSpec

  predicate Answers(mem: Mem, p: Ptr, name: string) { p in mem && !mem[p].unlinked && mem[p].name == name }

  /** The first brother that has the name and is not to be unlinked. */
  function FindChild(mem: Mem, k: seq<Ptr>, name: string): (c: Ptr)
    ensures c != NULL ==> c in k && Answers(mem, c, name)
  {
    if k == [] then NULL
    else if Answers(mem, k[0], name) then k[0]
    else FindChild(mem, k[1..], name)
  }

  function KidsOf(kids: Kids, p: Ptr): seq<Ptr> { if p in kids then kids[p] else [] }

  /** The node that a list of names leads to from d. */
  function From(mem: Mem, kids: Kids, d: Ptr, path: seq<string>): Ptr {
    if path == [] then d
    else FindChild(mem, KidsOf(kids, From(mem, kids, d, path[..|path| - 1])), path[|path| - 1])
  }

  function Resolve(d: Disk, path: seq<string>): Ptr { From(d.mem, d.kids, ROOT, path) }

  /** 1 stands for regular files, 2 for directories, 3 for both. */
  function Filter(mem: Mem, p: Ptr, what: int): Ptr {
    if p in mem && (what == 3 || (what == 2 && mem[p].dir) || (what == 1 && !mem[p].dir)) then p else NULL
  }

  /** What the recursive search finds among brothers k. */
  function Walk(mem: Mem, kids: Kids, k: seq<Ptr>, segs: seq<string>, what: int): Ptr
    requires segs != []
    decreases |segs|
  {
    if |segs| == 1 then Filter(mem, FindChild(mem, k, segs[0]), what)
    else
      var c := Filter(mem, FindChild(mem, k, segs[0]), 2);
      if c == NULL then NULL else Walk(mem, kids, KidsOf(kids, c), segs[1..], what)
  }

  /** The search starts at the level of the root itself, whose name is empty. */
  function Lookup(d: Disk, segs: seq<string>, what: int): Ptr
    requires segs != []
  {
    Walk(d.mem, d.kids, [ROOT], segs, what)
  }

  lemma {:induction false} FromFront(mem: Mem, kids: Kids, d: Ptr, path: seq<string>)
    requires path != []
    ensures From(mem, kids, d, path)
         == From(mem, kids, FindChild(mem, KidsOf(kids, d), path[0]), path[1..])
  {
    if |path| > 1 {
      var init := path[..|path| - 1];
      FromFront(mem, kids, d, init);
      assert init[1..] == path[1..][..|path| - 2];
    }
  }

  lemma {:induction false} FromNull(mem: Mem, kids: Kids, path: seq<string>)
    requires NULL !in kids
    ensures From(mem, kids, NULL, path) == NULL
  {
    if path != [] { FromNull(mem, kids, path[..|path| - 1]); }
  }

  lemma {:induction false} FromFile(mem: Mem, kids: Kids, d: Ptr, path: seq<string>)
    requires NULL !in kids && KidsOf(kids, d) == [] && path != []
    ensures From(mem, kids, d, path) == NULL
  {
    FromFront(mem, kids, d, path);
    FromNull(mem, kids, path[1..]);
  }

  /** Below the root only directories have children. */
  ghost predicate FathersBelow(d: Disk) {
    forall p {:trigger KidsOf(d.kids, p)} :: p in d.mem && p != ROOT && KidsOf(d.kids, p) != [] ==> d.mem[p].dir
  }

  /** Only directories have children, and the root is one. */
  ghost predicate Fathers(d: Disk) { ROOT in d.mem && d.mem[ROOT].dir && FathersBelow(d) }

  /** The recursive search and the meaning of a path agree. */
  lemma {:induction false} WalkFinds(d: Disk, p: Ptr, path: seq<string>, what: int)
    requires Valid(d) && Fathers(d) && p in d.mem && path != []
    ensures Walk(d.mem, d.kids, d.kids[p], path, what) == Filter(d.mem, From(d.mem, d.kids, p, path), what)
    decreases |path|
  {
    FromFront(d.mem, d.kids, p, path);
    var c := FindChild(d.mem, d.kids[p], path[0]);
    if |path| > 1 {
      if Filter(d.mem, c, 2) == NULL {
        if c in d.mem {
          assert Parent(d.mem, d.kids, c);
          FromFile(d.mem, d.kids, c, path[1..]);
        } else {
          FromNull(d.mem, d.kids, path[1..]);
        }
      } else {
        WalkFinds(d, c, path[1..], what);
      }
    }
  }

  /** A path that starts with a slash is looked up below the root; any other is never found. */
  lemma LookupResolves(d: Disk, segs: seq<string>, what: int)
    requires Valid(d) && segs != []
    ensures Fathers(d) && segs[0] == "" ==> Lookup(d, segs, what) == Filter(d.mem, Resolve(d, segs[1..]), what)
    ensures segs[0] != "" ==> Lookup(d, segs, what) == NULL
  {
    assert [ROOT][0] == ROOT && [ROOT][1..] == [];
    assert FindChild(d.mem, [ROOT], segs[0]) == if segs[0] == "" then ROOT else FindChild(d.mem, [], segs[0]);
    if Fathers(d) && segs[0] == "" && |segs| > 1 { WalkFinds(d, ROOT, segs[1..], what); }
  }

  /** Only the names of brothers that are not to be unlinked must differ. */
  ghost predicate UniqueIn(mem: Mem, k: seq<Ptr>) {
    forall i, j :: 0 <= i < j < |k| && k[i] in mem && k[j] in mem && !mem[k[i]].unlinked && !mem[k[j]].unlinked
      ==> mem[k[i]].name != mem[k[j]].name
  }

  ghost predicate UniqueNames(d: Disk) {
    forall p {:trigger KidsOf(d.kids, p)} :: p in d.mem ==> UniqueIn(d.mem, KidsOf(d.kids, p))
  }

  lemma {:induction false} FindChildOnly(mem: Mem, k: seq<Ptr>, i: nat)
    requires i < |k| && UniqueIn(mem, k) && k[i] in mem && !mem[k[i]].unlinked
    ensures FindChild(mem, k, mem[k[i]].name) == k[i]
  {
    if i > 0 {
      assert k[0] in mem && !mem[k[0]].unlinked ==> mem[k[0]].name != mem[k[i]].name;
      FindChildOnly(mem, k[1..], i - 1);
    }
  }

  lemma {:induction false} FindChildNone(mem: Mem, k: seq<Ptr>, name: string)
    requires forall i :: 0 <= i < |k| ==> !Answers(mem, k[i], name)
    ensures FindChild(mem, k, name) == NULL
  {
    if k != [] { FindChildNone(mem, k[1..], name); }
  }

  lemma {:induction false} FindChildSame(mem: Mem, mem': Mem, k: seq<Ptr>, name: string)
    requires forall i :: 0 <= i < |k| ==> (Answers(mem, k[i], name) <==> Answers(mem', k[i], name))
    ensures FindChild(mem, k, name) == FindChild(mem', k, name)
  {
    if k != [] { FindChildSame(mem, mem', k[1..], name); }
  }

  lemma {:induction false} FindChildAppend(mem: Mem, k: seq<Ptr>, c: Ptr, name: string)
    requires NULL !in k
    ensures FindChild(mem, k + [c], name)
         == if FindChild(mem, k, name) != NULL then FindChild(mem, k, name)
            else if Answers(mem, c, name) then c else NULL
  {
    if k == [] {
      assert [c][1..] == [];
    } else {
      assert (k + [c])[1..] == k[1..] + [c];
      FindChildAppend(mem, k[1..], c, name);
    }
  }

  lemma {:induction false} FindChildWithout(mem: Mem, k: seq<Ptr>, i: nat, name: string)
    requires i < |k| && !Answers(mem, k[i], name)
    ensures FindChild(mem, Without(k, i), name) == FindChild(mem, k, name)
  {
    if i == 0 {
      assert Without(k, 0) == k[1..];
    } else {
      assert Without(k, i)[1..] == Without(k[1..], i - 1);
      FindChildWithout(mem, k[1..], i - 1, name);
    }
  }

  lemma {:induction false} FindChildMissing(mem: Mem, k: seq<Ptr>, name: string, i: nat)
    requires FindChild(mem, k, name) == NULL && NULL !in k && i < |k|
    ensures !Answers(mem, k[i], name)
  {
    if i > 0 { FindChildMissing(mem, k[1..], name, i - 1); }
  }

  /** No two paths lead to one node. */
  lemma {:induction false} ResolveInjective(d: Disk, a: seq<string>, b: seq<string>)
    requires Valid(d) && Resolve(d, a) == Resolve(d, b) != NULL
    ensures a == b
  {
    ResolveParent(d, a);
    ResolveParent(d, b);
    if a != [] && b != [] {
      ResolveInjective(d, a[..|a| - 1], b[..|b| - 1]);
      assert a == a[..|a| - 1] + [a[|a| - 1]] && b == b[..|b| - 1] + [b[|b| - 1]];
    }
  }

  lemma ResolveParent(d: Disk, a: seq<string>)
    requires Valid(d) && Resolve(d, a) != NULL
    ensures Resolve(d, a) in d.mem
    ensures a == [] <==> Resolve(d, a) == ROOT
    ensures a != [] ==> d.mem[Resolve(d, a)].father == Resolve(d, a[..|a| - 1]) != NULL
                        && d.mem[Resolve(d, a)].name == a[|a| - 1]
  {
    if a != [] {
      var f := Resolve(d, a[..|a| - 1]);
      var c := Resolve(d, a);
      var i :| 0 <= i < |KidsOf(d.kids, f)| && KidsOf(d.kids, f)[i] == c;
      assert ChildLinked(d.mem, d.kids, d.rank, f, i);
    }
  }

  /** e finds under every node what d finds there, except the given name in the given family. */
  ghost predicate SameChildren(d: Disk, e: Disk, f: Ptr, name: string) {
    forall p, n {:trigger FindChild(e.mem, KidsOf(e.kids, p), n)} :: (p != f || n != name) ==>
      FindChild(e.mem, KidsOf(e.kids, p), n) == FindChild(d.mem, KidsOf(d.kids, p), n)
  }

  /** When one name in one family changes its meaning between childless nodes, one path changes its meaning. */
  lemma {:induction false} ResolveChange(d: Disk, e: Disk, target: seq<string>, path: seq<string>)
    requires Valid(d) && target != [] && Resolve(d, target[..|target| - 1]) != NULL
    requires var f, name := Resolve(d, target[..|target| - 1]), target[|target| - 1];
      SameChildren(d, e, f, name)
      && KidsOf(d.kids, Resolve(d, target)) == []
      && KidsOf(e.kids, FindChild(e.mem, KidsOf(e.kids, f), name)) == []
    ensures Resolve(e, path)
         == if path == target then
              FindChild(e.mem, KidsOf(e.kids, Resolve(d, target[..|target| - 1])), target[|target| - 1])
            else Resolve(d, path)
  {
    if path != [] {
      var init, last := path[..|path| - 1], path[|path| - 1];
      ResolveChange(d, e, target, init);
      if init != target {
        var g := Resolve(d, init);
        assert Resolve(e, init) == g;
        if g == Resolve(d, target[..|target| - 1]) && last == target[|target| - 1] {
          ResolveInjective(d, init, target[..|target| - 1]);
          assert path == init + [last] && target == target[..|target| - 1] + [last];
        } else {
          assert FindChild(e.mem, KidsOf(e.kids, g), last) == FindChild(d.mem, KidsOf(d.kids, g), last);
        }
      }
    }
  }

  lemma {:induction false} ResolveSame(d: Disk, e: Disk, path: seq<string>)
    requires forall p, n :: FindChild(e.mem, KidsOf(e.kids, p), n) == FindChild(d.mem, KidsOf(d.kids, p), n)
    ensures Resolve(e, path) == Resolve(d, path)
  {
    if path != [] { ResolveSame(d, e, path[..|path| - 1]); }
  }
}
