/** What users of the RAM disk can rely on: paths, and directory scans over whole runs. */
module RamTheorems {
  import opened RamTree
  import opened RamHandles
  import opened RamSpec
  import opened RamNames
  import opened RamOps

  // ----- paths

  /** Two disks with the same families, names and marks. */
  ghost predicate SameNames(d: Disk, e: Disk) {
    d.kids == e.kids && d.mem.Keys == e.mem.Keys
    && forall p :: p in d.mem ==> d.mem[p].name == e.mem[p].name && d.mem[p].unlinked == e.mem[p].unlinked
  }

  lemma SameNamesResolve(d: Disk, e: Disk, path: seq<string>)
    requires SameNames(d, e)
    ensures Resolve(e, path) == Resolve(d, path)
    ensures UniqueNames(d) <==> UniqueNames(e)
  {
    forall p, n ensures FindChild(e.mem, KidsOf(e.kids, p), n) == FindChild(d.mem, KidsOf(d.kids, p), n) {
      FindChildSame(e.mem, d.mem, KidsOf(d.kids, p), n);
    }
    ResolveSame(d, e, path);
    forall p | p in d.mem ensures UniqueIn(d.mem, KidsOf(d.kids, p)) <==> UniqueIn(e.mem, KidsOf(e.kids, p)) {}
  }

  lemma GrabNames(d: Disk, i: nat, f: OpenFile, s: Scan)
    requires i < |d.fh| == |d.mask| == |d.scans| && f.node in d.mem
    ensures SameNames(d, Grab(d, i, f, s))
  {
  }

  /** Opening what exists changes the meaning of no path. */
  lemma OpenedExistingNames(d: Disk, fn: string, a: Access, dir: bool, addr: Ptr, path: seq<string>)
    requires Valid(d) && addr !in d.mem && !OpenPlan(d, fn, a, dir).Create?
    ensures Resolve(Opened(d, fn, a, dir, addr), path) == Resolve(d, path)
    ensures UniqueNames(Opened(d, fn, a, dir, addr)) <==> UniqueNames(d)
  {
    match OpenPlan(d, fn, a, dir)
    case Refuse =>
    case Existing(i, p) =>
      LookupIn(d, Segments(fn), 3);
      OpenNodeNames(d, i, p, a, dir, path);
  }

  /** The disk after a new node has been hooked below f, as far as names go. */
  ghost predicate Hooked(d: Disk, f: Ptr, c: Ptr, n: Node, e: Disk) {
    && Valid(d) && f in d.mem && c !in d.mem && c != NULL && !n.unlinked
    && e.mem.Keys == d.mem.Keys + {c} && SameNodeBut(n, e.mem[c])
    && (forall p :: p in d.mem ==> SameNodeBut(d.mem[p], e.mem[p]))
    && e.kids == d.kids[f := d.kids[f] + [c]][c := []]
  }

  lemma HookNames(d: Disk, f: Ptr, c: Ptr, n: Node)
    requires Valid(d) && f in d.mem && !d.mem[f].unlinked
    requires c !in d.mem && c != NULL && FreshNode(d, n)
    ensures Last(d.kids[f]) != NULL ==> Last(d.kids[f]) in d.mem
    ensures Hooked(d, f, c, n, Hook(d, f, c, n)) && Valid(Hook(d, f, c, n))
  {
    hide Attached, Tree, Handles, Scans, Serials;
    KeySets(d, NULL);
    HookValid(d, f, c, n);
    AttachedNodes(d.mem, f, Last(d.kids[f]), c, n);
  }

  /** A node created below f answers to its name unless an elder brother already does. */
  lemma HookChildren(d: Disk, f: Ptr, c: Ptr, n: Node, e: Disk)
    requires Hooked(d, f, c, n, e)
    ensures SameChildren(d, e, f, n.name)
    ensures FindChild(d.mem, d.kids[f], n.name) == NULL ==> FindChild(e.mem, KidsOf(e.kids, f), n.name) == c
  {
    hide Tree, Handles, Scans, Serials, Waiting;
    KeySets(d, NULL);
    FamilyFacts(d, NULL, f);
    forall p, m | p != f || m != n.name
      ensures FindChild(e.mem, KidsOf(e.kids, p), m) == FindChild(d.mem, KidsOf(d.kids, p), m)
    {
      HookChild(d, f, c, n, e, p, m);
    }
    FindChildAppend(e.mem, d.kids[f], c, n.name);
    FindChildSame(e.mem, d.mem, d.kids[f], n.name);
  }

  lemma HookChild(d: Disk, f: Ptr, c: Ptr, n: Node, e: Disk, p: Ptr, m: string)
    requires Hooked(d, f, c, n, e) && (p != f || m != n.name)
    ensures FindChild(e.mem, KidsOf(e.kids, p), m) == FindChild(d.mem, KidsOf(d.kids, p), m)
  {
    hide Tree, Handles, Scans, Serials, Waiting;
    KeySets(d, NULL);
    FamilyFacts(d, NULL, f);
    if p == f {
      FindChildAppend(e.mem, d.kids[f], c, m);
      FindChildSame(e.mem, d.mem, d.kids[f], m);
    } else if p in d.mem {
      FamilyFacts(d, NULL, p);
      FindChildSame(e.mem, d.mem, d.kids[p], m);
    }
  }

  /** Names stay unique exactly when the new name was free. */
  lemma HookUnique(d: Disk, f: Ptr, c: Ptr, n: Node, e: Disk)
    requires Hooked(d, f, c, n, e) && UniqueNames(d)
    ensures UniqueNames(e) <==> FindChild(d.mem, d.kids[f], n.name) == NULL
  {
    hide Tree, Handles, Scans, Serials, Waiting;
    KeySets(d, NULL);
    FamilyFacts(d, NULL, f);
    assert UniqueIn(d.mem, KidsOf(d.kids, f));
    UniqueAppend(d.mem, e.mem, d.kids[f], c);
    forall p | p in e.mem && p != f ensures UniqueIn(e.mem, KidsOf(e.kids, p)) {
      if p in d.mem {
        assert UniqueIn(d.mem, KidsOf(d.kids, p));
        FamilyFacts(d, NULL, p);
      }
    }
    assert KidsOf(e.kids, f) == d.kids[f] + [c];
  }

  lemma UniqueAppend(mem: Mem, mem': Mem, k: seq<Ptr>, c: Ptr)
    requires UniqueIn(mem, k) && NULL !in k && c in mem' && !mem'[c].unlinked
    requires forall i :: 0 <= i < |k| ==> k[i] in mem && k[i] in mem' && SameNodeBut(mem[k[i]], mem'[k[i]])
    ensures UniqueIn(mem', k + [c]) <==> FindChild(mem, k, mem'[c].name) == NULL
  {
    var name := mem'[c].name;
    if FindChild(mem, k, name) == NULL {
      forall i | 0 <= i < |k| ensures !Answers(mem, k[i], name) {
        FindChildMissing(mem, k, name, i);
      }
    } else {
      var i :| 0 <= i < |k| && k[i] == FindChild(mem, k, name);
      assert (k + [c])[i] == k[i] && (k + [c])[|k|] == c;
    }
  }

  /** What open knows when it decides to create. */
  lemma CreatePlan(d: Disk, fn: string, a: Access, dir: bool)
    requires Valid(d) && Fathers(d) && OpenPlan(d, fn, a, dir).Create?
    ensures var f, segs := OpenPlan(d, fn, a, dir).father, Segments(fn);
      f in d.mem && d.mem[f].dir && !d.mem[f].unlinked
      && (segs[0] == "" ==> |segs| > 1)
      && (segs[0] == "" ==> f == Resolve(d, segs[1..|segs| - 1]) && Resolve(d, segs[1..]) == NULL)
      && (segs[0] == "" ==> FindChild(d.mem, d.kids[f], Leaf(fn)) == NULL)
      && (segs[0] != "" ==> |segs| == 1 && f == ROOT)
  {
    var segs := Segments(fn);
    CreateFacts(d, fn, a, dir);
    LookupResolves(d, segs, 3);
    if |segs| > 1 {
      LookupResolves(d, segs[..|segs| - 1], 2);
      assert segs[..|segs| - 1][1..] == segs[1..|segs| - 1] == segs[1..][..|segs| - 2];
      if segs[0] == "" { LookupNull(d, segs); }
    } else {
      assert segs[0] == Leaf(fn);
    }
  }

  lemma LookupNull(d: Disk, segs: seq<string>)
    requires Valid(d) && Fathers(d) && segs != [] && segs[0] == "" && Lookup(d, segs, 3) == NULL
    ensures Resolve(d, segs[1..]) == NULL
  {
    LookupResolves(d, segs, 3);
    if Resolve(d, segs[1..]) != NULL { ResolveLive(d, segs[1..]); }
  }

  /** Opening what has to be created is hooking, then grabbing; grabbing touches no name. */
  lemma CreatedNames(d: Disk, i: nat, f: Ptr, addr: Ptr, name: string, a: Access, dir: bool, path: seq<string>)
    requires Valid(d) && i < MAX_RD_FILES && addr !in d.mem && addr != NULL
    requires f in d.mem && !d.mem[f].unlinked
    ensures f in d.kids && f in d.rank && (Last(d.kids[f]) != NULL ==> Last(d.kids[f]) in d.mem)
    ensures var n, e := NewNode(d, name, dir), Created(d, i, f, addr, name, a, dir);
      Hooked(d, f, addr, n, Hook(d, f, addr, n))
      && Resolve(e, path) == Resolve(Hook(d, f, addr, n), path)
      && (UniqueNames(e) <==> UniqueNames(Hook(d, f, addr, n)))
  {
    hide ValidBut, UniqueNames, Hooked, Hook, OpenNode, From;
    KeySets(d, NULL);
    var n := NewNode(d, name, dir);
    HookNames(d, f, addr, n);
    HookedFields(d, f, addr, n);
    OpenNodeNames(Hook(d, f, addr, n), i, addr, a, dir, path);
  }

  lemma HookedFields(d: Disk, f: Ptr, c: Ptr, n: Node)
    requires f in d.mem && f in d.kids && f in d.rank && (Last(d.kids[f]) != NULL ==> Last(d.kids[f]) in d.mem)
    requires Hooked(d, f, c, n, Hook(d, f, c, n))
    ensures var e := Hook(d, f, c, n); e.fh == d.fh && e.mask == d.mask && e.scans == d.scans && c in e.mem
  {
  }

  lemma OpenNodeNames(e: Disk, i: nat, p: Ptr, a: Access, dir: bool, path: seq<string>)
    requires i < |e.fh| == |e.mask| == |e.scans| && p in e.mem
    ensures Resolve(OpenNode(e, i, p, a, dir), path) == Resolve(e, path)
    ensures UniqueNames(OpenNode(e, i, p, a, dir)) <==> UniqueNames(e)
  {
    GrabNames(e, i, NewHandle(e, p, a, dir), NewScan(e, p));
    SameNamesResolve(e, OpenNode(e, i, p, a, dir), path);
  }

  lemma OpenedIsCreated(d: Disk, fn: string, a: Access, dir: bool, addr: Ptr)
    requires Valid(d) && addr !in d.mem && addr != NULL && OpenPlan(d, fn, a, dir).Create?
    ensures var i, f := OpenPlan(d, fn, a, dir).slot, OpenPlan(d, fn, a, dir).father;
      i < MAX_RD_FILES && f in d.mem && !d.mem[f].unlinked && (f == ROOT || d.mem[f].dir)
      && Opened(d, fn, a, dir, addr) == Created(d, i, f, addr, Leaf(fn), a, dir)
  {
    CreateFacts(d, fn, a, dir);
  }

  lemma TargetParts(fn: string)
    ensures var segs := Segments(fn); |segs| > 1 ==>
      segs[1..][..|segs[1..]| - 1] == segs[1..|segs| - 1] && segs[1..][|segs[1..]| - 1] == Leaf(fn)
  {
    hide Segments;
  }

  /** Creating through a path with a leading slash adds that path to the map and changes no other. */
  lemma OpenedNames(d: Disk, fn: string, a: Access, dir: bool, addr: Ptr, path: seq<string>)
    requires Valid(d) && Fathers(d) && addr !in d.mem && addr != NULL
    requires OpenPlan(d, fn, a, dir).Create? && Segments(fn)[0] == ""
    ensures Resolve(d, Segments(fn)[1..]) == NULL
    ensures Resolve(Opened(d, fn, a, dir, addr), path) == if path == Segments(fn)[1..] then addr else Resolve(d, path)
  {
    KeySets(d, NULL);
    hide ValidBut, Opened, Created, OpenPlan, Hook, Hooked, Segments, Leaf, From, FindChild, Resolve, NewNode;
    CreatePlan(d, fn, a, dir);
    OpenedIsCreated(d, fn, a, dir, addr);
    var segs, f, n := Segments(fn), OpenPlan(d, fn, a, dir).father, NewNode(d, Leaf(fn), dir);
    CreatedNames(d, OpenPlan(d, fn, a, dir).slot, f, addr, Leaf(fn), a, dir, path);
    TargetParts(fn);
    HookResolves(d, f, addr, n, Hook(d, f, addr, n), segs[1..], path);
  }

  /** Hooking a node whose path was free maps that path to it, and nothing else changes. */
  lemma HookResolves(d: Disk, f: Ptr, c: Ptr, n: Node, e: Disk, target: seq<string>, path: seq<string>)
    requires Hooked(d, f, c, n, e) && target != [] && Resolve(d, target[..|target| - 1]) == f
    requires target[|target| - 1] == n.name && Resolve(d, target) == NULL
    ensures Resolve(e, path) == if path == target then c else Resolve(d, path)
  {
    KeySets(d, NULL);
    hide ValidBut;
    HookChildren(d, f, c, n, e);
    assert KidsOf(e.kids, c) == [] && KidsOf(d.kids, NULL) == [];
    ResolveChange(d, e, target, path);
  }

  lemma ResolveOne(d: Disk, name: string)
    ensures Resolve(d, [name]) == FindChild(d.mem, KidsOf(d.kids, ROOT), name)
  {
    var path := [name];
    assert path[..|path| - 1] == [];
    assert From(d.mem, d.kids, ROOT, path) == FindChild(d.mem, KidsOf(d.kids, ROOT), path[|path| - 1]);
  }

  /** A path of one name without a leading slash, opened for writing, not as a file with a slash at its end, while there
      is a free handle, and the root directory has that name already. */
  predicate DoublesInRoot(d: Disk, fn: string, a: Access, dir: bool)
    requires |d.fh| == |d.mask| == MAX_RD_FILES
  {
    && |Segments(fn)| == 1 && ValidName(Leaf(fn), false) && Writes(a) && (dir || !EndSlash(Collapse(fn)))
    && FreeSlot(d, 0) < MAX_RD_FILES && Resolve(d, [Leaf(fn)]) != NULL
  }

  lemma DoublesIsCreated(d: Disk, fn: string, a: Access, dir: bool)
    requires Valid(d) && Fathers(d)
    ensures |d.fh| == |d.mask| == MAX_RD_FILES
    ensures DoublesInRoot(d, fn, a, dir)
      <==> OpenPlan(d, fn, a, dir).Create? && Segments(fn)[0] != "" && Resolve(d, [Leaf(fn)]) != NULL
  {
    KeySets(d, NULL);
    var segs := Segments(fn);
    LookupResolves(d, segs, 3);
    if |segs| > 1 { LookupResolves(d, segs[..|segs| - 1], 2); }
    hide ValidBut, Segments, Collapse, Lookup, Resolve;
  }

  /** Open keeps sibling names unique, unless it creates through a path without a leading slash
      a name that the root directory already has: exactly then it breaks them. */
  lemma OpenedUnique(d: Disk, fn: string, a: Access, dir: bool, addr: Ptr)
    requires Valid(d) && Fathers(d) && addr !in d.mem && addr != NULL && UniqueNames(d)
    ensures |d.fh| == |d.mask| == MAX_RD_FILES
    ensures UniqueNames(Opened(d, fn, a, dir, addr)) <==> !DoublesInRoot(d, fn, a, dir)
  {
    KeySets(d, NULL);
    DoublesIsCreated(d, fn, a, dir);
    hide ValidBut, UniqueNames, Opened, Created, OpenPlan, Hook, Hooked, Segments, Leaf, From, FindChild, DoublesInRoot;
    if OpenPlan(d, fn, a, dir).Create? {
      CreatePlan(d, fn, a, dir);
      OpenedIsCreated(d, fn, a, dir, addr);
      CreatedNames(d, OpenPlan(d, fn, a, dir).slot, OpenPlan(d, fn, a, dir).father, addr, Leaf(fn), a, dir, []);
      var f, n := OpenPlan(d, fn, a, dir).father, NewNode(d, Leaf(fn), dir);
      HookUnique(d, f, addr, n, Hook(d, f, addr, n));
      ResolveOne(d, Leaf(fn));
    } else {
      OpenedExistingNames(d, fn, a, dir, addr, []);
    }
  }

  /** A caller who writes the leading slash is safe. */
  lemma SlashKeepsUnique(d: Disk, fn: string, a: Access, dir: bool, addr: Ptr)
    requires Valid(d) && Fathers(d) && addr !in d.mem && addr != NULL && UniqueNames(d)
    requires fn != "" && fn[0] == '/'
    ensures UniqueNames(Opened(d, fn, a, dir, addr))
  {
    LeadingSlash(fn);
    OpenedUnique(d, fn, a, dir, addr);
  }

  /** A concrete loss of uniqueness: a file, closed again, then one of the same name without the slash. */
  lemma SlashlessBreaksUnique(d: Disk, a: Access, addr: Ptr)
    requires Valid(d) && Fathers(d) && addr !in d.mem && addr != NULL && UniqueNames(d) && a == WriteOnly
    requires FreeSlot(d, 0) < MAX_RD_FILES && Resolve(d, ["x"]) != NULL
    ensures !UniqueNames(Opened(d, "x", a, false, addr))
  {
    SegmentsOfX();
    KeySets(d, NULL);
    hide ValidBut, Segments, Leaf, Collapse, UniqueNames, Opened;
    LookupResolves(d, ["x"], 3);
    assert OpenPlan(d, "x", a, false).Create?;
    OpenedUnique(d, "x", a, false, addr);
  }

  lemma SegmentsOfX()
    ensures Segments("x") == ["x"] && Leaf("x") == "x" && !EndSlash(Collapse("x"))
  {
    assert Collapse("x") == Trim("x") == "x" && "x"[1..] == "";
    assert Split("") == [""] && ['x'] + "" == "x" && [""][1..] == [];
    assert [['x'] + Split("")[0]] + Split("")[1..] == ["x"];
  }

  // ----- unlink and close

  /** Marking a node, or removing it, unmaps its path and leaves every other path. */
  lemma UnlinkedNames(d: Disk, fn: string, path: seq<string>)
    requires Valid(d) && Fathers(d) && UniqueNames(d)
    ensures UniqueNames(UnlinkedDisk(d, fn))
    ensures UnlinkTarget(d, fn) == NULL ==> Resolve(UnlinkedDisk(d, fn), path) == Resolve(d, path)
    ensures UnlinkTarget(d, fn) != NULL ==>
      Resolve(UnlinkedDisk(d, fn), path) == if path == Segments(fn)[1..] then NULL else Resolve(d, path)
  {
    hide ValidBut, UnlinkedDisk, UnlinkTarget, Segments, UniqueNames, From;
    var p := UnlinkTarget(d, fn);
    UnlinkFacts(d, fn);
    if p == NULL {
      assert UnlinkedDisk(d, fn) == d by { NothingUnlinked(d, fn); }
    } else {
      UnlinkedGone(d, fn);
      GoneUnique(d, NULL, p, UnlinkedDisk(d, fn));
      GoneNames(d, p, UnlinkedDisk(d, fn), Segments(fn)[1..], path);
    }
  }

  lemma NothingUnlinked(d: Disk, fn: string)
    requires Valid(d) && UnlinkTarget(d, fn) == NULL
    ensures UnlinkedDisk(d, fn) == d
  {
  }

  lemma UnlinkedGone(d: Disk, fn: string)
    requires Valid(d) && FathersBelow(d) && UnlinkTarget(d, fn) != NULL
    ensures Gone(d, UnlinkTarget(d, fn), UnlinkedDisk(d, fn)) && UnlinkedDisk(d, fn).mem.Keys <= d.mem.Keys
  {
    hide ValidBut, UnlinkTarget, Gone, Detached;
    var p := UnlinkTarget(d, fn);
    UnlinkFacts(d, fn);
    PlaceFacts(d, NULL, p);
    if d.mem[p].open > 0 {
      MarkGone(d, p);
    } else {
      ValidGoing(d, p);
      RemoveGone(d, p);
      DetachKeys(d.mem, p);
    }
  }

  lemma DetachKeys(mem: Mem, c: Ptr)
    requires c in mem
    ensures Detached(mem, c).Keys == mem.Keys
  {
  }

  /** p no longer answers in e, and the rest of the families is as in d. */
  ghost predicate Gone(d: Disk, p: Ptr, e: Disk) {
    && p in d.mem && p in d.kids && d.kids[p] == [] && KidsOf(e.kids, p) == []
    && (forall q :: q in d.mem && q != p ==> q in e.mem && SameNodeBut(d.mem[q], e.mem[q]))
    && (p in e.mem ==> e.mem[p].unlinked)
    && (forall q :: q in e.kids ==> q in d.kids)
    && (forall q :: q in d.kids && q != p ==> q in e.kids && FamilyGone(d, p, e, q))
  }

  ghost predicate FamilyGone(d: Disk, p: Ptr, e: Disk, q: Ptr)
    requires q in e.kids
  {
    q in d.kids && (e.kids[q] == d.kids[q]
      || exists i :: 0 <= i < |d.kids[q]| && d.kids[q][i] == p && e.kids[q] == Without(d.kids[q], i))
  }

  lemma MarkGone(d: Disk, p: Ptr)
    requires Valid(d) && p in d.mem && d.kids[p] == []
    ensures Gone(d, p, Mark(d, p))
  {
    KeySets(d, NULL);
  }

  lemma RemoveGone(d: Disk, p: Ptr)
    requires ValidBut(d, p) && p in d.mem && p != ROOT && d.kids[p] == []
    ensures d.mem[p].father in d.kids && Place(d, p) < |d.kids[d.mem[p].father]|
    ensures Gone(d, p, Remove(d, p))
  {
    PlaceFacts(d, p, p);
    KeySets(d, p);
    var f, i, e := d.mem[p].father, Place(d, p), Remove(d, p);
    RemoveTree(d, p, f, i, e);
    RemovedGone(d, p, f, i, e);
  }

  lemma RemovedGone(d: Disk, p: Ptr, f: Ptr, i: nat, e: Disk)
    requires p in d.mem && p in d.kids && d.kids[p] == [] && f in d.kids && i < |d.kids[f]| && d.kids[f][i] == p
    requires e.mem.Keys == d.mem.Keys - {p} && e.kids == d.kids[f := Without(d.kids[f], i)] - {p}
    requires forall q :: q in e.mem ==> SameNodeBut(d.mem[q], e.mem[q])
    ensures Gone(d, p, e)
  {
  }

  /** How the children that answer change when p goes: only the name of p in the family of p. */
  lemma GoneChild(d: Disk, going: Ptr, p: Ptr, e: Disk, q: Ptr, n: string)
    requires ValidBut(d, going) && Gone(d, p, e)
    ensures q != d.mem[p].father || n != d.mem[p].name || d.mem[p].unlinked ==>
      FindChild(e.mem, KidsOf(e.kids, q), n) == FindChild(d.mem, KidsOf(d.kids, q), n)
  {
    if q in d.kids && q != p && (q != d.mem[p].father || n != d.mem[p].name || d.mem[p].unlinked) {
      KeySets(d, going);
      FamilyFacts(d, going, q);
      hide ValidBut;
      var k := d.kids[q];
      assert p in k ==> !Answers(d.mem, p, n);
      FindChildSame(d.mem, e.mem, k, n);
      assert FamilyGone(d, p, e, q);
      if e.kids[q] != k {
        var i :| 0 <= i < |k| && k[i] == p && e.kids[q] == Without(k, i);
        FindChildWithout(e.mem, k, i, n);
      }
    }
  }

  /** When names are unique, nothing answers to the name of p any more. */
  lemma GoneSelf(d: Disk, p: Ptr, e: Disk)
    requires Valid(d) && Gone(d, p, e) && UniqueNames(d) && p != ROOT && !d.mem[p].unlinked
    ensures FindChild(e.mem, KidsOf(e.kids, d.mem[p].father), d.mem[p].name) == NULL
  {
    PlaceFacts(d, NULL, p);
    var f, o := d.mem[p].father, Place(d, p);
    FamilyFacts(d, NULL, f);
    var k := d.kids[f];
    assert UniqueIn(d.mem, KidsOf(d.kids, f)) && k[o] == p && FamilyGone(d, p, e, f);
    var k' := e.kids[f];
    forall j | 0 <= j < |k'| ensures !Answers(e.mem, k'[j], d.mem[p].name) {
      assert k'[j] in k;
      var i :| 0 <= i < |k| && k[i] == k'[j];
      if i != o { assert d.mem[k[i]].unlinked || d.mem[k[i]].name != d.mem[p].name; }
    }
    FindChildNone(e.mem, k', d.mem[p].name);
  }

  lemma GoneUnique(d: Disk, going: Ptr, p: Ptr, e: Disk)
    requires ValidBut(d, going) && Gone(d, p, e) && UniqueNames(d) && e.mem.Keys <= d.mem.Keys
    ensures UniqueNames(e)
  {
    KeySets(d, going);
    hide ValidBut;
    forall q | q in e.mem ensures UniqueIn(e.mem, KidsOf(e.kids, q)) {
      if q != p {
        assert UniqueIn(d.mem, KidsOf(d.kids, q)) && FamilyGone(d, p, e, q);
        FamilyFacts(d, going, q);
        UniqueGone(d.mem, e.mem, p, d.kids[q], e.kids[q]);
      }
    }
  }

  lemma UniqueGone(mem: Mem, mem': Mem, p: Ptr, k: seq<Ptr>, k': seq<Ptr>)
    requires UniqueIn(mem, k)
    requires k' == k || exists i :: 0 <= i < |k| && k[i] == p && k' == Without(k, i)
    requires forall i :: 0 <= i < |k| ==> k[i] in mem
    requires forall q :: q in mem && q != p ==> q in mem' && SameNodeBut(mem[q], mem'[q])
    requires p in mem' ==> mem'[p].unlinked
    ensures UniqueIn(mem', k')
  {
    if k' != k {
      var i :| 0 <= i < |k| && k[i] == p && k' == Without(k, i);
      forall j | 0 <= j < |k'| ensures k'[j] == k[if j < i then j else j + 1] {}
    }
  }

  lemma GoneNames(d: Disk, p: Ptr, e: Disk, target: seq<string>, path: seq<string>)
    requires Valid(d) && Gone(d, p, e) && UniqueNames(d) && !d.mem[p].unlinked
    requires target != [] && Resolve(d, target) == p && p != NULL
    ensures Resolve(e, path) == if path == target then NULL else Resolve(d, path)
  {
    ResolveParent(d, target);
    hide ValidBut, Gone, UniqueNames;
    forall q, n | q != d.mem[p].father || n != d.mem[p].name
      ensures FindChild(e.mem, KidsOf(e.kids, q), n) == FindChild(d.mem, KidsOf(d.kids, q), n)
    {
      GoneChild(d, NULL, p, e, q, n);
    }
    GoneSelf(d, p, e);
    KeySets(d, NULL);
    GoneKids(d, p, e);
    ResolveChange(d, e, target, path);
  }

  lemma GoneKids(d: Disk, p: Ptr, e: Disk)
    requires Valid(d) && Gone(d, p, e)
    ensures KidsOf(d.kids, p) == [] && KidsOf(e.kids, NULL) == []
  {
    KeySets(d, NULL);
  }

  /** Handles survive unlinking: each is still on its node, and the node still exists. */
  lemma UnlinkedHandles(d: Disk, fn: string, i: nat)
    requires Valid(d) && i < MAX_RD_FILES && d.mask[i]
    ensures var e := UnlinkedDisk(d, fn);
      i < |e.fh| == |e.mask| && e.mask[i] && e.fh[i].node == d.fh[i].node && e.fh[i].node in e.mem
  {
    var e := UnlinkedDisk(d, fn);
    if MarksFather(d, fn) {
      assert HandleOk(d.mem, d.kids, d.fh[i], d.mask[i]);
    } else {
      UnlinkedValid(d, fn);
      assert HandleOk(e.mem, e.kids, e.fh[i], e.mask[i]);
    }
  }

  /** Closing changes the meaning of no path, even when it takes a node with it. */
  lemma ClosedNames(d: Disk, fd: nat, path: seq<string>)
    requires Valid(d)
    ensures Resolve(ClosedDisk(d, fd), path) == Resolve(d, path)
    ensures UniqueNames(d) ==> UniqueNames(ClosedDisk(d, fd))
  {
    hide Tree, Handles, Scans, Serials, Waiting, UniqueNames, From;
    if InUse(d, fd) {
      KeySets(d, NULL);
      DropValid(d, fd - 1);
      GoingFacts(d, fd);
      var p, e := d.fh[fd - 1].node, Drop(d, fd - 1);
      SameNamesResolve(d, e, path);
      if e.mem[p].unlinked && e.mem[p].open == 0 {
        DropRemoved(d, fd, e, p, path);
      }
    }
  }

  lemma DropRemoved(d: Disk, fd: nat, e: Disk, p: Ptr, path: seq<string>)
    requires Valid(d) && ValidBut(e, p) && SameNames(d, e) && p in d.mem && p in e.mem && p != ROOT && e.kids[p] == []
    requires d.mem[p].unlinked && e.mem.Keys == d.mem.Keys
    requires forall q :: q in d.mem ==> d.mem[q].dir == e.mem[q].dir
    ensures e.mem[p].father in e.kids && Place(e, p) < |e.kids[e.mem[p].father]|
    ensures Resolve(Remove(e, p), path) == Resolve(e, path)
    ensures UniqueNames(d) ==> UniqueNames(Remove(e, p))
  {
    PlaceFacts(e, p, p);
    KeySets(e, p);
    RemoveGone(e, p);
    hide ValidBut, Gone, Remove, UniqueNames, Place;
    var r := Remove(e, p);
    forall q, n ensures FindChild(r.mem, KidsOf(r.kids, q), n) == FindChild(e.mem, KidsOf(e.kids, q), n) {
      GoneChild(e, p, p, r, q, n);
    }
    ResolveSame(e, r, path);
    SameNamesResolve(d, e, path);
    RemoveKeys(e, p);
    if UniqueNames(d) { GoneUnique(e, p, p, r); }
  }

  lemma RemoveKeys(e: Disk, p: Ptr)
    requires p in e.mem && e.mem[p].father in e.kids && Place(e, p) < |e.kids[e.mem[p].father]|
    ensures Remove(e, p).mem.Keys <= e.mem.Keys
  {
    DetachKeys(e.mem, p);
  }

  // ----- who has children

  ghost predicate SameKinds(d: Disk, e: Disk) {
    d.kids == e.kids && d.mem.Keys == e.mem.Keys && forall p :: p in d.mem ==> d.mem[p].dir == e.mem[p].dir
  }

  lemma SameKindsFathers(d: Disk, e: Disk)
    requires SameKinds(d, e)
    ensures (FathersBelow(d) <==> FathersBelow(e)) && (Fathers(d) <==> Fathers(e))
  {
  }

  lemma HookFathers(d: Disk, f: Ptr, c: Ptr, n: Node, e: Disk)
    requires Hooked(d, f, c, n, e) && (f == ROOT || d.mem[f].dir) && FathersBelow(d)
    ensures FathersBelow(e) && (Fathers(d) ==> Fathers(e))
  {
    KeySets(d, NULL);
    hide ValidBut;
    forall p | p in e.mem && p != ROOT && KidsOf(e.kids, p) != [] ensures e.mem[p].dir {
      if p in d.mem && p != f { assert KidsOf(d.kids, p) == KidsOf(e.kids, p); }
    }
  }

  lemma GoneFathers(d: Disk, p: Ptr, e: Disk)
    requires Gone(d, p, e) && e.mem.Keys <= d.mem.Keys && p != ROOT && FathersBelow(d)
    ensures FathersBelow(e) && (Fathers(d) ==> Fathers(e))
  {
    forall q | q in e.mem && q != ROOT && KidsOf(e.kids, q) != [] ensures e.mem[q].dir {
      assert q != p && FamilyGone(d, p, e, q) && KidsOf(d.kids, q) != [];
    }
  }

  lemma OpenedFathers(d: Disk, fn: string, a: Access, dir: bool, addr: Ptr)
    requires Valid(d) && addr !in d.mem && FathersBelow(d)
    ensures FathersBelow(Opened(d, fn, a, dir, addr)) && (Fathers(d) ==> Fathers(Opened(d, fn, a, dir, addr)))
  {
    KeySets(d, NULL);
    hide ValidBut, OpenPlan, Segments, Leaf, Hook, Hooked, FathersBelow, Fathers;
    match OpenPlan(d, fn, a, dir)
    case Refuse =>
    case Existing(i, p) =>
      LookupIn(d, Segments(fn), 3);
      PlanFound(d, fn, a, dir);
      OpenNodeFathers(d, i, p, a, dir);
    case Create(i, f) =>
      if addr != NULL {
        OpenedIsCreated(d, fn, a, dir, addr);
        CreatedFathers(d, i, f, addr, Leaf(fn), a, dir);
      }
  }

  lemma PlanFound(d: Disk, fn: string, a: Access, dir: bool)
    requires Valid(d) && OpenPlan(d, fn, a, dir).Existing?
    ensures OpenPlan(d, fn, a, dir).slot < MAX_RD_FILES && OpenPlan(d, fn, a, dir).node in d.mem
  {
  }

  lemma OpenNodeFathers(e: Disk, i: nat, p: Ptr, a: Access, dir: bool)
    requires i < |e.fh| == |e.mask| == |e.scans| && p in e.mem
    ensures var o := OpenNode(e, i, p, a, dir); (FathersBelow(e) <==> FathersBelow(o)) && (Fathers(e) <==> Fathers(o))
  {
    SameKindsFathers(e, OpenNode(e, i, p, a, dir));
  }

  lemma CreatedFathers(d: Disk, i: nat, f: Ptr, addr: Ptr, name: string, a: Access, dir: bool)
    requires Valid(d) && i < MAX_RD_FILES && addr !in d.mem && addr != NULL && FathersBelow(d)
    requires f in d.mem && !d.mem[f].unlinked && (f == ROOT || d.mem[f].dir)
    ensures var e := Created(d, i, f, addr, name, a, dir); FathersBelow(e) && (Fathers(d) ==> Fathers(e))
  {
    hide ValidBut, Hooked, Hook, OpenNode, FathersBelow, Fathers;
    KeySets(d, NULL);
    var n := NewNode(d, name, dir);
    HookNames(d, f, addr, n);
    HookedFields(d, f, addr, n);
    HookFathers(d, f, addr, n, Hook(d, f, addr, n));
    OpenNodeFathers(Hook(d, f, addr, n), i, addr, a, dir);
  }

  lemma UnlinkedFathers(d: Disk, fn: string)
    requires Valid(d) && FathersBelow(d)
    ensures FathersBelow(UnlinkedDisk(d, fn)) && (Fathers(d) ==> Fathers(UnlinkedDisk(d, fn)))
  {
    hide ValidBut, UnlinkedDisk, UnlinkTarget, Gone, FathersBelow, Fathers;
    if UnlinkTarget(d, fn) == NULL {
      NothingUnlinked(d, fn);
    } else {
      UnlinkFacts(d, fn);
      UnlinkedGone(d, fn);
      GoneFathers(d, UnlinkTarget(d, fn), UnlinkedDisk(d, fn));
    }
  }

  lemma ClosedFathers(d: Disk, fd: nat)
    requires Valid(d) && FathersBelow(d)
    ensures FathersBelow(ClosedDisk(d, fd)) && (Fathers(d) ==> Fathers(ClosedDisk(d, fd)))
  {
    hide Tree, Handles, Scans, Serials, Waiting, FathersBelow, Fathers, Gone, Remove;
    if InUse(d, fd) {
      KeySets(d, NULL);
      DropValid(d, fd - 1);
      GoingFacts(d, fd);
      var p, e := d.fh[fd - 1].node, Drop(d, fd - 1);
      SameKindsFathers(d, e);
      if e.mem[p].unlinked && e.mem[p].open == 0 {
        RemoveGone(e, p);
        RemoveKeys(e, p);
        GoneFathers(e, p, Remove(e, p));
      }
    }
  }
}
