/** When open, close and unlink on the RAM disk succeed, and what they leave: on the names of a path and what these
    names lead to. */
module RamOpen {
  import opened RamTree
  import opened RamHandles
  import opened RamSpec
  import opened RamNames
  import opened RamOps
  import opened RamTheorems

  // ----- the names in a path

  /** The names that slashes part, however many slashes there are. */
  function Parts(fn: string): (r: seq<string>)
    ensures fn != "" && fn[0] != '/' ==> r != []
  {
    if fn == "" then []
    else if fn[0] == '/' then Parts(fn[1..])
    else if |fn| == 1 || fn[1] == '/' then [[fn[0]]] + Parts(fn[1..])
    else [[fn[0]] + Parts(fn[1..])[0]] + Parts(fn[1..])[1..]
  }

  /** The path begins at the root. */
  predicate Leads(fn: string) { fn == "" || fn[0] == '/' }

  predicate Trails(fn: string) { fn != "" && fn[|fn| - 1] == '/' }

  /** No slash follows another. */
  predicate Single(s: string) { |s| < 2 || ((s[0] != '/' || s[1] != '/') && Single(s[1..])) }

  lemma {:induction false} CollapseSingle(fn: string)
    ensures Single(Collapse(fn))
    decreases |fn|
  {
    if |fn| >= 2 {
      CollapseSingle(fn[1..]);
      CollapseFirst(fn[1..]);
      if fn[0] != '/' || fn[1] != '/' { assert Collapse(fn)[1..] == Collapse(fn[1..]); }
    }
  }

  lemma {:induction false} CollapseTrails(fn: string)
    ensures Trails(Collapse(fn)) <==> Trails(fn)
    decreases |fn|
  {
    if |fn| >= 2 {
      CollapseTrails(fn[1..]);
      CollapseFirst(fn[1..]);
      assert fn[1..][|fn| - 2] == fn[|fn| - 1];
      if fn[0] != '/' || fn[1] != '/' { TrailsAfter(fn[0], Collapse(fn[1..])); }
    }
  }

  lemma TrailsAfter(c: char, s: string)
    requires s != ""
    ensures Trails([c] + s) <==> Trails(s)
  {
  }

  lemma PartsAfter(c: char, s: string)
    ensures Parts([c] + s)
      == if c == '/' then Parts(s)
         else if Leads(s) then [[c]] + Parts(s)
         else [[c] + Parts(s)[0]] + Parts(s)[1..]
  {
    assert ([c] + s)[1..] == s;
  }

  lemma {:induction false} CollapseParts(fn: string)
    ensures Parts(Collapse(fn)) == Parts(fn)
    decreases |fn|
  {
    if |fn| >= 2 {
      CollapseParts(fn[1..]);
      CollapseFirst(fn[1..]);
      PartsAfter(fn[0], fn[1..]);
      PartsAfter(fn[0], Collapse(fn[1..]));
      assert [fn[0]] + fn[1..] == fn;
      hide Parts;
    }
  }

  function Before(fn: string): seq<string> { if Leads(fn) then [""] else [] }

  lemma SplitAfter(c: char, s: string)
    ensures Split([c] + s) == if c == '/' then [""] + Split(s) else [[c] + Split(s)[0]] + Split(s)[1..]
  {
    assert ([c] + s)[1..] == s;
  }

  lemma {:induction false} SplitIs(s: string)
    requires Single(s)
    ensures Split(Trim(s)) == Before(s) + Parts(s)
    decreases |s|
  {
    if |s| >= 2 {
      var t := s[1..];
      SplitIs(t);
      assert Trim(s) == [s[0]] + Trim(t) && s == [s[0]] + t;
      SplitAfter(s[0], Trim(t));
      PartsAfter(s[0], t);
      SplitLonger(s[0], t, Split(Trim(t)), Parts(t));
    } else if |s| == 1 {
      SplitOne(s[0]);
      assert s == [s[0]];
    }
  }

  lemma SplitOne(c: char)
    ensures Split(Trim([c])) == Before([c]) + Parts([c])
  {
    assert [c][1..] == "" && Split("") == [""] && [""][1..] == [] && Parts("") == [];
    if c == '/' {
      assert Trim([c]) == "" && Parts([c]) == [];
    } else {
      assert Trim([c]) == [c] && [c] + "" == [c];
      assert Split([c]) == [[c]] && Parts([c]) == [[c]];
    }
  }

  lemma SplitLonger(c: char, t: string, split: seq<string>, parts: seq<string>)
    requires t != "" && split == Before(t) + parts && (c == '/' ==> t[0] != '/') && (t[0] != '/' ==> parts != [])
    ensures (if c == '/' then [""] + split else [[c] + split[0]] + split[1..])
      == (if c == '/' then [""] else [])
         + if c == '/' then parts else if Leads(t) then [[c]] + parts else [[c] + parts[0]] + parts[1..]
  {
    if t[0] == '/' { assert split[1..] == parts && [c] + "" == [c]; }
  }

  /** The segments are the names, behind an empty one when the path leads with a slash. */
  lemma SegmentsAre(fn: string)
    ensures Segments(fn) == Before(fn) + Parts(fn)
    ensures EndSlash(Collapse(fn)) <==> Trails(fn)
    ensures Leads(fn) ==> Segments(fn)[0] == "" && Segments(fn)[1..] == Parts(fn)
  {
    CollapseSingle(fn);
    CollapseTrails(fn);
    CollapseParts(fn);
    CollapseFirst(fn);
    SplitIs(Collapse(fn));
    hide Parts, Collapse, Split;
  }

  function Last(path: seq<string>): string { if path == [] then "" else path[|path| - 1] }

  predicate GoodName(name: string) { name != "." && name != ".." && |name| < 256 }

  lemma LeafIs(fn: string)
    ensures Leaf(fn) == Last(Parts(fn))
    ensures ValidName(Leaf(fn), true) <==> GoodName(Last(Parts(fn)))
    ensures ValidName(Leaf(fn), false) <==> GoodName(Last(Parts(fn))) && Last(Parts(fn)) != ""
  {
    SegmentsAre(fn);
    hide Parts, Segments, Collapse;
  }

  // ----- open

  /** Some handle is free. */
  predicate HandleLeft(d: Disk) {
    |d.fh| == |d.mask| == MAX_RD_FILES && exists i :: 0 <= i < MAX_RD_FILES && !d.mask[i] && d.fh[i].node == NULL
  }

  lemma {:induction false} FreeSlotIs(d: Disk, from: nat)
    requires |d.fh| == |d.mask| == MAX_RD_FILES && from <= MAX_RD_FILES
    ensures forall j :: from <= j < FreeSlot(d, from) ==> d.mask[j] || d.fh[j].node != NULL
    decreases MAX_RD_FILES - from
  {
    if from < MAX_RD_FILES { FreeSlotIs(d, from + 1); }
  }

  lemma SlotLeft(d: Disk)
    requires Valid(d)
    ensures |d.fh| == |d.mask| == MAX_RD_FILES && (HandleLeft(d) <==> FreeSlot(d, 0) < MAX_RD_FILES)
  {
    KeySets(d, NULL);
    FreeSlotIs(d, 0);
    hide ValidBut;
  }

  /** A node may be opened by that name and in that mode: files as files, and directories not only for writing. */
  predicate Opens(d: Disk, p: Ptr, a: Access, dir: bool) {
    p in d.mem && d.mem[p].dir == dir && !(dir && (a == WriteOnly || a == Append))
  }

  /** A node can be created under that path. */
  predicate Creates(d: Disk, path: seq<string>, a: Access, addr: Ptr) {
    && a != ReadOnly && addr != NULL && path != [] && path[|path| - 1] != ""
    && var f := Resolve(d, path[..|path| - 1]); f in d.mem && d.mem[f].dir
  }

  lemma {:induction false} PartsNamed(fn: string)
    ensures forall k :: 0 <= k < |Parts(fn)| ==> Parts(fn)[k] != ""
  {
    if fn != "" { PartsNamed(fn[1..]); }
  }

  /** What open finds under a path from the root. */
  lemma LookupPath(d: Disk, fn: string)
    requires Valid(d) && Fathers(d) && Leads(fn)
    ensures Lookup(d, Segments(fn), 3) == Resolve(d, Parts(fn))
    ensures Resolve(d, Parts(fn)) == NULL ==> Parts(fn) != []
    ensures Parts(fn) != [] ==>
      FatherFor(d, Segments(fn)) == Filter(d.mem, Resolve(d, Parts(fn)[..|Parts(fn)| - 1]), 2)
  {
    hide *;
    SegmentsAre(fn);
    LookupNode(d, fn);
    RootResolves(d);
    if Parts(fn) != [] { LookupFather(d, fn); }
  }

  lemma LookupNode(d: Disk, fn: string)
    requires Valid(d) && Fathers(d) && Leads(fn)
    ensures Lookup(d, Segments(fn), 3) == Resolve(d, Parts(fn))
    ensures Parts(fn) == [] ==> Resolve(d, Parts(fn)) != NULL
  {
    var path := Parts(fn);
    SegmentsAre(fn);
    RootResolves(d);
    LookupResolves(d, Segments(fn), 3);
    if Resolve(d, path) != NULL { ResolveParent(d, path); }
    NullNowhere(d);
    hide ValidBut, Segments, Collapse, Parts, From, Resolve, Lookup, Fathers, Leads, Trails;
  }

  lemma NullNowhere(d: Disk)
    requires Valid(d)
    ensures NULL !in d.mem
  {
  }

  lemma LookupFather(d: Disk, fn: string)
    requires Valid(d) && Fathers(d) && Leads(fn) && Parts(fn) != []
    ensures FatherFor(d, Segments(fn)) == Filter(d.mem, Resolve(d, Parts(fn)[..|Parts(fn)| - 1]), 2)
  {
    var segs, path := Segments(fn), Parts(fn);
    SegmentsAre(fn);
    hide ValidBut, Segments, Collapse, Parts, From, Resolve, Lookup, Fathers, Filter, Leads, Trails;
    assert |segs| == |path| + 1;
    LookupResolves(d, segs[..|segs| - 1], 2);
    assert segs[..|segs| - 1][1..] == path[..|path| - 1] && segs[..|segs| - 1][0] == "";
  }

  lemma RootResolves(d: Disk)
    ensures Resolve(d, []) == ROOT
  {
  }

  /** Open gives a handle for a path from the root exactly if there is one, the mode is known, the last name is one, a
      file is not asked for with a slash at the end, and the path leads to something that may be opened so, or to
      nothing where something can be created. */
  lemma OpenSucceeds(d: Disk, fn: string, a: Access, dir: bool, addr: Ptr)
    requires Valid(d) && Fathers(d) && Leads(fn)
    ensures |d.fh| == |d.mask| == MAX_RD_FILES
    ensures var path := Parts(fn);
      Descriptor(d, fn, a, dir, addr) > 0 <==>
        && HandleLeft(d) && a != Unknown && GoodName(Last(path)) && (dir || !Trails(fn))
        && if Resolve(d, path) != NULL then Opens(d, Resolve(d, path), a, dir) else Creates(d, path, a, addr)
  {
    hide *;
    SegmentsAre(fn);
    LeafIs(fn);
    SlotLeft(d);
    LookupPath(d, fn);
    PlanIs(d, fn, a, dir, addr);
    NoLeaf(d, fn, a, dir);
    NewPlace(d, fn, a, addr);
  }

  /** Without a name the path leads to the root, which is no file. */
  lemma NoLeaf(d: Disk, fn: string, a: Access, dir: bool)
    requires Valid(d) && Fathers(d)
    ensures Last(Parts(fn)) == "" ==> Resolve(d, Parts(fn)) != NULL
    ensures Last(Parts(fn)) == "" && !dir ==> !Opens(d, Resolve(d, Parts(fn)), a, dir)
  {
    PartsNamed(fn);
    RootResolves(d);
    hide ValidBut, Parts, From, FathersBelow;
  }

  lemma NewPlace(d: Disk, fn: string, a: Access, addr: Ptr)
    requires Valid(d) && Fathers(d) && Leads(fn)
    ensures Creates(d, Parts(fn), a, addr) <==>
      a != ReadOnly && addr != NULL && Last(Parts(fn)) != "" && FatherFor(d, Segments(fn)) != NULL
  {
    LookupPath(d, fn);
    KeySets(d, NULL);
    hide ValidBut, Segments, Parts, Resolve, FatherFor, Fathers;
  }

  /** What open decides by. */
  lemma PlanIs(d: Disk, fn: string, a: Access, dir: bool, addr: Ptr)
    requires |d.fh| == |d.mask| == MAX_RD_FILES
    ensures Descriptor(d, fn, a, dir, addr) > 0 <==>
      && FreeSlot(d, 0) < MAX_RD_FILES && a != Unknown && ValidName(Leaf(fn), true)
      && (dir || (Leaf(fn) != "" && !EndSlash(Collapse(fn))))
      && if Lookup(d, Segments(fn), 3) != NULL then Opens(d, Lookup(d, Segments(fn), 3), a, dir)
         else a != ReadOnly && addr != NULL && FatherFor(d, Segments(fn)) != NULL && ValidName(Leaf(fn), false)
  {
    hide Segments, Leaf, Lookup, FatherFor, FreeSlot, ValidName, Collapse, EndSlash;
  }

  /** What has been refused has changed nothing. */
  lemma OpenFails(d: Disk, fn: string, a: Access, dir: bool, addr: Ptr)
    requires Valid(d) && addr !in d.mem
    ensures |d.fh| == |d.mask| == MAX_RD_FILES
    ensures Descriptor(d, fn, a, dir, addr) == 0 ==> Opened(d, fn, a, dir, addr) == d
  {
    KeySets(d, NULL);
    hide ValidBut, OpenPlan;
  }

  /** The entry that readdir would return first, if none of them is to be unlinked. */
  function FirstEntry(d: Disk, p: Ptr): Ptr { First(KidsOf(d.kids, p)) }

  /** What a handle on node p is like when it has just been opened. */
  predicate NewlyOpen(f: OpenFile, d: Disk, p: Ptr, a: Access, dir: bool) {
    && f.node == p && f.dir == dir
    && (f.read <==> a == ReadOnly || a == ReadWrite)
    && (f.write <==> a == ReadWrite || a == WriteOnly || a == Append)
    && f.cursor == if !dir then Pos(0)
                   else if a == ReadOnly || a == ReadWrite then Entry(FirstEntry(d, p))
                   else Entry(NULL)
  }

  /** Handle i has been opened on p, and nothing else has changed but the count of p. */
  ghost predicate Taken(d: Disk, e: Disk, i: nat, p: Ptr, a: Access, dir: bool) {
    && i < |d.fh| == |d.mask| == |d.scans| && p in d.mem
    && !d.mask[i] && d.fh[i].node == NULL && (forall j :: 0 <= j < i ==> d.mask[j] || d.fh[j].node != NULL)
    && |e.fh| == |d.fh| && e.fh == d.fh[i := e.fh[i]] && NewlyOpen(e.fh[i], d, p, a, dir)
    && e.mask == d.mask[i := true]
    && e.mem == d.mem[p := d.mem[p].(open := d.mem[p].open + 1)] && e.kids == d.kids
  }

  lemma OpenNodeTakes(d: Disk, i: nat, p: Ptr, a: Access, dir: bool)
    requires Valid(d) && i == FreeSlot(d, 0) < MAX_RD_FILES && p in d.mem
    ensures |d.fh| == |d.mask| == |d.scans| && Taken(d, OpenNode(d, i, p, a, dir), i, p, a, dir)
  {
    KeySets(d, NULL);
    FreeSlotIs(d, 0);
    assert Parent(d.mem, d.kids, p);
    hide ValidBut, NewScan;
  }

  /** What open of an existing node leaves. */
  lemma OpenLeaves(d: Disk, fn: string, a: Access, dir: bool, addr: Ptr)
    requires Valid(d) && Fathers(d) && Leads(fn) && addr !in d.mem
    ensures |d.fh| == |d.mask| == MAX_RD_FILES
    ensures var p, fd := Resolve(d, Parts(fn)), Descriptor(d, fn, a, dir, addr);
      fd > 0 && p != NULL ==> Taken(d, Opened(d, fn, a, dir, addr), fd - 1, p, a, dir)
  {
    KeySets(d, NULL);
    LookupPath(d, fn);
    hide ValidBut, Fathers, Segments, Leaf, Lookup, FreeSlot, ValidName, Collapse, EndSlash, OpenNode, Created, Taken,
      FatherFor, Resolve, Parts;
    if Descriptor(d, fn, a, dir, addr) > 0 && Resolve(d, Parts(fn)) != NULL {
      var plan := OpenPlan(d, fn, a, dir);
      assert plan == Existing(FreeSlot(d, 0), Resolve(d, Parts(fn))) && plan.node in d.mem;
      OpenNodeTakes(d, plan.slot, plan.node, a, dir);
    }
  }

  /** What open leaves when it creates: the path leads to the new node, which is the youngest child of the directory
      that the path before it leads to, and the handle is on it. */
  lemma OpenMakes(d: Disk, fn: string, a: Access, dir: bool, addr: Ptr)
    requires Valid(d) && Fathers(d) && Leads(fn) && addr !in d.mem
    ensures |d.fh| == |d.mask| == MAX_RD_FILES
    ensures var path, fd, e := Parts(fn), Descriptor(d, fn, a, dir, addr), Opened(d, fn, a, dir, addr);
      fd > 0 && Resolve(d, path) == NULL ==>
        path != [] && Made(d, e, addr, Resolve(d, path[..|path| - 1]), path[|path| - 1], dir)
        && Resolve(e, path) == addr && |e.fh| == MAX_RD_FILES && NewlyOpen(e.fh[fd - 1], e, addr, a, dir)
        && e.mask == d.mask[fd - 1 := true] && e.fh == d.fh[fd - 1 := e.fh[fd - 1]]
  {
    KeySets(d, NULL);
    hide ValidBut, Fathers, Segments, Leaf, Lookup, FreeSlot, Created, Made, NewlyOpen, FatherFor, Resolve, Parts;
    hide Descriptor, OpenPlan, Opened, Hook, Hooked, FathersBelow;
    LookupPath(d, fn);
    SegmentsAre(fn);
    LeafIs(fn);
    PlanCreates(d, fn, a, dir, addr);
    var path := Parts(fn);
    if Descriptor(d, fn, a, dir, addr) > 0 && Resolve(d, path) == NULL {
      var plan := OpenPlan(d, fn, a, dir);
      FatherResolves(d, path);
      OpenedIsCreated(d, fn, a, dir, addr);
      OpenedNames(d, fn, a, dir, addr, path);
      CreatedMakes(d, plan.slot, plan.father, addr, Leaf(fn), a, dir);
    }
  }

  lemma PlanCreates(d: Disk, fn: string, a: Access, dir: bool, addr: Ptr)
    requires |d.fh| == |d.mask| == MAX_RD_FILES
    ensures Descriptor(d, fn, a, dir, addr) > 0 && Lookup(d, Segments(fn), 3) == NULL ==>
      var slot, f := FreeSlot(d, 0), FatherFor(d, Segments(fn));
      OpenPlan(d, fn, a, dir) == Create(slot, f) && addr != NULL && f != NULL && slot < MAX_RD_FILES
      && Descriptor(d, fn, a, dir, addr) == slot + 1
  {
    hide Segments, Leaf, Lookup, FreeSlot, FatherFor, ValidName, Collapse, EndSlash;
  }

  lemma FatherResolves(d: Disk, path: seq<string>)
    requires path != []
    ensures Filter(d.mem, Resolve(d, path[..|path| - 1]), 2) != NULL ==>
      Filter(d.mem, Resolve(d, path[..|path| - 1]), 2) == Resolve(d, path[..|path| - 1])
  {
  }

  /** c is new in e, childless, and the youngest child of f, and all other families are as they were. */
  ghost predicate Made(d: Disk, e: Disk, c: Ptr, f: Ptr, name: string, dir: bool) {
    && f in d.kids && c !in d.mem && c in e.mem
    && e.kids == d.kids[f := d.kids[f] + [c]][c := []]
    && e.mem[c].name == name && e.mem[c].dir == dir && e.mem[c].open == 1 && !e.mem[c].unlinked
    && e.mem.Keys == d.mem.Keys + {c} && forall p :: p in d.mem ==> SameNodeBut(d.mem[p], e.mem[p])
  }

  lemma CreatedMakes(d: Disk, i: nat, f: Ptr, c: Ptr, name: string, a: Access, dir: bool)
    requires Valid(d) && i == FreeSlot(d, 0) < MAX_RD_FILES && c !in d.mem && c != NULL
    requires f in d.mem && !d.mem[f].unlinked
    ensures var e := Created(d, i, f, c, name, a, dir);
      Made(d, e, c, f, name, dir) && |d.fh| == |d.mask| == |e.fh| == MAX_RD_FILES && NewlyOpen(e.fh[i], e, c, a, dir)
      && e.mask == d.mask[i := true] && e.fh == d.fh[i := e.fh[i]]
  {
    KeySets(d, NULL);
    var n := NewNode(d, name, dir);
    HookNames(d, f, c, n);
    HookedFields(d, f, c, n);
    var h := Hook(d, f, c, n);
    SameFreeSlot(d, h, 0);
    OpenNodeTakes(h, i, c, a, dir);
    hide ValidBut, Hook, NewScan, FreeSlot, Hooked, Taken, NewlyOpen, Made, OpenNode;
    HookedTaken(d, f, c, n, h, OpenNode(h, i, c, a, dir), i, a);
  }

  lemma HookedTaken(d: Disk, f: Ptr, c: Ptr, n: Node, h: Disk, e: Disk, i: nat, a: Access)
    requires Hooked(d, f, c, n, h) && Taken(h, e, i, c, a, n.dir) && h.fh == d.fh && h.mask == d.mask && n.open == 0
    ensures Made(d, e, c, f, n.name, n.dir) && |d.fh| == |d.mask| == |e.fh| && NewlyOpen(e.fh[i], e, c, a, n.dir)
      && e.mask == d.mask[i := true] && e.fh == d.fh[i := e.fh[i]]
  {
    KeySets(d, NULL);
    hide ValidBut;
  }

  lemma SameFreeSlot(d: Disk, e: Disk, from: nat)
    requires |d.fh| == |d.mask| == MAX_RD_FILES && e.fh == d.fh && e.mask == d.mask && from <= MAX_RD_FILES
    ensures FreeSlot(d, from) == FreeSlot(e, from)
    decreases MAX_RD_FILES - from
  {
    if from < MAX_RD_FILES { SameFreeSlot(d, e, from + 1); }
  }

  // ----- without a leading slash

  /** A path that does not begin at the root is never found. It is created in the root directory if it is a single name,
      whatever the root has. */
  lemma OpenSlashless(d: Disk, fn: string, a: Access, dir: bool, addr: Ptr)
    requires Valid(d) && !Leads(fn)
    ensures |d.fh| == |d.mask| == MAX_RD_FILES
    ensures Descriptor(d, fn, a, dir, addr) > 0 <==>
      && HandleLeft(d) && a != Unknown && a != ReadOnly && addr != NULL && (dir || !Trails(fn))
      && |Parts(fn)| == 1 && GoodName(Parts(fn)[0])
    ensures Descriptor(d, fn, a, dir, addr) > 0 ==> OpenPlan(d, fn, a, dir) == Create(FreeSlot(d, 0), ROOT)
  {
    KeySets(d, NULL);
    SegmentsAre(fn);
    LeafIs(fn);
    SlotLeft(d);
    PartsNamed(fn);
    PlanIs(d, fn, a, dir, addr);
    LookupResolves(d, Segments(fn), 3);
    if |Segments(fn)| > 1 { LookupResolves(d, Segments(fn)[..|Segments(fn)| - 1], 2); }
    hide ValidBut, Segments, Leaf, Lookup, FreeSlot, ValidName, Collapse, EndSlash, Parts, GoodName, HandleLeft, Trails;
  }

  // ----- close

  /** A handle that is in use is free after close, its node has one handle less, and is released exactly if it was the
      last one on a node to be unlinked; all other handles are as they were, but for cursors on that node. */
  lemma CloseLeaves(d: Disk, fd: nat)
    requires Valid(d) && 1 <= fd <= 32 == |d.mask| && d.mask[fd - 1]
    ensures var p, e := d.fh[fd - 1].node, ClosedDisk(d, fd);
      && fd <= |d.fh| && |d.fh| == |e.fh| == |e.mask| && e.mask == d.mask[fd - 1 := false]
      && e.fh[fd - 1].node == NULL && !e.fh[fd - 1].read && !e.fh[fd - 1].write && !e.fh[fd - 1].dir
      && p in d.mem && d.mem[p].open > 0
      && (p in e.mem <==> !(d.mem[p].unlinked && d.mem[p].open == 1))
      && (p in e.mem ==> e.mem[p].open == d.mem[p].open - 1 && e.mem[p].unlinked == d.mem[p].unlinked)
      && (forall q :: q in d.mem && q != p ==> q in e.mem && SameNodeBut(d.mem[q], e.mem[q]))
      && (forall q :: q in e.mem ==> q in d.mem)
      && forall j :: 0 <= j < |d.fh| && j != fd - 1 ==> SameButCursor(d.fh[j], e.fh[j])
  {
    hide Tree, Scans, Serials, Waiting, Detached, Opens;
    KeySets(d, NULL);
    DropValid(d, fd - 1);
    GoingFacts(d, fd);
    var p, m := d.fh[fd - 1].node, Drop(d, fd - 1);
    if m.mem[p].unlinked && m.mem[p].open == 0 {
      PlaceFacts(m, p, p);
      RemoveTree(m, p, m.mem[p].father, Place(m, p), Remove(m, p));
    }
  }

  predicate SameButCursor(f: OpenFile, g: OpenFile) {
    f.node == g.node && f.read == g.read && f.write == g.write && f.dir == g.dir
  }

  lemma CloseNothing(d: Disk, fd: nat)
    requires Valid(d) && !(1 <= fd <= 32 == |d.mask| && d.mask[fd - 1])
    ensures ClosedDisk(d, fd) == d
  {
    KeySets(d, NULL);
  }

  // ----- readdir

  /** A handle that reads a directory. */
  predicate Reading(d: Disk, fd: nat) {
    && 1 <= fd <= 32 == |d.mask| == |d.fh| && d.mask[fd - 1] && d.fh[fd - 1].read && d.fh[fd - 1].dir
    && d.fh[fd - 1].node in d.mem && d.mem[d.fh[fd - 1].node].dir
  }

  /** Readdir returns the first child from the cursor on that is not to be unlinked, if there is one, and then stands
      at its younger brother, else at the end. */
  lemma ReadLeaves(d: Disk, fd: nat)
    requires Valid(d) && Reading(d, fd)
    ensures |d.scans| == 32 && d.fh[fd - 1].cursor.Entry?
    ensures var f, e, p := d.fh[fd - 1], ReadDisk(d, fd), ReadEntry(d, fd);
      var k := KidsOf(d.kids, f.node);
      var j := Behind(k, f.cursor.p);
      && e == d.(fh := e.fh, scans := e.scans) && |e.fh| == |e.scans| == 32 && e.fh == d.fh[fd - 1 := e.fh[fd - 1]]
      && if p == NULL then
           && (forall i :: j <= i < |k| ==> k[i] in d.mem && d.mem[k[i]].unlinked)
           && e.fh[fd - 1] == f.(cursor := Entry(NULL)) && e.scans == d.scans
         else
           && p in d.mem && !d.mem[p].unlinked && e.fh[fd - 1] == f.(cursor := Entry(d.mem[p].little))
           && (exists n ::
                 j <= n < |k| && k[n] == p && forall i :: j <= i < n ==> k[i] in d.mem && d.mem[k[i]].unlinked)
           && e.scans[fd - 1].returned == d.scans[fd - 1].returned + [d.mem[p].serial]
           && e.scans == d.scans[fd - 1 := e.scans[fd - 1]] && e.scans[fd - 1].initial == d.scans[fd - 1].initial
  {
    KeySets(d, NULL);
    ReadFacts(d, fd);
    var f := d.fh[fd - 1];
    assert HandleOk(d.mem, d.kids, f, d.mask[fd - 1]);
    FamilyFacts(d, NULL, f.node);
    var k, n := Listed(d, fd), ReadIndex(d, fd);
    if n < |k| { assert ChildLinked(d.mem, d.kids, d.rank, f.node, n); }
    hide ValidBut, Behind, NextLive;
  }

  lemma ReadNothing(d: Disk, fd: nat)
    requires Valid(d) && !Reading(d, fd)
    ensures ReadEntry(d, fd) == NULL && ReadDisk(d, fd) == d
  {
    KeySets(d, NULL);
  }

  // ----- unlink

  /** Unlink of a path from the root finds something to remove exactly if the path has a good last name and leads to a
      node that is a directory if a slash follows, and has no children if it is a directory. */
  lemma UnlinkSucceeds(d: Disk, fn: string)
    requires Valid(d) && Fathers(d) && Leads(fn)
    ensures var path := Parts(fn);
      var p := Resolve(d, path);
      if path != [] && GoodName(Last(path)) && p in d.mem && (Trails(fn) ==> d.mem[p].dir) && KidsOf(d.kids, p) == []
      then UnlinkTarget(d, fn) == p
      else UnlinkTarget(d, fn) == NULL
  {
    KeySets(d, NULL);
    SegmentsAre(fn);
    LeafIs(fn);
    PartsNamed(fn);
    var path := Parts(fn);
    var p := Resolve(d, path);
    LookupResolves(d, Segments(fn), if EndSlash(Collapse(fn)) then 2 else 3);
    if p in d.mem {
      assert Parent(d.mem, d.kids, p);
      FamilyFacts(d, NULL, p);
    }
    hide ValidBut, Segments, Leaf, Lookup, ValidName, Collapse, EndSlash, Parts, GoodName, Trails, Resolve;
  }

  /** What unlink leaves of the node that it finds: one that is open is marked, any other is released. */
  lemma UnlinkLeaves(d: Disk, fn: string)
    requires Valid(d) && Fathers(d) && UnlinkTarget(d, fn) != NULL
    ensures var p, e := UnlinkTarget(d, fn), UnlinkedDisk(d, fn);
      && p in d.mem && (p in e.mem <==> d.mem[p].open > 0)
      && (p in e.mem ==> e.mem[p] == d.mem[p].(unlinked := true) && e.kids == d.kids && e.fh == d.fh)
      && (forall q :: q in d.mem && q != p ==> q in e.mem && SameNodeBut(d.mem[q], e.mem[q]))
      && (forall q :: q in e.mem ==> q in d.mem)
      && e.mask == d.mask && |e.fh| == |d.fh| && forall j :: 0 <= j < |d.fh| ==> SameButCursor(d.fh[j], e.fh[j])
  {
    hide UnlinkTarget, ValidBut, RamOps.ReallyUnlink;
    var p := UnlinkTarget(d, fn);
    UnlinkFacts(d, fn);
    KeySets(d, NULL);
    if d.mem[p].open == 0 { RemovedLeaves(d, p); }
  }

  lemma RemovedLeaves(d: Disk, p: Ptr)
    requires Valid(d) && p in d.mem && p != ROOT && d.kids[p] == [] && d.mem[p].son == NULL
    ensures var e := RamOps.ReallyUnlink(d, p);
      && p !in e.mem && (forall q :: q in d.mem && q != p ==> q in e.mem && SameNodeBut(d.mem[q], e.mem[q]))
      && (forall q :: q in e.mem ==> q in d.mem)
      && e.mask == d.mask && |e.fh| == |d.fh| && forall j :: 0 <= j < |d.fh| ==> SameButCursor(d.fh[j], e.fh[j])
  {
    hide Handles, Scans, Serials, Waiting, Detached;
    PlaceFacts(d, NULL, p);
    RemoveTree(d, p, d.mem[p].father, Place(d, p), Remove(d, p));
    hide Tree;
  }
}
