/** Runs that go wrong on the RAM disk: two brothers of one name, and directories that are written to. */
module RamFailures {
  import opened RamTree
  import opened RamHandles
  import opened RamSpec
  import opened RamNames
  import opened RamOps
  import opened RamTheorems
  import opened RamRuns

  // ----- running a call, then the rest

  lemma RunCons(d: Disk, op: Op, ops: seq<Op>)
    requires Valid(d) && !Breaks(d, op)
    ensures Step(d, op).Going? && Valid(Step(d, op).disk)
    ensures EverBreaks(d, [op] + ops) <==> EverBreaks(Step(d, op).disk, ops)
    ensures !EverBreaks(Step(d, op).disk, ops) ==> Run(d, [op] + ops) == Run(Step(d, op).disk, ops)
  {
    hide ValidBut, Step, Breaks;
    StepValid(d, op);
    assert ([op] + ops)[1..] == ops;
  }

  lemma OpenStep(d: Disk, op: Op)
    requires Valid(d) && op.Open? && op.addr !in d.mem
    ensures !Breaks(d, op) && Step(d, op) == Going(Opened(d, op.fn, op.access, op.dir, op.addr))
  {
    hide ValidBut, Opened;
  }

  // ----- two brothers of one name

  lemma SegmentsOfSlashX()
    ensures Segments("/x") == ["", "x"] && Leaf("/x") == "x" && !EndSlash(Collapse("/x"))
  {
    SegmentsOfX();
    assert Collapse("x") == "x" && "/x"[1..] == "x" && ['/'] + "x" == "/x";
    assert Collapse("/x") == Trim("/x") == "/x";
    assert Split("/x") == [""] + Split("x") == [""] + ["x"];
  }

  lemma FirstCreate(d: Disk, dir: bool)
    requires d == Fresh() && Valid(d) && Fathers(d)
    ensures OpenPlan(d, "/x", WriteOnly, dir) == Create(0, ROOT)
  {
    SegmentsOfSlashX();
    hide Segments, Leaf, Collapse, ValidBut;
    LookupResolves(d, ["", "x"], 3);
    ResolveOne(d, "x");
    assert ["", "x"][1..] == ["x"] && ["", "x"][..1] == [""] && [""][1..] == [];
    LookupResolves(d, [""], 2);
    assert FreeSlot(d, 0) == 0;
  }

  /** The disk once /x has been made. */
  ghost predicate HasX(e: Disk, dir: bool) {
    && Valid(e) && UniqueNames(e) && Fathers(e) && Resolve(e, ["x"]) == 2 && Resolve(e, ["x", "f"]) == NULL
    && 3 !in e.mem && FreeSlot(e, 0) == 1 && 2 in e.mem && e.mem[2].dir == dir && e.mem[2].open == 1
    && e.mask[0] && e.fh[0] == OpenFile(2, false, true, dir, if dir then Entry(NULL) else Pos(0))
  }

  lemma FirstX(d: Disk, dir: bool)
    requires d == Fresh() && Valid(d) && UniqueNames(d) && Fathers(d)
    ensures var op := Open("/x", WriteOnly, dir, 2);
      !Breaks(d, op) && Step(d, op).Going? && HasX(Step(d, op).disk, dir)
  {
    hide ValidBut, Opened, UniqueNames, Segments, OpenPlan, From, FreeSlot, Step, Fathers, FathersBelow, Breaks;
    var op := Open("/x", WriteOnly, dir, 2);
    FirstCreate(d, dir);
    SegmentsOfSlashX();
    OpenStep(d, op);
    OpenedValid(d, "/x", WriteOnly, dir, 2);
    assert ["", "x"][1..] == ["x"];
    OpenedNames(d, "/x", WriteOnly, dir, 2, ["x"]);
    OpenedNames(d, "/x", WriteOnly, dir, 2, ["x", "f"]);
    NothingYet(d);
    OpenedUnique(d, "/x", WriteOnly, dir, 2);
    BelowToo(d);
    OpenedFathers(d, "/x", WriteOnly, dir, 2);
    FirstHandle(d, dir, Opened(d, "/x", WriteOnly, dir, 2));
  }

  lemma NothingYet(d: Disk)
    requires d == Fresh() && Valid(d)
    ensures Resolve(d, ["x", "f"]) == NULL && 2 !in d.mem
  {
    hide ValidBut;
    ResolveOne(d, "x");
    assert ["x", "f"][..1] == ["x"];
  }

  lemma FirstHandle(d: Disk, dir: bool, e: Disk)
    requires d == Fresh() && Valid(d) && 2 !in d.mem && e == Opened(d, "/x", WriteOnly, dir, 2) && Valid(e)
    requires OpenPlan(d, "/x", WriteOnly, dir) == Create(0, ROOT)
    ensures FreeSlot(e, 0) == 1 && 3 !in e.mem && 2 in e.mem && e.mem[2].dir == dir && e.mem[2].open == 1
    ensures e.mask[0] && e.fh[0] == OpenFile(2, false, true, dir, if dir then Entry(NULL) else Pos(0))
  {
    hide ValidBut, Segments, Leaf, OpenPlan, Opened, Hook, Hooked, FreeSlot;
    KeySets(d, NULL);
    KeySets(e, NULL);
    var n := NewNode(d, Leaf("/x"), dir);
    OpenedIsCreated(d, "/x", WriteOnly, dir, 2);
    HookNames(d, ROOT, 2, n);
    HookedFields(d, ROOT, 2, n);
    HookedKeys(d, ROOT, 2, n);
    assert e.mask[0] && !e.mask[1] && e.fh[1].node == NULL;
    SlotOne(e);
  }

  lemma HookedKeys(d: Disk, f: Ptr, c: Ptr, n: Node)
    requires f in d.mem && f in d.kids && f in d.rank && (Last(d.kids[f]) != NULL ==> Last(d.kids[f]) in d.mem)
    requires Hooked(d, f, c, n, Hook(d, f, c, n))
    ensures Hook(d, f, c, n).mem.Keys == d.mem.Keys + {c} && Hook(d, f, c, n).mem[c].dir == n.dir
    ensures Hook(d, f, c, n).mem[c].open == n.open
  {
  }

  lemma SlotOne(e: Disk)
    requires |e.fh| == |e.mask| == MAX_RD_FILES && e.mask[0] && !e.mask[1] && e.fh[1].node == NULL
    ensures FreeSlot(e, 0) == 1
  {
    assert FreeSlot(e, 1) == 1;
  }

  /** Without a leading slash names need not stay unique: create /x, then x. */
  lemma SlashlessRun()
    ensures var ops := [Open("/x", WriteOnly, false, 2)] + [Open("x", WriteOnly, false, 3)];
      !EverBreaks(SetUp(), ops) && !UniqueNames(FreshRun(ops))
  {
    FreshValid();
    hide ValidBut, Opened, UniqueNames, Step, Run, Fresh, Fathers, FathersBelow, Breaks, EverBreaks;
    var d, one, two := Fresh(), Open("/x", WriteOnly, false, 2), Open("x", WriteOnly, false, 3);
    FirstX(d, false);
    var e := Step(d, one).disk;
    SlashlessBreaksUnique(e, WriteOnly, 3);
    OpenStep(e, two);
    RunOne(e, two);
    RunCons(d, one, [two]);
  }

  lemma RunOne(d: Disk, op: Op)
    requires Valid(d) && !Breaks(d, op)
    ensures !EverBreaks(d, [op]) && Step(d, op).Going? && Run(d, [op]) == Step(d, op).disk
  {
    hide ValidBut, Step, Breaks;
    StepValid(d, op);
    assert [op][1..] == [];
    assert Run(Step(d, op).disk, []) == Step(d, op).disk;
  }

  // ----- a directory that is written to

  predicate Quiet(ops: seq<Op>) { forall k :: 0 <= k < |ops| ==> !ops[k].Write? }

  /** The disk after any calls but writes. */
  lemma {:induction false} QuietSafe(d: Disk, ops: seq<Op>)
    requires Valid(d) && FathersBelow(d) && Quiet(ops)
    ensures !EverBreaks(d, ops)
    decreases |ops|
  {
    hide ValidBut, FathersBelow, Fathers, Step, Breaks;
    if ops != [] {
      StepFathers(d, ops[0]);
      StepValid(d, ops[0]);
      QuietSafe(Step(d, ops[0]).disk, ops[1..]);
    }
  }

  /** What a search finds among the children of a node lies below it. */
  lemma {:induction false} WalkBelow(d: Disk, c: Ptr, segs: seq<string>, what: int)
    requires Valid(d) && c in d.mem && segs != []
    ensures var p := Walk(d.mem, d.kids, KidsOf(d.kids, c), segs, what);
      p != NULL ==> p in d.rank && c in d.rank && d.rank[c] < d.rank[p]
    decreases |segs|
  {
    var k := KidsOf(d.kids, c);
    var q := FindChild(d.mem, k, segs[0]);
    if q != NULL {
      var i :| 0 <= i < |k| && k[i] == q;
      assert ChildLinked(d.mem, d.kids, d.rank, c, i);
      if |segs| > 1 { WalkBelow(d, q, segs[1..], what); }
    }
  }

  /** The search does not care what kind the node that it finds has, since it lies below all others on its way. */
  lemma {:induction false} WalkStays(d: Disk, e: Disk, p: Ptr, k: seq<Ptr>, segs: seq<string>)
    requires Valid(d) && p in d.mem && segs != [] && Walk(d.mem, d.kids, k, segs, 3) == p
    requires e.kids == d.kids && e.mem == d.mem[p := d.mem[p].(dir := false)]
    ensures Walk(e.mem, e.kids, k, segs, 3) == p
    decreases |segs|
  {
    FindChildSame(d.mem, e.mem, k, segs[0]);
    if |segs| > 1 {
      var c := Filter(d.mem, FindChild(d.mem, k, segs[0]), 2);
      KeySets(d, NULL);
      if c != NULL {
        WalkBelow(d, c, segs[1..], 3);
        WalkStays(d, e, p, KidsOf(d.kids, c), segs[1..]);
      }
    }
  }

  /** A path that unlink takes for node p. */
  predicate Names(d: Disk, fn: string, p: Ptr) {
    ValidName(Leaf(fn), false) && !EndSlash(Collapse(fn)) && Lookup(d, Segments(fn), 3) == p
  }

  /** A directory that was made a file is unlinked although it has children. */
  lemma WriteMarks(d: Disk, fd: nat, size: nat, fn: string)
    requires Valid(d) && MayWrite(d, fd) && size > 0
    requires var p := d.fh[fd - 1].node; KidsOf(d.kids, p) != [] && Names(d, fn, p)
    ensures MarksFather(Written(d, fd, size), fn) && UnlinkTarget(Written(d, fd, size), fn) == d.fh[fd - 1].node
  {
    hide Segments, Leaf, Collapse, ValidBut, Walk, ValidName, EndSlash;
    var p, e := d.fh[fd - 1].node, Written(d, fd, size);
    HeldFather(d, fd);
    WalkStays(d, e, p, [ROOT], Segments(fn));
  }

  lemma HeldFather(d: Disk, fd: nat)
    requires Valid(d) && MayWrite(d, fd) && KidsOf(d.kids, d.fh[fd - 1].node) != []
    ensures d.mem[d.fh[fd - 1].node].open > 0 && d.mem[d.fh[fd - 1].node].son != NULL
  {
    hide Handles, Scans, Serials, Waiting;
    DropValid(d, fd - 1);
    FamilyFacts(d, NULL, d.fh[fd - 1].node);
    assert Parent(d.mem, d.kids, d.fh[fd - 1].node);
  }

  /** After a write to a directory that the handle does not stand in, every run without writes is safe throughout
      exactly if the directory is the root or has no children. */
  lemma WriteIff(d: Disk, fd: nat, size: nat, fn: string)
    requires Valid(d) && Fathers(d) && MayWrite(d, fd) && size > 0 && !Overruns(d, Write(fd, size))
    requires var p := d.fh[fd - 1].node; p != ROOT && KidsOf(d.kids, p) != [] ==> Names(d, fn, p)
    ensures Step(d, Write(fd, size)) == Going(Written(d, fd, size)) && Valid(Written(d, fd, size))
    ensures (forall ops :: Quiet(ops) ==> AlwaysSafe(Written(d, fd, size), ops))
      <==> d.fh[fd - 1].node == ROOT || KidsOf(d.kids, d.fh[fd - 1].node) == []
  {
    hide ValidBut, Written, Overruns, Breaks, MarksFather, Names;
    var p, e := d.fh[fd - 1].node, Written(d, fd, size);
    WriteGoes(d, Write(fd, size));
    if p == ROOT || KidsOf(d.kids, p) == [] {
      WrittenBelow(d, fd, size);
      forall ops | Quiet(ops) ensures AlwaysSafe(e, ops) {
        QuietSafe(e, ops);
        RunSafeIff(e, ops);
      }
    } else {
      WriteMarks(d, fd, size, fn);
      UnlinkBreaks(e, fn);
      RunSafeIff(e, [Unlink(fn)]);
      assert Quiet([Unlink(fn)]);
    }
  }

  /** Once the root has been made a file, no path leads anywhere but to it. */
  lemma RootLost(d: Disk, fd: nat, size: nat, segs: seq<string>, what: int)
    requires Valid(d) && MayWrite(d, fd) && size > 0 && d.fh[fd - 1].node == ROOT && |segs| > 1
    ensures Lookup(Written(d, fd, size), segs, what) == NULL
  {
    KeySets(d, NULL);
    var e := Written(d, fd, size);
    assert [ROOT][0] == ROOT && [ROOT][1..] == [];
    assert FindChild(e.mem, [ROOT], segs[0]) in {NULL, ROOT};
    hide ValidBut;
  }

  lemma UnlinkBreaks(d: Disk, fn: string)
    requires Valid(d) && MarksFather(d, fn)
    ensures EverBreaks(d, [Unlink(fn)])
  {
    hide ValidBut, MarksFather;
    assert Breaks(d, Unlink(fn));
  }

  lemma WrittenBelow(d: Disk, fd: nat, size: nat)
    requires Valid(d) && FathersBelow(d) && MayWrite(d, fd)
    requires d.fh[fd - 1].node == ROOT || KidsOf(d.kids, d.fh[fd - 1].node) == []
    ensures FathersBelow(Written(d, fd, size))
  {
    hide ValidBut;
  }

  /** Closing the last handle on a node that was marked with its children leaves it marked, with no handle on it: the
      removal is refused, and nothing will try again. */
  lemma CloseStrands(d: Disk, fn: string, fd: nat)
    requires Valid(d) && MarksFather(d, fn) && InUse(d, fd)
    requires var p := UnlinkTarget(d, fn); d.fh[fd - 1].node == p && d.mem[p].open == 1
    ensures var p, e := UnlinkTarget(d, fn), ClosedDisk(UnlinkedDisk(d, fn), fd);
      p in e.mem && e.mem[p].unlinked && e.mem[p].open == 0 && e.mem[p].son == d.mem[p].son != NULL
      && forall i :: 0 <= i < |e.fh| ==> e.fh[i].node != p
  {
    hide Tree, Scans, Serials, UnlinkTarget, Opens;
    var p, m := UnlinkTarget(d, fn), UnlinkedDisk(d, fn);
    var e := ClosedDisk(m, fd);
    KeySets(d, NULL);
    assert CountOk(d.mem, d.fh, p);
    OpensUpdate(d.fh, fd - 1, Closed(d.fh[fd - 1]), p);
    assert e.fh == d.fh[fd - 1 := Closed(d.fh[fd - 1])];
    forall i: nat | i < |e.fh| ensures e.fh[i].node != p {
      if e.fh[i].node == p { OpensPositive(e.fh, i); }
    }
  }

  lemma SegmentsOfSlashXF()
    ensures Segments("/x/f") == ["", "x", "f"] && Leaf("/x/f") == "f" && !EndSlash(Collapse("/x/f"))
    ensures ValidName("f", true) && ValidName("f", false)
  {
    assert Collapse("f") == "f" && "/f"[1..] == "f" && ['/'] + "f" == "/f" && Collapse("/f") == "/f";
    assert "x/f"[1..] == "/f" && ['x'] + "/f" == "x/f" && Collapse("x/f") == "x/f";
    assert "/x/f"[1..] == "x/f" && ['/'] + "x/f" == "/x/f" && Collapse("/x/f") == Trim("/x/f") == "/x/f";
    assert "f"[1..] == "" && Split("") == [""] && ['f'] + "" == "f" && [""][1..] == [];
    assert Split("f") == ["f"];
    assert Split("/f") == [""] + ["f"] == ["", "f"];
    assert ['x'] + "" == "x" && ["", "f"][1..] == ["f"] && Split("x/f") == ["x"] + ["f"] == ["x", "f"];
    assert Split("/x/f") == [""] + ["x", "f"];
  }

  lemma SecondCreate(e: Disk)
    requires HasX(e, true)
    ensures OpenPlan(e, "/x/f", WriteOnly, false).Create?
  {
    SegmentsOfSlashXF();
    KeySets(e, NULL);
    hide Segments, Leaf, Collapse, ValidBut, From, UniqueNames, Fathers, FathersBelow, ValidName;
    assert ["", "x", "f"][1..] == ["x", "f"] && ["", "x", "f"][..2] == ["", "x"] && ["", "x"][1..] == ["x"];
    LookupResolves(e, ["", "x", "f"], 3);
    LookupResolves(e, ["", "x"], 2);
  }

  /** /x is a directory with a child, and the first handle may write to it. */
  lemma SecondX(e: Disk)
    requires HasX(e, true)
    ensures var op := Open("/x/f", WriteOnly, false, 3);
      !Breaks(e, op) && Step(e, op).Going? &&
      var g := Step(e, op).disk;
      Valid(g) && Fathers(g) && MayWrite(g, 1) && g.fh[0] == e.fh[0] && KidsOf(g.kids, 2) != [] && Names(g, "/x", 2)
      && g.mem[2].open == 1
  {
    hide ValidBut, Opened, UniqueNames, Segments, Leaf, Collapse, OpenPlan, From, FreeSlot, Step, Fathers, FathersBelow;
    hide Breaks, ValidName;
    var op := Open("/x/f", WriteOnly, false, 3);
    SecondCreate(e);
    SegmentsOfSlashXF();
    OpenStep(e, op);
    OpenedValid(e, "/x/f", WriteOnly, false, 3);
    BelowToo(e);
    OpenedFathers(e, "/x/f", WriteOnly, false, 3);
    assert ["", "x", "f"][1..] == ["x", "f"];
    OpenedNames(e, "/x/f", WriteOnly, false, 3, ["x"]);
    OpenedNames(e, "/x/f", WriteOnly, false, 3, ["x", "f"]);
    KeySets(e, NULL);
    OpenKeepsScan(e, "/x/f", WriteOnly, false, 3, 0);
    OpenedOther(e, "/x/f", WriteOnly, false, 3, 2);
    ChildOfX(Opened(e, "/x/f", WriteOnly, false, 3));
  }

  lemma OpenedOther(d: Disk, fn: string, a: Access, dir: bool, addr: Ptr, p: Ptr)
    requires Valid(d) && addr !in d.mem && addr != NULL && OpenPlan(d, fn, a, dir).Create? && p in d.mem
    ensures var e := Opened(d, fn, a, dir, addr); p in e.mem && e.mem[p].open == d.mem[p].open
  {
    hide ValidBut, Segments, Leaf, OpenPlan, Opened, Hook;
    KeySets(d, NULL);
    OpenedIsCreated(d, fn, a, dir, addr);
    var f, n := OpenPlan(d, fn, a, dir).father, NewNode(d, Leaf(fn), dir);
    HookNames(d, f, addr, n);
    HookedFields(d, f, addr, n);
  }

  lemma ChildOfX(g: Disk)
    requires Valid(g) && Fathers(g) && Resolve(g, ["x"]) == 2 && Resolve(g, ["x", "f"]) == 3
    ensures 2 in g.mem && KidsOf(g.kids, 2) != [] && Names(g, "/x", 2)
  {
    ResolveParent(g, ["x"]);
    ResolveParent(g, ["x", "f"]);
    assert ["x", "f"][..1] == ["x"];
    KeySets(g, NULL);
    PlaceFacts(g, NULL, 3);
    SegmentsOfSlashX();
    hide ValidBut, From, Fathers, Segments, Collapse, Leaf;
    assert ["", "x"][1..] == ["x"];
    LookupResolves(g, ["", "x"], 3);
  }

  /** Make /x through a handle that may write, make /x/f, write to /x. */
  function Making(size: nat): seq<Op> {
    [Open("/x", WriteOnly, true, 2)] + ([Open("/x/f", WriteOnly, false, 3)] + [Write(1, size)])
  }

  /** From set-up these calls break nothing. To unlink /x then marks it with its child, and once its handle is closed it
      stays marked for good, held by none. */
  lemma DirWriteRun(size: nat)
    requires size > 0
    ensures !EverBreaks(SetUp(), Making(size)) && MarksFather(FreshRun(Making(size)), "/x")
    ensures !AlwaysSafe(SetUp(), Making(size) + [Unlink("/x")])
    ensures var e := ClosedDisk(UnlinkedDisk(FreshRun(Making(size)), "/x"), 1);
      2 in e.mem && e.mem[2].unlinked && e.mem[2].open == 0 && e.mem[2].son != NULL
  {
    FreshValid();
    hide ValidBut, Opened, UniqueNames, Step, Run, Fresh, Fathers, FathersBelow, Breaks, EverBreaks, Written;
    hide Names, MarksFather, ClosedDisk, UnlinkedDisk, UnlinkTarget;
    var d, one, two := Fresh(), Open("/x", WriteOnly, true, 2), Open("/x/f", WriteOnly, false, 3);
    var w, u := Write(1, size), Unlink("/x");
    FirstX(d, true);
    var e := Step(d, one).disk;
    SecondX(e);
    var g := Step(e, two).disk;
    WriteGoes(g, w);
    Losing(g, size);
    RunOne(g, w);
    RunCons(e, two, [w]);
    RunCons(d, one, [two] + [w]);
    UnlinkBreaks(Written(g, 1, size), "/x");
    RunCons(g, w, [u]);
    RunCons(e, two, [w] + [u]);
    RunCons(d, one, [two] + ([w] + [u]));
    assert Making(size) + [u] == [one] + ([two] + ([w] + [u]));
    RunSafeIff(d, Making(size) + [u]);
  }

  lemma Losing(g: Disk, size: nat)
    requires Valid(g) && MayWrite(g, 1) && size > 0 && g.fh[0].node == 2 && g.mem[2].open == 1
    requires KidsOf(g.kids, 2) != [] && Names(g, "/x", 2)
    ensures MarksFather(Written(g, 1, size), "/x")
    ensures var e := ClosedDisk(UnlinkedDisk(Written(g, 1, size), "/x"), 1);
      2 in e.mem && e.mem[2].unlinked && e.mem[2].open == 0 && e.mem[2].son != NULL
  {
    var r := Written(g, 1, size);
    WriteMarks(g, 1, size, "/x");
    KeySets(g, NULL);
    OverwriteValid(g, 0, Word(g.fh[0].cursor) + size);
    assert r.mem[2].open == 1 && InUse(r, 1);
    hide ValidBut, Written, MarksFather, ClosedDisk, UnlinkedDisk, UnlinkTarget;
    CloseStrands(r, "/x", 1);
  }

  lemma WriteGoes(g: Disk, w: Op)
    requires Valid(g) && w.Write? && !Overruns(g, w)
    ensures !Breaks(g, w) && Step(g, w) == Going(Written(g, w.handle, w.size)) && Valid(Written(g, w.handle, w.size))
  {
    hide ValidBut, Written, Overruns;
    StepValid(g, w);
  }

  // ----- a write through a cursor that is on a node

  lemma SegmentsOfSlash()
    ensures Segments("/") == [""] && Leaf("/") == "" && ValidName("", true)
  {
    assert Collapse("/") == "/" && Trim("/") == "" && Split("") == [""];
  }

  /** The root is opened for reading and writing: the handle stands at its first child. */
  lemma RootHandle(e: Disk)
    requires HasX(e, false)
    ensures var op := Open("/", ReadWrite, true, 3);
      !Breaks(e, op) && Step(e, op).Going? && forall size :: size > 0 ==> Overruns(Step(e, op).disk, Write(2, size))
  {
    var op := Open("/", ReadWrite, true, 3);
    KeySets(e, NULL);
    OpenStep(e, op);
    SegmentsOfSlash();
    FirstChild(e);
    hide ValidBut, Segments, Leaf, FreeSlot, Fathers, FathersBelow, UniqueNames, From;
    LookupResolves(e, [""], 3);
    assert [""][1..] == [];
    assert OpenPlan(e, "/", ReadWrite, true) == Existing(1, ROOT);
  }

  lemma FirstChild(e: Disk)
    requires Valid(e) && Resolve(e, ["x"]) != NULL
    ensures ROOT in e.mem && e.mem[ROOT].son != NULL
  {
    KeySets(e, NULL);
    ResolveOne(e, "x");
    assert Parent(e.mem, e.kids, ROOT);
    FamilyFacts(e, NULL, ROOT);
  }

  /** Three calls from set-up: a file is made, the root is opened for reading and writing, and written to. */
  lemma OverrunRun(size: nat)
    requires size > 0
    ensures var two := [Open("/x", WriteOnly, false, 2)] + [Open("/", ReadWrite, true, 3)];
      !EverBreaks(SetUp(), two) && Overruns(FreshRun(two), Write(2, size))
  {
    FreshValid();
    hide ValidBut, Opened, UniqueNames, Step, Run, Fresh, Fathers, FathersBelow, Breaks, EverBreaks, Overruns;
    var d, one, two := Fresh(), Open("/x", WriteOnly, false, 2), Open("/", ReadWrite, true, 3);
    FirstX(d, false);
    var e := Step(d, one).disk;
    RootHandle(e);
    RunOne(e, two);
    RunCons(d, one, [two]);
  }
}
