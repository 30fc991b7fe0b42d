/** What open, close, unlink and readdir make of the disk, and what users of paths, handles and scans can rely on. */
module RamOps {
  import opened Common
  import opened RamTree
  import opened RamHandles
  import opened RamSpec
  import opened RamNames

  /** The room for a name in a directory entry, its terminator included. */
  const NAME_SIZE := 256

  datatype Access = ReadOnly | ReadWrite | WriteOnly | Append | Unknown

  // ----- file names

  /** The name with every run of slashes shortened to one. */
  function Collapse(fn: string): string {
    if |fn| < 2 then fn
    else if fn[0] == '/' && fn[1] == '/' then Collapse(fn[1..])
    else [fn[0]] + Collapse(fn[1..])
  }

  function EndSlash(s: string): bool { s != "" && s[|s| - 1] == '/' }

  function Trim(s: string): string { if EndSlash(s) then s[..|s| - 1] else s }

  function Split(s: string): (r: seq<string>)
    ensures r != []
  {
    if s == "" then [""]
    else if s[0] == '/' then [""] + Split(s[1..])
    else [[s[0]] + Split(s[1..])[0]] + Split(s[1..])[1..]
  }

  /** The names between the slashes; a leading slash makes the first of them empty. */
  function Segments(fn: string): (r: seq<string>)
    ensures r != []
  {
    Split(Trim(Collapse(fn)))
  }

  function Leaf(fn: string): string { Segments(fn)[|Segments(fn)| - 1] }

  predicate ValidName(name: string, acceptRoot: bool) {
    (acceptRoot || name != "") && name != "." && name != ".." && |name| < NAME_SIZE
  }

  /** A path with a leading slash has an empty first segment, and conversely unless it is empty itself. */
  lemma {:induction false} LeadingSlash(fn: string)
    ensures Segments(fn)[0] == "" <==> fn == "" || fn[0] == '/'
  {
    CollapseFirst(fn);
    var s := Collapse(fn);
    if s != "" {
      if |s| > 1 { assert Trim(s)[0] == s[0]; }
    }
  }

  lemma {:induction false} CollapseFirst(fn: string)
    ensures fn == "" <==> Collapse(fn) == ""
    ensures fn != "" ==> Collapse(fn)[0] == fn[0]
    decreases |fn|
  {
    if |fn| >= 2 { CollapseFirst(fn[1..]); }
  }

  // ----- open

  function FreeSlot(d: Disk, from: nat): (i: nat)
    requires |d.fh| == |d.mask| == MAX_RD_FILES && from <= MAX_RD_FILES
    ensures from <= i <= MAX_RD_FILES
    ensures i < MAX_RD_FILES ==> !d.mask[i] && d.fh[i].node == NULL
    decreases MAX_RD_FILES - from
  {
    if from == MAX_RD_FILES then from
    else if !d.mask[from] && d.fh[from].node == NULL then from
    else FreeSlot(d, from + 1)
  }

  predicate Writes(a: Access) { a.ReadWrite? || a.WriteOnly? || a.Append? }

  predicate Reads(a: Access) { a.ReadOnly? || a.ReadWrite? }

  function NewNode(d: Disk, name: string, dir: bool): Node {
    Node(NULL, NULL, NULL, NULL, name, dir, 0, false, d.created)
  }

  function NewHandle(d: Disk, p: Ptr, a: Access, dir: bool): OpenFile
    requires p in d.mem
  {
    OpenFile(p, Reads(a), Writes(a), dir, if dir then Entry(if Reads(a) then d.mem[p].son else NULL) else Pos(0))
  }

  /** A scan that begins now. */
  function NewScan(d: Disk, p: Ptr): Scan
  {
    Scan(set q | q in d.mem && d.mem[q].father == p && !d.mem[q].unlinked :: d.mem[q].serial, [])
  }

  function OpenNode(d: Disk, i: nat, p: Ptr, a: Access, dir: bool): Disk
    requires i < |d.fh| == |d.mask| == |d.scans| && p in d.mem
  {
    Grab(d, i, NewHandle(d, p, a, dir), NewScan(d, p))
  }

  /** The directory that a new node goes to. */
  function FatherFor(d: Disk, segs: seq<string>): Ptr
    requires segs != []
  {
    if |segs| == 1 then ROOT else Lookup(d, segs[..|segs| - 1], 2)
  }

  datatype Plan = Refuse | Existing(slot: nat, node: Ptr) | Create(slot: nat, father: Ptr)

  /** How open decides. */
  function OpenPlan(d: Disk, fn: string, a: Access, dir: bool): Plan
    requires |d.fh| == |d.mask| == MAX_RD_FILES
  {
    var segs, leaf := Segments(fn), Leaf(fn);
    var i := FreeSlot(d, 0);
    if !ValidName(leaf, true) || a.Unknown? || (!dir && (leaf == "" || EndSlash(Collapse(fn))))
       || i == MAX_RD_FILES
    then
      Refuse
    else
      var p := Lookup(d, segs, 3);
      if p != NULL then
        if p !in d.mem || d.mem[p].dir != dir || (dir && Writes(a) && !Reads(a)) then Refuse else Existing(i, p)
      else if !Writes(a) || FatherFor(d, segs) == NULL || !ValidName(leaf, false) then Refuse
      else Create(i, FatherFor(d, segs))
  }

  /** What open returns: a handle's number, or 0. */
  function Descriptor(d: Disk, fn: string, a: Access, dir: bool, addr: Ptr): nat
    requires |d.fh| == |d.mask| == MAX_RD_FILES
  {
    match OpenPlan(d, fn, a, dir)
    case Refuse => 0
    case Existing(i, p) => i + 1
    case Create(i, f) => if addr == NULL then 0 else i + 1
  }

  /** The disk after open; addr is what the allocator answers when a node has to be created, null if nothing is left. */
  function Opened(d: Disk, fn: string, a: Access, dir: bool, addr: Ptr): Disk
    requires Valid(d) && addr !in d.mem
  {
    match OpenPlan(d, fn, a, dir)
    case Refuse => d
    case Existing(i, p) => LookupIn(d, Segments(fn), 3); OpenNode(d, i, p, a, dir)
    case Create(i, f) =>
      if addr == NULL then d else
      CreateFacts(d, fn, a, dir);
      Created(d, i, f, addr, Leaf(fn), a, dir)
  }

  /** A new node is hooked below f and opened. */
  function Created(d: Disk, i: nat, f: Ptr, addr: Ptr, name: string, a: Access, dir: bool): Disk
    requires Valid(d) && i < MAX_RD_FILES && addr !in d.mem && addr != NULL
    requires f in d.mem && !d.mem[f].unlinked
  {
    HookValid(d, f, addr, NewNode(d, name, dir));
    OpenNode(Hook(d, f, addr, NewNode(d, name, dir)), i, addr, a, dir)
  }

  lemma {:induction false} WalkIn(mem: Mem, kids: Kids, k: seq<Ptr>, segs: seq<string>, what: int)
    requires segs != []
    ensures var p := Walk(mem, kids, k, segs, what);
      p != NULL ==> p in mem && !mem[p].unlinked && mem[p].name == segs[|segs| - 1] && (what == 2 ==> mem[p].dir)
    decreases |segs|
  {
    if |segs| > 1 {
      var c := Filter(mem, FindChild(mem, k, segs[0]), 2);
      if c != NULL { WalkIn(mem, kids, KidsOf(kids, c), segs[1..], what); }
    }
  }

  lemma LookupIn(d: Disk, segs: seq<string>, what: int)
    requires segs != []
    ensures var p := Lookup(d, segs, what);
      p != NULL ==> p in d.mem && !d.mem[p].unlinked && d.mem[p].name == segs[|segs| - 1]
                    && (what == 2 ==> d.mem[p].dir)
  {
    WalkIn(d.mem, d.kids, [ROOT], segs, what);
  }

  lemma ResolveLive(d: Disk, path: seq<string>)
    requires Valid(d) && Resolve(d, path) != NULL
    ensures Resolve(d, path) in d.mem && !d.mem[Resolve(d, path)].unlinked
  {
    ResolveParent(d, path);
  }

  lemma CreateFacts(d: Disk, fn: string, a: Access, dir: bool)
    requires Valid(d)
    ensures OpenPlan(d, fn, a, dir).Create? ==>
      var f := OpenPlan(d, fn, a, dir).father; f in d.mem && !d.mem[f].unlinked && (f == ROOT || d.mem[f].dir)
  {
    var segs := Segments(fn);
    if |segs| > 1 { LookupIn(d, segs[..|segs| - 1], 2); }
  }

  lemma OpenNodeValid(d: Disk, i: nat, p: Ptr, a: Access, dir: bool)
    requires Valid(d) && i < MAX_RD_FILES && !d.mask[i] && d.fh[i].node == NULL
    requires p in d.mem && d.mem[p].dir == dir && !a.Unknown?
    ensures Valid(OpenNode(d, i, p, a, dir))
  {
    FamilyFacts(d, NULL, p);
    assert Parent(d.mem, d.kids, p);
    NewScanOk(d, p);
    GrabValid(d, i, NewHandle(d, p, a, dir), NewScan(d, p));
  }

  lemma NewScanOk(d: Disk, p: Ptr)
    requires Valid(d) && p in d.mem
    ensures ScanOk(d.mem, d.kids[p], d.mem[p].son, NewScan(d, p), d.created)
  {
    FamilyFacts(d, NULL, p);
    assert Parent(d.mem, d.kids, p);
  }

  /** Open keeps the invariant, whatever it decides. */
  lemma OpenedValid(d: Disk, fn: string, a: Access, dir: bool, addr: Ptr)
    requires Valid(d) && addr !in d.mem
    ensures Valid(Opened(d, fn, a, dir, addr))
  {
    KeySets(d, NULL);
    hide ValidBut;
    match OpenPlan(d, fn, a, dir)
    case Refuse =>
    case Existing(i, p) =>
      LookupIn(d, Segments(fn), 3);
      OpenNodeValid(d, i, p, a, dir);
    case Create(i, f) =>
      if addr != NULL {
        CreateFacts(d, fn, a, dir);
        CreatedValid(d, i, f, addr, Leaf(fn), a, dir);
      }
  }

  lemma CreatedValid(d: Disk, i: nat, f: Ptr, addr: Ptr, name: string, a: Access, dir: bool)
    requires Valid(d) && addr !in d.mem && addr != NULL && f in d.mem && !d.mem[f].unlinked
    requires i < MAX_RD_FILES && !d.mask[i] && d.fh[i].node == NULL && !a.Unknown?
    ensures Valid(Created(d, i, f, addr, name, a, dir))
  {
    hide ValidBut, Attached;
    KeySets(d, NULL);
    var n := NewNode(d, name, dir);
    HookValid(d, f, addr, n);
    AttachedNodes(d.mem, f, Last(d.kids[f]), addr, n);
    OpenNodeValid(Hook(d, f, addr, n), i, addr, a, dir);
  }

  // ----- close

  predicate InUse(d: Disk, fd: nat) { 0 < fd <= MAX_RD_FILES && fd <= |d.mask| && d.mask[fd - 1] }

  /** A node without children is removed; the code refuses one with children. */
  function ReallyUnlink(d: Disk, p: Ptr): Disk
    requires p in d.mem
  {
    if d.mem[p].son == NULL && d.mem[p].father in d.kids && Place(d, p) < |d.kids[d.mem[p].father]| then Remove(d, p)
    else d
  }

  /** The disk after close: the last handle on a marked node takes the node with it. */
  function ClosedDisk(d: Disk, fd: nat): Disk {
    if !InUse(d, fd) || |d.fh| != |d.mask| || d.fh[fd - 1].node !in d.mem || d.mem[d.fh[fd - 1].node].open == 0 then d
    else
      var p := d.fh[fd - 1].node;
      var e := Drop(d, fd - 1);
      if e.mem[p].unlinked && e.mem[p].open == 0 then ReallyUnlink(e, p) else e
  }

  /** A marked node is not the root and has no children. */
  lemma GoingFacts(d: Disk, fd: nat)
    requires Valid(d) && InUse(d, fd)
    ensures var p := d.fh[fd - 1].node;
      p in d.mem && (d.mem[p].unlinked ==> p != ROOT && d.kids[p] == [] && d.mem[p].son == NULL)
  {
    assert HandleOk(d.mem, d.kids, d.fh[fd - 1], d.mask[fd - 1]);
    assert Parent(d.mem, d.kids, d.fh[fd - 1].node);
  }

  lemma ClosedValid(d: Disk, fd: nat)
    requires Valid(d)
    ensures Valid(ClosedDisk(d, fd))
  {
    hide Tree, Handles, Scans, Serials;
    if InUse(d, fd) {
      KeySets(d, NULL);
      DropValid(d, fd - 1);
      var p := d.fh[fd - 1].node;
      var e := Drop(d, fd - 1);
      if e.mem[p].unlinked && e.mem[p].open == 0 {
        GoingFacts(d, fd);
        RemoveValid(e, p);
      }
    }
  }

  // ----- unlink

  /** The node that unlink removes or marks, or null. */
  function UnlinkTarget(d: Disk, fn: string): Ptr {
    if !ValidName(Leaf(fn), false) then NULL
    else
      var p := Lookup(d, Segments(fn), if EndSlash(Collapse(fn)) then 2 else 3);
      if p in d.mem && d.mem[p].dir && d.mem[p].son != NULL then NULL else p
  }

  lemma UnlinkFacts(d: Disk, fn: string)
    requires Valid(d)
    ensures var p := UnlinkTarget(d, fn);
      p != NULL ==> p in d.mem && p != ROOT && !d.mem[p].unlinked && Segments(fn)[0] == "" && |Segments(fn)| > 1
                    && (d.mem[p].son == NULL <==> d.kids[p] == []) && (d.mem[p].son != NULL ==> !d.mem[p].dir)
                    && (FathersBelow(d) ==> d.kids[p] == [])
                    && (Fathers(d) ==> p == Resolve(d, Segments(fn)[1..]))
  {
    var p, segs := UnlinkTarget(d, fn), Segments(fn);
    if p != NULL {
      var what := if EndSlash(Collapse(fn)) then 2 else 3;
      LookupIn(d, segs, what);
      LookupResolves(d, segs, what);
      KeySets(d, NULL);
      FamilyFacts(d, NULL, p);
      assert Parent(d.mem, d.kids, p) && KidsOf(d.kids, p) == d.kids[p];
      hide ValidBut;
      assert Leaf(fn) != "";
    }
  }

  /** An open node is marked, one that is not open is removed. */
  function UnlinkedDisk(d: Disk, fn: string): Disk {
    var p := UnlinkTarget(d, fn);
    if p !in d.mem then d
    else if d.mem[p].open > 0 then Mark(d, p)
    else ReallyUnlink(d, p)
  }

  lemma ValidGoing(d: Disk, p: Ptr)
    requires Valid(d)
    ensures ValidBut(d, p)
  {
  }

  /** Unlink keeps the invariant unless it meets an open node that has children and is no directory. */
  lemma UnlinkedValid(d: Disk, fn: string)
    requires Valid(d) && !MarksFather(d, fn)
    ensures Valid(UnlinkedDisk(d, fn))
  {
    hide Tree, Handles, Scans, Serials;
    var p := UnlinkTarget(d, fn);
    KeySets(d, NULL);
    UnlinkFacts(d, fn);
    if p != NULL {
      PlaceFacts(d, NULL, p);
      if d.mem[p].open > 0 {
        MarkValid(d, p);
      } else if d.mem[p].son == NULL {
        assert ValidBut(d, p) by { ValidGoing(d, p); }
        RemoveValid(d, p);
      }
    }
  }

  /** The check that a directory to be unlinked is empty passes over what is no directory. */
  predicate MarksFather(d: Disk, fn: string) {
    var p := UnlinkTarget(d, fn);
    p in d.mem && d.mem[p].open > 0 && d.mem[p].son != NULL
  }

  // ----- readdir

  predicate ReadsDir(d: Disk, fd: nat) {
    InUse(d, fd) && fd <= |d.fh| && d.fh[fd - 1].read && d.fh[fd - 1].dir
    && d.fh[fd - 1].node in d.mem && d.mem[d.fh[fd - 1].node].dir
  }

  /** The children of the directory that a handle is on. */
  function Listed(d: Disk, fd: nat): seq<Ptr>
    requires 0 < fd <= |d.fh|
  {
    KidsOf(d.kids, d.fh[fd - 1].node)
  }

  /** The first brother from index j on that is not to be unlinked. */
  function NextLive(mem: Mem, k: seq<Ptr>, j: nat): (n: nat)
    requires j <= |k|
    ensures j <= n <= |k|
    ensures forall i :: j <= i < n ==> k[i] in mem && mem[k[i]].unlinked
    ensures n < |k| && k[n] in mem ==> !mem[k[n]].unlinked
    decreases |k| - j
  {
    if j < |k| && k[j] in mem && mem[k[j]].unlinked then NextLive(mem, k, j + 1) else j
  }

  /** The index of the entry that readdir returns; the number of children at the end. */
  function ReadIndex(d: Disk, fd: nat): (n: nat)
    requires Valid(d) && ReadsDir(d, fd)
    ensures n <= |Listed(d, fd)|
  {
    assert HandleOk(d.mem, d.kids, d.fh[fd - 1], d.mask[fd - 1]);
    NextLive(d.mem, Listed(d, fd), Behind(Listed(d, fd), d.fh[fd - 1].cursor.p))
  }

  /** The node whose entry readdir returns, or null. */
  function ReadEntry(d: Disk, fd: nat): Ptr
    requires Valid(d)
  {
    if !ReadsDir(d, fd) then NULL
    else Prev(Listed(d, fd), ReadIndex(d, fd) + 1)
  }

  function ReadDisk(d: Disk, fd: nat): Disk
    requires Valid(d)
  {
    if !ReadsDir(d, fd) then d else
    var i := fd - 1;
    var k, n := Listed(d, fd), ReadIndex(d, fd);
    ReadFacts(d, fd);
    d.(fh := d.fh[i := d.fh[i].(cursor := Entry(Next(k, n)))],
       scans := if n < |k| then d.scans[i := d.scans[i].(returned := d.scans[i].returned + [d.mem[k[n]].serial])]
                else d.scans)
  }

  lemma ReadFacts(d: Disk, fd: nat)
    requires Valid(d) && ReadsDir(d, fd)
    ensures var k, n := Listed(d, fd), ReadIndex(d, fd);
      Distinct(k) && (n < |k| ==> k[n] in d.mem && !d.mem[k[n]].unlinked)
      && (Next(k, n) == NULL || Next(k, n) in k) && Behind(k, Next(k, n)) == if n < |k| then n + 1 else n
  {
    var k, n := Listed(d, fd), ReadIndex(d, fd);
    assert HandleOk(d.mem, d.kids, d.fh[fd - 1], d.mask[fd - 1]);
    FamilyFacts(d, NULL, d.fh[fd - 1].node);
    if n + 1 < |k| { BehindUnique(k, n + 1); }
  }

  /** A step of a scan: what was skipped is to be unlinked, what is returned was not returned before. */
  lemma ScanStep(mem: Mem, k: seq<Ptr>, at: Ptr, s: Scan, created: nat, n: nat, at': Ptr)
    requires ScanOk(mem, k, at, s, created) && Behind(k, at) <= n <= |k|
    requires forall i :: Behind(k, at) <= i < n ==> mem[k[i]].unlinked
    requires forall p, q :: p in mem && q in mem && p != q ==> mem[p].serial != mem[q].serial
    requires Distinct(k) && Behind(k, at') == (if n < |k| then n + 1 else n)
    requires n < |k| ==> mem[k[n]].serial < created
    ensures ScanOk(mem, k, at', if n < |k| then s.(returned := s.returned + [mem[k[n]].serial]) else s, created)
  {
    var s' := if n < |k| then s.(returned := s.returned + [mem[k[n]].serial]) else s;
    forall j {:trigger k[j]} | 0 <= j < |k| ensures k[j] in mem && ChildScanned(mem[k[j]], j < Behind(k, at'), s') {
      assert ChildScanned(mem[k[j]], j < Behind(k, at), s);
      if n < |k| {
        assert j != n ==> k[j] != k[n];
        assert mem[k[n]].serial in s'.returned by { assert s'.returned[|s.returned|] == mem[k[n]].serial; }
      }
    }
    if n < |k| { assert ChildScanned(mem[k[n]], n < Behind(k, at), s); }
  }

  lemma ReadValid(d: Disk, fd: nat)
    requires Valid(d)
    ensures Valid(ReadDisk(d, fd))
  {
    if ReadsDir(d, fd) {
      var i, e := fd - 1, ReadDisk(d, fd);
      var p := d.fh[i].node;
      ReadFacts(d, fd);
      assert HandleOk(d.mem, d.kids, d.fh[i], d.mask[i]);
      assert ScanHandle(d.mem, d.kids, d.fh[i], d.mask[i], d.scans[i], d.created);
      FamilyFacts(d, NULL, p);
      ScanStep(d.mem, d.kids[p], d.fh[i].cursor.p, d.scans[i], d.created, ReadIndex(d, fd), e.fh[i].cursor.p);
      forall q | q in d.mem ensures CountOk(d.mem[p := d.mem[p]], e.fh, q) {
        assert CountOk(d.mem, d.fh, q);
        OpensSameNodes(d.fh, e.fh, q);
      }
      assert d.mem[p := d.mem[p]] == d.mem;
      RecountHandles(d, NULL, p, d.mem[p], e.fh, e.mask, e.scans, i);
    }
  }
}
