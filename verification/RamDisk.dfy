/** The RAM disk as the code runs it: links, counts and handles are assigned one by one. */
module RamDiskClass {
  import opened RamTree
  import opened RamHandles
  import opened RamSpec
  import opened RamNames
  import opened RamOps
  import opened RamTheorems
  import opened RamRuns

  class RamDisk {
    var mem: Mem
    var fh: seq<OpenFile>
    var mask: seq<bool>
    var created: nat
    ghost var kids: Kids
    ghost var rank: map<Ptr, nat>
    ghost var scans: seq<Scan>

    ghost function State(): Disk
      reads this
    {
      Disk(mem, kids, rank, fh, mask, scans, created)
    }

    constructor ()
      ensures Valid(State()) && State() == Fresh()
    {
      FreshValid();
      var d := Fresh();
      mem, fh, mask, created := d.mem, d.fh, d.mask, d.created;
      kids, rank, scans := d.kids, d.rank, d.scans;
    }

    /** The brothers of a node, itself included. */
    ghost function Family(node: Ptr): seq<Ptr>
      reads this
    {
      if node !in mem then [] else if node == ROOT then [ROOT] else KidsOf(kids, mem[node].father)
    }

    lemma FamilyOf(node: Ptr) returns (i: nat)
      requires Valid(State()) && node in mem
      ensures i < |Family(node)| && Family(node)[i] == node && Brothers(mem, Family(node))
    {
      if node == ROOT {
        i := 0;
      } else {
        PlaceFacts(State(), NULL, node);
        i := Place(State(), node);
        var f := mem[node].father;
        forall j | 0 <= j < |kids[f]| ensures Brother(mem, kids[f], j) {
          assert ChildLinked(mem, kids, rank, f, j);
        }
      }
    }

    method YoungestBros(node: Ptr) returns (r: Ptr)
      requires Valid(State()) && (node == NULL || node in mem)
      ensures r == Last(Family(node))
    {
      if node == NULL {
        assert NULL !in mem;
        return NULL;
      }
      ghost var i: nat := FamilyOf(node);
      hide ValidBut;
      ghost var k := Family(node);
      r := node;
      assert Brother(mem, k, i);
      while mem[r].little != NULL
        invariant i < |k| && r == k[i] && Brother(mem, k, i)
        decreases |k| - i
      {
        NextBrother(mem, k, i);
        r := mem[r].little;
        i := i + 1;
        assert Brother(mem, k, i);
      }
      LastBrother(mem, k, i);
    }

    /** Search a level for a name, from any node of the level. */
    method FindNodeSameLevel(first: Ptr, name: string, what: int) returns (r: Ptr)
      requires Valid(State()) && (first == NULL || first in mem)
      ensures r == Filter(mem, FindChild(mem, Family(first), name), what)
    {
      assert NULL !in mem;
      if first == NULL {
        return NULL;
      }
      ghost var i: nat := FamilyOf(first);
      hide ValidBut, Family;
      ghost var k := Family(first);
      var node := first;
      assert Brother(mem, k, i);
      while mem[node].big != NULL
        invariant i < |k| && node == k[i] && Brother(mem, k, i)
        decreases i
      {
        node := mem[node].big;
        i := i - 1;
        assert Brother(mem, k, i);
      }
      FirstBrother(mem, k, i);
      while node != NULL
        invariant 0 <= i <= |k| && node == First(k[i..])
        invariant FindChild(mem, k, name) == FindChild(mem, k[i..], name)
        decreases |k| - i
      {
        NoNull(mem, k, i);
        assert Brother(mem, k, i) && k[i..][1..] == k[i + 1..];
        if !mem[node].unlinked && name == mem[node].name {
          return if what == 3 || (what == 2 && mem[node].dir) || (what == 1 && !mem[node].dir) then node else NULL;
        }
        NextBrother(mem, k, i);
        node := mem[node].little;
        i := i + 1;
      }
      NoNull(mem, k, i);
      return NULL;
    }

    /** Search a path, one level after the other. */
    method FindNode(node: Ptr, segs: seq<string>, what: int) returns (r: Ptr)
      requires Valid(State()) && (node == NULL || node in mem) && segs != []
      ensures r == Walk(mem, kids, Family(node), segs, what)
      decreases |segs|
    {
      if node == NULL {
        WalkNothing(mem, kids, segs, what);
        return NULL;
      }
      if |segs| == 1 {
        r := FindNodeSameLevel(node, segs[0], what);
        return;
      }
      var n := FindNodeSameLevel(node, segs[0], 2);
      if n == NULL {
        return NULL;
      }
      SonFamily(n);
      r := FindNode(mem[n].son, segs[1..], what);
    }

    lemma SonFamily(n: Ptr)
      requires Valid(State()) && n in mem
      ensures mem[n].son == NULL || mem[n].son in mem
      ensures Family(mem[n].son) == KidsOf(kids, n)
    {
      assert Parent(mem, kids, n);
      FamilyFacts(State(), NULL, n);
    }

    /** Link a new node in as the youngest child of a directory. */
    method AttachNode(father: Ptr, node: Ptr, n: Node)
      requires Valid(State()) && father in mem && !mem[father].unlinked
      requires node !in mem && node != NULL && FreshNode(State(), n)
      modifies this
      ensures old(father in kids && father in rank && (Last(kids[father]) != NULL ==> Last(kids[father]) in mem))
      ensures Valid(State()) && State() == Hook(old(State()), father, node, n)
    {
      hide ValidBut, Family, Hook;
      ghost var d := State();
      HookValid(d, father, node, n);
      SonFamily(father);
      KeySets(d, NULL);
      HookParts(d, father, node, n);
      var last := YoungestBros(mem[father].son);
      mem := mem[node := n.(father := father, little := NULL, big := last)];
      if last != NULL {
        mem := mem[last := mem[last].(little := node)];
      } else {
        mem := mem[father := mem[father].(son := node)];
      }
      kids := kids[father := kids[father] + [node]][node := []];
      rank, created := rank[node := rank[father] + 1], created + 1;
      assert mem == Attached(d.mem, father, last, node, n);
    }

    /** Move cursors off a node and unhook it. The cursor of a directory and the position in a file are in one word,
        which is compared as it is. */
    method DetachNode(node: Ptr)
      requires node in mem && |fh| == MAX_RD_FILES
      modifies this`mem, this`fh
      ensures mem == Detached(old(mem), node)
      ensures fh == MoveAll(old(fh), node, old(mem[node].little))
    {
      for i := 0 to MAX_RD_FILES
        invariant |fh| == MAX_RD_FILES && mem == old(mem)
        invariant forall j :: 0 <= j < MAX_RD_FILES ==>
          fh[j] == if j < i then old(fh)[j].(cursor := Moved(old(fh)[j].cursor, node, mem[node].little)) else old(fh)[j]
      {
        if Word(fh[i].cursor) == node {
          var little := mem[node].little;
          fh := fh[i := fh[i].(cursor := if fh[i].cursor.Entry? then Entry(little) else Pos(little))];
        }
      }
      var n := mem[node];
      if n.father in mem && mem[n.father].son == node {
        mem := mem[n.father := mem[n.father].(son := n.little)];
      }
      if n.big in mem {
        mem := mem[n.big := mem[n.big].(little := n.little)];
      }
      if n.little in mem {
        mem := mem[n.little := mem[n.little].(big := n.big)];
      }
    }

    /** Detach a node and release its storage, unless it has children. */
    method ReallyUnlink(node: Ptr)
      requires ValidBut(State(), node) && node in mem && node != ROOT && mem[node].open == 0
      modifies this
      ensures State() == RamOps.ReallyUnlink(old(State()), node)
      ensures old(node in kids && kids[node] == []) ==> Valid(State())
    {
      hide ValidBut, Detached, Remove, Place;
      ghost var d := State();
      PlaceFacts(d, node, node);
      KeySets(d, node);
      SonOrNot(d, node);
      if mem[node].son != NULL {
        return;
      }
      RemoveValid(d, node);
      RemoveParts(d, node);
      ghost var f, i := mem[node].father, Place(d, node);
      DetachNode(node);
      mem := mem - {node};
      kids, rank := kids[f := Without(kids[f], i)] - {node}, rank - {node};
    }

    method GetOpenFile() returns (i: nat)
      requires Valid(State())
      ensures i == FreeSlot(State(), 0)
    {
      KeySets(State(), NULL);
      hide ValidBut;
      i := 0;
      while i < MAX_RD_FILES
        invariant i <= MAX_RD_FILES && FreeSlot(State(), 0) == FreeSlot(State(), i)
      {
        if !mask[i] && fh[i].node == NULL {
          return;
        }
        i := i + 1;
      }
    }

    /** The searches of open, once the name, the mode and a slot are good. */
    method PlanNode(i: nat, segs: seq<string>, leaf: string, a: Access, dir: bool, ghost fn: string)
      returns (plan: Plan)
      requires Valid(State()) && |fh| == |mask| == MAX_RD_FILES && i == FreeSlot(State(), 0) < MAX_RD_FILES
      requires segs == Segments(fn) && segs != [] && leaf == Leaf(fn) && ValidName(leaf, true) && !a.Unknown?
      requires dir || (leaf != "" && !EndSlash(Collapse(fn)))
      ensures plan == OpenPlan(State(), fn, a, dir)
    {
      ghost var d := State();
      KeySets(d, NULL);
      LookupIn(d, segs, 3);
      hide ValidBut, Collapse, FreeSlot, Walk, Split, Segments, Leaf, ValidName, EndSlash;
      var node := FindNode(ROOT, segs, 3);
      if node != NULL {
        return if mem[node].dir != dir || (dir && Writes(a) && !Reads(a)) then Refuse else Existing(i, node);
      }
      if !Writes(a) {
        return Refuse;
      }
      var father := ROOT;
      if |segs| > 1 {
        father := FindNode(ROOT, segs[..|segs| - 1], 2);
      }
      return if father == NULL || !ValidName(leaf, false) then Refuse else Create(i, father);
    }

    /** All the checks of open, and the searches. */
    method PlanOpen(fn: string, a: Access, dir: bool) returns (plan: Plan)
      requires Valid(State())
      ensures |fh| == |mask| == MAX_RD_FILES && plan == OpenPlan(State(), fn, a, dir)
    {
      KeySets(State(), NULL);
      hide ValidBut, Collapse, FreeSlot, Split, ValidName, EndSlash, Lookup, FatherFor;
      var segs := Segments(fn);
      var leaf := segs[|segs| - 1];
      if !ValidName(leaf, true) || a.Unknown? || (!dir && (leaf == "" || EndSlash(Collapse(fn)))) {
        return Refuse;
      }
      var i := GetOpenFile();
      if i == MAX_RD_FILES {
        return Refuse;
      }
      plan := PlanNode(i, segs, leaf, a, dir, fn);
    }

    /** Open a file or directory, creating it when asked to; addr is what the allocator will answer. */
    method Open(fn: string, a: Access, dir: bool, addr: Ptr) returns (fd: nat)
      requires Valid(State()) && addr !in mem
      modifies this
      ensures Valid(State()) && State() == Opened(old(State()), fn, a, dir, addr)
      ensures old(|fh| == |mask| == MAX_RD_FILES) && fd == Descriptor(old(State()), fn, a, dir, addr)
    {
      ghost var d := State();
      hide ValidBut, OpenPlan, OpenNode, Hook, Segments, Leaf;
      OpenedValid(d, fn, a, dir, addr);
      KeySets(d, NULL);
      var plan := PlanOpen(fn, a, dir);
      PlanSlot(d, fn, a, dir);
      match plan
      case Refuse => return 0;
      case Existing(i, node) =>
        Take(i, node, a, dir);
        return i + 1;
      case Create(i, father) =>
        if addr == NULL {
          return 0;
        }
        OpenedIsCreated(d, fn, a, dir, addr);
        OpenNew(i, father, addr, Leaf(fn), a, dir);
        return i + 1;
    }

    /** Create a node, attach it and put a handle on it. */
    method OpenNew(i: nat, father: Ptr, addr: Ptr, name: string, a: Access, dir: bool)
      requires Valid(State()) && i < MAX_RD_FILES && addr !in mem && addr != NULL
      requires father in mem && !mem[father].unlinked
      modifies this
      ensures State() == Created(old(State()), i, father, addr, name, a, dir)
    {
      ghost var d := State();
      hide ValidBut, OpenNode, Hook;
      var n := Node(NULL, NULL, NULL, NULL, name, dir, 0, false, created);
      HookedSlot(d, father, addr, n, i);
      AttachNode(father, addr, n);
      Take(i, addr, a, dir);
    }

    /** Put a handle on a node. */
    method Take(i: nat, node: Ptr, a: Access, dir: bool)
      requires i < |fh| == |mask| == |scans| && node in mem
      modifies this
      ensures State() == OpenNode(old(State()), i, node, a, dir)
    {
      ghost var s := NewScan(State(), node);
      var son := mem[node].son;
      mem := mem[node := mem[node].(open := mem[node].open + 1)];
      var cursor := if dir then Entry(if Reads(a) then son else NULL) else Pos(0);
      fh := fh[i := OpenFile(node, Reads(a), Writes(a), dir, cursor)];
      mask := mask[i := true];
      scans := scans[i := s];
    }

    /** Take a handle off its node. */
    method Release(i: nat)
      requires i < |fh| == |mask| && fh[i].node in mem && mem[fh[i].node].open > 0
      modifies this
      ensures State() == Drop(old(State()), i)
    {
      var node := fh[i].node;
      mem := mem[node := mem[node].(open := mem[node].open - 1)];
      fh := fh[i := Closed(fh[i])];
      mask := mask[i := false];
    }

    /** Close a handle; the last close of a marked node removes it.
        Calls are atomic, so it does not matter that the slot is cleared before the node goes. */
    method Close(fd: nat)
      requires Valid(State())
      modifies this
      ensures Valid(State()) && State() == ClosedDisk(old(State()), fd)
    {
      ghost var d := State();
      hide ValidBut, Remove, Drop, ClosedDisk, RamOps.ReallyUnlink;
      KeySets(d, NULL);
      ClosedValid(d, fd);
      ClosedParts(d, fd);
      if fd == 0 || fd > MAX_RD_FILES || !mask[fd - 1] {
        return;
      }
      var node := fh[fd - 1].node;
      Release(fd - 1);
      if mem[node].unlinked && mem[node].open == 0 {
        ReallyUnlink(node);
      }
    }

    /** Unlink a file or an empty directory, at once or at its last close. */
    method Unlink(fn: string) returns (err: int)
      requires Valid(State())
      modifies this
      ensures State() == UnlinkedDisk(old(State()), fn)
      ensures Valid(State()) || old(MarksFather(State(), fn))
      ensures err == if UnlinkTarget(old(State()), fn) == NULL then -1 else 0
    {
      ghost var d := State();
      hide ValidBut, Remove, Walk, UnlinkTarget, UnlinkedDisk, MarksFather, RamOps.ReallyUnlink;
      KeySets(d, NULL);
      if !MarksFather(d, fn) { UnlinkedValid(d, fn); }
      UnlinkedParts(d, fn);
      var node := FindTarget(fn);
      if node == NULL {
        return -1;
      }
      if mem[node].open > 0 {
        mem := mem[node := mem[node].(unlinked := true)];
      } else {
        ValidGoing(d, node);
        ReallyUnlink(node);
        assert State() == RamOps.ReallyUnlink(d, node);
      }
      return 0;
    }

    method FindTarget(fn: string) returns (node: Ptr)
      requires Valid(State())
      ensures node == UnlinkTarget(State(), fn)
    {
      ghost var d := State();
      KeySets(d, NULL);
      var segs := Segments(fn);
      LookupIn(d, segs, 2);
      LookupIn(d, segs, 3);
      hide ValidBut, Collapse, Walk, Split;
      if !ValidName(segs[|segs| - 1], false) {
        return NULL;
      }
      node := FindNode(ROOT, segs, if EndSlash(Collapse(fn)) then 2 else 3);
      if node != NULL && mem[node].dir && mem[node].son != NULL {
        return NULL;
      }
    }

    /** The next entry of a directory, skipping what is to be unlinked. */
    method Readdir(fd: nat) returns (e: Ptr)
      requires Valid(State())
      modifies this
      ensures Valid(State()) && State() == ReadDisk(old(State()), fd) && e == ReadEntry(old(State()), fd)
    {
      ghost var d := State();
      hide ValidBut, ReadIndex, Listed, NextLive, ReadDisk, ReadEntry;
      ReadValid(d, fd);
      KeySets(d, NULL);
      HeldNode(d, fd);
      if fd == 0 || fd > MAX_RD_FILES || !mask[fd - 1] || !fh[fd - 1].read || !fh[fd - 1].dir
        || !mem[fh[fd - 1].node].dir
      {
        NothingRead(d, fd);
        return NULL;
      }
      var i := fd - 1;
      CursorPlace(d, fd);
      ghost var k := Listed(d, fd);
      ghost var j: nat := Behind(k, fh[i].cursor.p);
      var rd := fh[i].cursor.p;
      ListedLinks(d, fd, j);
      while rd != NULL && mem[rd].unlinked
        invariant State() == d && 0 <= j <= |k| && rd == First(k[j..])
        invariant rd == NULL <==> j == |k|
        invariant j < |k| ==> rd == k[j] && rd in mem && mem[rd].little == First(k[j + 1..])
        invariant ReadIndex(d, fd) == NextLive(mem, k, j)
        decreases |k| - j
      {
        SkipOne(mem, k, j);
        rd := mem[rd].little;
        j := j + 1;
        ListedLinks(d, fd, j);
      }
      ScanEnd(mem, k, j, rd);
      ReadParts(d, fd);
      e := rd;
      if rd != NULL {
        scans := scans[i := scans[i].(returned := scans[i].returned + [mem[rd].serial])];
        rd := mem[rd].little;
      }
      fh := fh[i := fh[i].(cursor := Entry(rd))];
    }

    /** What a write does besides copying: it checks only that the handle may write. */
    method Write(fd: nat, size: nat)
      requires Valid(State()) && !Overruns(State(), Op.Write(fd, size))
      modifies this`mem, this`fh
      ensures Valid(State()) && State() == Written(old(State()), fd, size)
    {
      ghost var d := State();
      KeySets(d, NULL);
      HeldNode(d, fd);
      WrittenValid(d, fd, size);
      hide ValidBut, Overruns, Word;
      if fd == 0 || fd > MAX_RD_FILES || !mask[fd - 1] || !fh[fd - 1].write || size == 0 {
        return;
      }
      var i, node := fd - 1, fh[fd - 1].node;
      fh := fh[i := fh[i].(cursor := Pos(Word(fh[i].cursor) + size))];
      mem := mem[node := mem[node].(dir := false)];
    }
  }

  lemma WrittenValid(d: Disk, fd: nat, size: nat)
    requires Valid(d) && !Overruns(d, Op.Write(fd, size))
    ensures Valid(Written(d, fd, size))
  {
    hide ValidBut, Written, Overruns;
    StepValid(d, Op.Write(fd, size));
  }

  lemma HeldNode(d: Disk, fd: nat)
    requires Valid(d)
    ensures InUse(d, fd) ==> fd <= |d.fh| && d.fh[fd - 1].node in d.mem
  {
    KeySets(d, NULL);
    if InUse(d, fd) { DropValid(d, fd - 1); }
  }

  lemma NothingRead(d: Disk, fd: nat)
    requires Valid(d) && !ReadsDir(d, fd)
    ensures ReadDisk(d, fd) == d && ReadEntry(d, fd) == NULL
  {
  }

  lemma SkipOne(mem: Mem, k: seq<Ptr>, j: nat)
    requires j < |k| && k[j] in mem && mem[k[j]].unlinked
    ensures NextLive(mem, k, j) == NextLive(mem, k, j + 1)
  {
  }

  lemma ScanEnd(mem: Mem, k: seq<Ptr>, j: nat, rd: Ptr)
    requires j <= |k| && rd == First(k[j..]) && (rd == NULL ==> j == |k|)
    requires (rd != NULL ==> rd in mem && !mem[rd].unlinked)
    ensures NextLive(mem, k, j) == j
  {
  }

  /** Reading in terms of the entry that is next. */
  lemma ReadParts(d: Disk, fd: nat)
    requires Valid(d) && ReadsDir(d, fd)
    ensures |d.scans| == |d.fh| == MAX_RD_FILES
    ensures var i, k, n := fd - 1, Listed(d, fd), ReadIndex(d, fd);
      var rd := First(k[n..]);
      (rd != NULL ==> rd in d.mem)
      && ReadEntry(d, fd) == rd
      && ReadDisk(d, fd) == d.(
        fh := d.fh[i := d.fh[i].(cursor := Entry(if rd == NULL then NULL else d.mem[rd].little))],
        scans := if rd == NULL then d.scans
                 else d.scans[i := d.scans[i].(returned := d.scans[i].returned + [d.mem[rd].serial])])
  {
    KeySets(d, NULL);
    ReadFacts(d, fd);
    ListedLinks(d, fd, ReadIndex(d, fd));
  }

  lemma ClosedParts(d: Disk, fd: nat)
    requires Valid(d)
    ensures !InUse(d, fd) ==> ClosedDisk(d, fd) == d
    ensures InUse(d, fd) ==> |d.fh| == |d.mask| == MAX_RD_FILES && d.fh[fd - 1].node in d.mem
    ensures InUse(d, fd) ==> d.mem[d.fh[fd - 1].node].open > 0
    ensures InUse(d, fd) ==>
      var p, e := d.fh[fd - 1].node, Drop(d, fd - 1);
      p in e.mem && ValidBut(e, p)
      && if e.mem[p].unlinked && e.mem[p].open == 0 then
           p != ROOT && p in e.kids && e.kids[p] == [] && ClosedDisk(d, fd) == ReallyUnlink(e, p)
         else ClosedDisk(d, fd) == e
  {
    hide Tree, Handles, Scans, Serials, Waiting, ReallyUnlink;
    KeySets(d, NULL);
    if InUse(d, fd) {
      DropValid(d, fd - 1);
      GoingFacts(d, fd);
      KeySets(Drop(d, fd - 1), d.fh[fd - 1].node);
    }
  }

  lemma UnlinkedParts(d: Disk, fn: string)
    requires Valid(d)
    ensures var p := UnlinkTarget(d, fn);
      && (p == NULL ==> UnlinkedDisk(d, fn) == d)
      && (p != NULL ==> p in d.mem && p != ROOT)
      && (p != NULL && d.mem[p].open > 0 ==> UnlinkedDisk(d, fn) == Mark(d, p))
      && (p != NULL && d.mem[p].open == 0 ==> UnlinkedDisk(d, fn) == ReallyUnlink(d, p))
  {
    hide Tree, Handles, Scans, Serials, Waiting, ReallyUnlink, UnlinkTarget;
    KeySets(d, NULL);
    UnlinkFacts(d, fn);
  }

  lemma HookedSlot(d: Disk, f: Ptr, c: Ptr, n: Node, i: nat)
    requires Valid(d) && f in d.mem && !d.mem[f].unlinked
    requires c !in d.mem && c != NULL && FreshNode(d, n) && i < MAX_RD_FILES
    ensures f in d.kids && f in d.rank && (Last(d.kids[f]) != NULL ==> Last(d.kids[f]) in d.mem)
    ensures var e := Hook(d, f, c, n); c in e.mem && i < |e.fh| == |e.mask| == |e.scans|
  {
    hide Attached;
    KeySets(d, NULL);
    HookValid(d, f, c, n);
    AttachedNodes(d.mem, f, Last(d.kids[f]), c, n);
  }

  /** A directory handle stands at a child or at the end. */
  lemma CursorPlace(d: Disk, fd: nat)
    requires Valid(d) && ReadsDir(d, fd)
    ensures var f, k := d.fh[fd - 1], Listed(d, fd);
      f.cursor.Entry? && f.cursor.p == First(k[Behind(k, f.cursor.p)..]) && (f.cursor.p != NULL ==> f.cursor.p in d.mem)
      && ReadIndex(d, fd) == NextLive(d.mem, k, Behind(k, f.cursor.p))
  {
    assert HandleOk(d.mem, d.kids, d.fh[fd - 1], d.mask[fd - 1]);
    FamilyFacts(d, NULL, d.fh[fd - 1].node);
  }

  lemma ListedLinks(d: Disk, fd: nat, j: nat)
    requires Valid(d) && ReadsDir(d, fd) && j <= |Listed(d, fd)|
    ensures var k := Listed(d, fd);
      (First(k[j..]) == NULL <==> j == |k|)
      && (j < |k| ==> k[j] in d.mem && d.mem[k[j]].little == First(k[j + 1..]) == Next(k, j) && First(k[j..]) == k[j])
  {
    assert HandleOk(d.mem, d.kids, d.fh[fd - 1], d.mask[fd - 1]);
    FamilyFacts(d, NULL, d.fh[fd - 1].node);
    if j < |Listed(d, fd)| { assert ChildLinked(d.mem, d.kids, d.rank, d.fh[fd - 1].node, j); }
  }

  lemma HookParts(d: Disk, f: Ptr, c: Ptr, n: Node)
    requires f in d.mem && f in d.kids && f in d.rank && (Last(d.kids[f]) != NULL ==> Last(d.kids[f]) in d.mem)
    ensures Hook(d, f, c, n) == Disk(Attached(d.mem, f, Last(d.kids[f]), c, n), d.kids[f := d.kids[f] + [c]][c := []],
                                     d.rank[c := d.rank[f] + 1], d.fh, d.mask, d.scans, d.created + 1)
  {
  }

  lemma RemoveParts(d: Disk, c: Ptr)
    requires c in d.mem && d.mem[c].father in d.kids && Place(d, c) < |d.kids[d.mem[c].father]|
    ensures var f := d.mem[c].father;
      Remove(d, c) == Disk(Detached(d.mem, c) - {c}, d.kids[f := Without(d.kids[f], Place(d, c))] - {c}, d.rank - {c},
                           MoveAll(d.fh, c, d.mem[c].little), d.mask, d.scans, d.created)
  {
  }

  lemma SonOrNot(d: Disk, p: Ptr)
    requires ValidBut(d, p) && p in d.mem
    ensures p in d.kids && (d.mem[p].son == NULL <==> d.kids[p] == [])
  {
    assert Parent(d.mem, d.kids, p);
    FamilyFacts(d, p, p);
  }

  /** Node j of a family points to its neighbours. */
  ghost predicate Brother(mem: Mem, k: seq<Ptr>, j: nat)
    requires j < |k|
  {
    k[j] in mem && k[j] != NULL && mem[k[j]].big == Prev(k, j) && mem[k[j]].little == Next(k, j)
  }

  ghost predicate Brothers(mem: Mem, k: seq<Ptr>) {
    forall j {:trigger Brother(mem, k, j)} :: 0 <= j < |k| ==> Brother(mem, k, j)
  }

  lemma NextBrother(mem: Mem, k: seq<Ptr>, i: nat)
    requires Brothers(mem, k) && i < |k|
    ensures k[i] in mem && mem[k[i]].little == First(k[i + 1..])
    ensures mem[k[i]].little != NULL ==> i + 1 < |k| && mem[k[i]].little == k[i + 1]
  {
    assert Brother(mem, k, i);
  }

  lemma NoNull(mem: Mem, k: seq<Ptr>, i: nat)
    requires Brothers(mem, k) && i <= |k|
    ensures First(k[i..]) != NULL ==> i < |k|
    ensures First(k[i..]) == NULL ==> i == |k| && k[i..] == []
  {
    if i < |k| { assert Brother(mem, k, i); }
  }

  lemma LastBrother(mem: Mem, k: seq<Ptr>, i: nat)
    requires Brothers(mem, k) && i < |k| && k[i] in mem && mem[k[i]].little == NULL
    ensures k[i] == Last(k)
  {
    NextBrother(mem, k, i);
    NoNull(mem, k, i + 1);
  }

  lemma FirstBrother(mem: Mem, k: seq<Ptr>, i: nat)
    requires Brothers(mem, k) && i < |k| && k[i] in mem && mem[k[i]].big == NULL
    ensures i == 0
  {
    if i > 0 { assert Brother(mem, k, i - 1); }
    assert Brother(mem, k, i);
  }

  lemma WalkNothing(mem: Mem, kids: Kids, segs: seq<string>, what: int)
    requires segs != []
    ensures Walk(mem, kids, [], segs, what) == Filter(mem, NULL, what) || |segs| > 1
    ensures NULL !in mem ==> Walk(mem, kids, [], segs, what) == NULL
  {
  }
}
