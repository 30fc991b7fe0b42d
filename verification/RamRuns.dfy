/** Runs of calls on the RAM disk: the invariant over every run, and the completeness of directory scans. */
module RamRuns {
  import opened RamTree
  import opened RamHandles
  import opened RamSpec
  import opened RamNames
  import opened RamOps
  import opened RamTheorems

  datatype Op =
    | Open(fn: string, access: Access, dir: bool, addr: Ptr)
    | Close(fd: nat)
    | Unlink(path: string)
    | ReadDir(handle: nat)
    | Write(handle: nat, size: nat)
    | Seek(handle: nat, to: nat)

  predicate MayWrite(d: Disk, fd: nat) {
    InUse(d, fd) && fd <= |d.fh| && d.fh[fd - 1].write && d.fh[fd - 1].node in d.mem
  }

  /** What write makes of the tree and the handles. It checks only that the handle may write, so the node has the
      size of a file afterwards, whatever it was before, and the word that the cursor was in is a position. */
  function Written(d: Disk, fd: nat, size: nat): Disk {
    if MayWrite(d, fd) && size > 0 then Overwrite(d, fd - 1, Word(d.fh[fd - 1].cursor) + size) else d
  }

  predicate MaySeek(d: Disk, fd: nat) {
    InUse(d, fd) && fd <= |d.fh| && !d.fh[fd - 1].dir && d.fh[fd - 1].node in d.mem && !d.mem[d.fh[fd - 1].node].dir
  }

  /** A write through a directory handle whose cursor is on a node takes the address of the node for a position. */
  predicate Overruns(d: Disk, op: Op) {
    op.Write? && MayWrite(d, op.handle) && op.size > 0
    && d.fh[op.handle - 1].cursor.Entry? && d.fh[op.handle - 1].cursor.p != NULL
  }

  /** What a call comes to: a disk, or storage that has been written over. */
  datatype Ending = Going(disk: Disk) | Wild

  /** One call. The allocator never answers with an address that is in use. */
  function Step(d: Disk, op: Op): Ending
    requires Valid(d)
  {
    match op
    case Open(fn, a, dir, addr) => Going(if addr in d.mem then d else Opened(d, fn, a, dir, addr))
    case Close(fd) => Going(ClosedDisk(d, fd))
    case Unlink(fn) => Going(UnlinkedDisk(d, fn))
    case ReadDir(fd) => Going(ReadDisk(d, fd))
    case Write(fd, size) => if Overruns(d, op) then Wild else Going(Written(d, fd, size))
    case Seek(fd, to) => Going(if MaySeek(d, fd) then Overwrite(d, fd - 1, to) else d)
  }

  /** What a write leaves: the position is behind what was written, from the start for a directory handle that stands at
      the end, the node is a file, and all else is as it was. */
  lemma WriteLeaves(d: Disk, fd: nat, size: nat)
    requires Valid(d) && 1 <= fd <= 32 == |d.mask| == |d.fh| && d.mask[fd - 1] && d.fh[fd - 1].write && size > 0
    requires !Overruns(d, Write(fd, size))
    ensures d.fh[fd - 1].node in d.mem
    ensures var f, e := d.fh[fd - 1], Written(d, fd, size);
      && |e.fh| == |d.fh| && e.fh == d.fh[fd - 1 := e.fh[fd - 1]]
      && e.fh[fd - 1] == f.(cursor := Pos(size + if f.cursor.Pos? then f.cursor.n else 0))
      && e == d.(mem := d.mem[f.node := d.mem[f.node].(dir := false)], fh := e.fh)
  {
    DropValid(d, fd - 1);
    hide ValidBut;
  }

  /** No other write does anything. */
  lemma WriteNothing(d: Disk, fd: nat, size: nat)
    requires Valid(d)
    requires !(1 <= fd <= 32 == |d.mask| == |d.fh| && d.mask[fd - 1] && d.fh[fd - 1].write && size > 0)
    ensures Step(d, Write(fd, size)) == Going(d)
  {
    KeySets(d, NULL);
    hide ValidBut;
  }

  predicate IsFile(d: Disk, p: Ptr) { p in d.mem && !d.mem[p].dir }

  /** A seek moves the position of a handle on a file, and does nothing to any other. */
  lemma SeekLeaves(d: Disk, fd: nat, to: nat)
    requires Valid(d)
    ensures var e := Step(d, Seek(fd, to));
      if 1 <= fd <= 32 == |d.mask| == |d.fh| && d.mask[fd - 1] && !d.fh[fd - 1].dir && IsFile(d, d.fh[fd - 1].node) then
        e == Going(d.(fh := d.fh[fd - 1 := d.fh[fd - 1].(cursor := Pos(to))]))
      else e == Going(d)
  {
    KeySets(d, NULL);
    if InUse(d, fd) {
      DropValid(d, fd - 1);
      var p := d.fh[fd - 1].node;
      if !d.mem[p].dir { assert d.mem[p := d.mem[p].(dir := false)] == d.mem; }
    }
    hide ValidBut;
  }

  // ----- what is safe, and what is not

  ghost predicate NodeSafe(d: Disk, p: Ptr)
    requires p in d.mem
  {
    && d.mem[p].open == Opens(d.fh, p)
    && (d.mem[p].unlinked ==> d.mem[p].open > 0 && d.mem[p].son == NULL)
    && (p != ROOT ==> d.mem[p].father in d.mem)
    && (d.mem[p].big == NULL || d.mem[p].big in d.mem)
    && (d.mem[p].little == NULL || d.mem[p].little in d.mem)
    && (d.mem[p].son == NULL || d.mem[p].son in d.mem)
  }

  /** Counts match the handles, what is marked is held and has no children, and nothing points to released storage. */
  ghost predicate Safe(d: Disk) {
    && |d.fh| == |d.mask| == MAX_RD_FILES
    && (forall p :: p in d.mem ==> NodeSafe(d, p))
    && (forall i :: 0 <= i < MAX_RD_FILES ==> CursorOk(d.mem, d.fh[i].cursor) && (d.mask[i] ==> d.fh[i].node in d.mem))
  }

  ghost predicate SafeEnd(e: Ending) { e.Going? && Safe(e.disk) }

  /** A call writes over a node, or marks one that has children. */
  predicate Breaks(d: Disk, op: Op) { Overruns(d, op) || (op.Unlink? && MarksFather(d, op.path)) }

  lemma StepValid(d: Disk, op: Op)
    requires Valid(d) && !Breaks(d, op)
    ensures Step(d, op).Going? && Valid(Step(d, op).disk)
  {
    hide ValidBut, Opened, ClosedDisk, UnlinkedDisk, ReadDisk, Overwrite, MarksFather;
    match op
    case Open(fn, a, dir, addr) => if addr !in d.mem { OpenedValid(d, fn, a, dir, addr); }
    case Close(fd) => ClosedValid(d, fd);
    case Unlink(fn) => UnlinkedValid(d, fn);
    case ReadDir(fd) => ReadValid(d, fd);
    case Write(fd, size) =>
      if MayWrite(d, fd) && size > 0 {
        KeySets(d, NULL);
        OverwriteValid(d, fd - 1, Word(d.fh[fd - 1].cursor) + size);
      }
    case Seek(fd, to) =>
      if MaySeek(d, fd) {
        KeySets(d, NULL);
        OverwriteValid(d, fd - 1, to);
      }
  }

  lemma NodesSafe(d: Disk, p: Ptr)
    requires Valid(d) && p in d.mem
    ensures NodeSafe(d, p)
  {
    assert CountOk(d.mem, d.fh, p) && Parent(d.mem, d.kids, p);
    FamilyFacts(d, NULL, p);
    if p != ROOT {
      PlaceFacts(d, NULL, p);
      var f, i := d.mem[p].father, Place(d, p);
      FamilyFacts(d, NULL, f);
      assert ChildLinked(d.mem, d.kids, d.rank, f, i);
    }
  }

  lemma SlotSafe(d: Disk, i: nat)
    requires Valid(d) && i < MAX_RD_FILES
    ensures i < |d.fh| == |d.mask| && CursorOk(d.mem, d.fh[i].cursor) && (d.mask[i] ==> d.fh[i].node in d.mem)
  {
    assert HandleOk(d.mem, d.kids, d.fh[i], d.mask[i]);
  }

  lemma ValidSafe(d: Disk)
    requires Valid(d)
    ensures Safe(d)
  {
    KeySets(d, NULL);
    hide ValidBut, NodeSafe, CursorOk;
    forall p | p in d.mem ensures NodeSafe(d, p) { NodesSafe(d, p); }
    forall i: nat | i < MAX_RD_FILES ensures CursorOk(d.mem, d.fh[i].cursor) && (d.mask[i] ==> d.fh[i].node in d.mem) {
      SlotSafe(d, i);
    }
  }

  /** A call leaves all safe exactly if it does not break it. */
  lemma StepSafeIff(d: Disk, op: Op)
    requires Valid(d)
    ensures SafeEnd(Step(d, op)) <==> !Breaks(d, op)
  {
    if Breaks(d, op) {
      if op.Unlink? {
        var p := UnlinkTarget(d, op.path);
        assert !NodeSafe(UnlinkedDisk(d, op.path), p);
      }
    } else {
      hide ValidBut, Step, Breaks, Safe;
      StepValid(d, op);
      ValidSafe(Step(d, op).disk);
    }
  }

  lemma SafeStepValid(d: Disk, op: Op)
    requires Valid(d) && SafeEnd(Step(d, op))
    ensures Valid(Step(d, op).disk)
  {
    hide ValidBut, Step, Breaks, Safe;
    StepSafeIff(d, op);
    StepValid(d, op);
  }

  /** Every call of a run leaves all safe. */
  ghost predicate AlwaysSafe(d: Disk, ops: seq<Op>)
    requires Valid(d)
    decreases |ops|
  {
    hide ValidBut, Step, Safe;
    ops != [] ==>
      SafeEnd(Step(d, ops[0])) && (SafeStepValid(d, ops[0]); AlwaysSafe(Step(d, ops[0]).disk, ops[1..]))
  }

  /** Some call of a run breaks it. */
  ghost predicate EverBreaks(d: Disk, ops: seq<Op>)
    requires Valid(d)
    decreases |ops|
  {
    hide ValidBut, Step, Breaks;
    ops != [] && (Breaks(d, ops[0]) || (StepValid(d, ops[0]); EverBreaks(Step(d, ops[0]).disk, ops[1..])))
  }

  /** A run is safe throughout exactly if none of its calls writes to a directory handle whose cursor is on a node, nor
      unlinks a file that is open and has children. */
  lemma {:induction false} RunSafeIff(d: Disk, ops: seq<Op>)
    requires Valid(d)
    ensures AlwaysSafe(d, ops) <==> !EverBreaks(d, ops)
    decreases |ops|
  {
    hide ValidBut, Step, Breaks, Safe;
    if ops != [] {
      StepSafeIff(d, ops[0]);
      if !Breaks(d, ops[0]) {
        StepValid(d, ops[0]);
        RunSafeIff(Step(d, ops[0]).disk, ops[1..]);
      }
    }
  }

  /** The disk after a run that breaks nothing. */
  ghost function Run(d: Disk, ops: seq<Op>): (e: Disk)
    requires Valid(d) && !EverBreaks(d, ops)
    ensures Valid(e)
    decreases |ops|
  {
    hide ValidBut, Step, Breaks;
    if ops == [] then d else
    StepValid(d, ops[0]);
    Run(Step(d, ops[0]).disk, ops[1..])
  }

  /** The disk as it is set up: a root directory and no open handle. */
  function Fresh(): Disk {
    Disk(map[ROOT := Node(NULL, NULL, NULL, NULL, "", true, 0, false, 0)], map[ROOT := []], map[ROOT := 0],
         seq(MAX_RD_FILES, i => OpenFile(NULL, false, false, false, Pos(0))), seq(MAX_RD_FILES, i => false),
         seq(MAX_RD_FILES, i => Scan({}, [])), 1)
  }

  lemma FreshValid()
    ensures Valid(Fresh()) && UniqueNames(Fresh()) && Fathers(Fresh())
  {
    var d := Fresh();
    FreshParts(d);
    FreshHandles(d);
    hide Tree, Handles, Scans, Opens;
  }

  lemma FreshParts(d: Disk)
    requires d == Fresh()
    ensures Tree(d.mem, d.kids, d.rank) && Scans(d.mem, d.kids, d.fh, d.mask, d.scans, d.created)
  {
    hide ScanOk;
  }

  lemma FreshHandles(d: Disk)
    requires d == Fresh()
    ensures Handles(d.mem, d.kids, d.fh, d.mask)
  {
    hide Opens;
    OpensNone(d.fh, ROOT);
  }

  ghost function SetUp(): (d: Disk)
    ensures Valid(d) && UniqueNames(d) && Fathers(d) && d == Fresh()
  {
    FreshValid();
    Fresh()
  }

  /** A run from set-up. */
  ghost function FreshRun(ops: seq<Op>): (e: Disk)
    requires !EverBreaks(SetUp(), ops)
    ensures Valid(e)
  {
    Run(SetUp(), ops)
  }

  /** From set-up all is safe after a run that breaks nothing, and in it a close never meets a marked node with
      children. */
  lemma RunSafe(ops: seq<Op>)
    requires !EverBreaks(SetUp(), ops)
    ensures Safe(FreshRun(ops)) && AlwaysSafe(SetUp(), ops)
  {
    hide ValidBut, FreshRun, Safe;
    RunSafeIff(SetUp(), ops);
    ValidSafe(FreshRun(ops));
  }

  // ----- names

  /** A write that makes a file of the root, or of a directory that has children. */
  predicate Orphans(d: Disk, op: Op) {
    op.Write? && MayWrite(d, op.handle) && op.size > 0
    && d.mem[d.fh[op.handle - 1].node].dir
    && (d.fh[op.handle - 1].node == ROOT || KidsOf(d.kids, d.fh[op.handle - 1].node) != [])
  }

  /** Without writes a disk on which only directories have children stays one, and nothing breaks it. */
  lemma StepFathers(d: Disk, op: Op)
    requires Valid(d) && FathersBelow(d) && !op.Write?
    ensures !Breaks(d, op) && Step(d, op).Going? && FathersBelow(Step(d, op).disk)
    ensures Fathers(d) ==> Fathers(Step(d, op).disk)
  {
    hide ValidBut, Opened, ClosedDisk, UnlinkedDisk, UnlinkTarget, FathersBelow, Fathers, ReadDisk, Overwrite;
    match op
    case Open(fn, a, dir, addr) => if addr !in d.mem { OpenedFathers(d, fn, a, dir, addr); }
    case Close(fd) => ClosedFathers(d, fd);
    case Unlink(fn) =>
      UnlinkedFathers(d, fn);
      MarksNone(d, fn);
    case ReadDir(fd) => ReadFathers(d, fd);
    case Seek(fd, to) => if MaySeek(d, fd) { SeekFathers(d, fd, to); }
  }

  lemma MarksNone(d: Disk, fn: string)
    requires Valid(d) && FathersBelow(d)
    ensures !MarksFather(d, fn)
  {
    hide ValidBut, UnlinkTarget;
    KeySets(d, NULL);
    UnlinkFacts(d, fn);
  }

  lemma ReadFathers(d: Disk, fd: nat)
    requires Valid(d)
    ensures (FathersBelow(d) ==> FathersBelow(ReadDisk(d, fd))) && (Fathers(d) ==> Fathers(ReadDisk(d, fd)))
  {
    hide ValidBut, FathersBelow, Fathers;
    SameKindsFathers(d, ReadDisk(d, fd));
  }

  lemma SeekFathers(d: Disk, fd: nat, to: nat)
    requires MaySeek(d, fd)
    ensures var e := Overwrite(d, fd - 1, to); (FathersBelow(d) ==> FathersBelow(e)) && (Fathers(d) ==> Fathers(e))
  {
    hide FathersBelow, Fathers;
    SameKindsFathers(d, Overwrite(d, fd - 1, to));
  }

  lemma WriteFathers(d: Disk, fd: nat, size: nat)
    requires Valid(d) && Fathers(d)
    ensures Fathers(Written(d, fd, size)) <==> !Orphans(d, Write(fd, size))
  {
    hide ValidBut;
    if MayWrite(d, fd) && size > 0 {
      var p, e := d.fh[fd - 1].node, Written(d, fd, size);
      if Orphans(d, Write(fd, size)) { assert !e.mem[p].dir && KidsOf(e.kids, p) == KidsOf(d.kids, p); }
    }
  }

  /** A call that is no write to a cursor on a node breaks nothing, and leaves only directories with children exactly if
      it does not make a file of one that has some, or of the root. */
  lemma FathersIff(d: Disk, op: Op)
    requires Valid(d) && Fathers(d) && !Overruns(d, op)
    ensures !Breaks(d, op) && Step(d, op).Going? && (Fathers(Step(d, op).disk) <==> !Orphans(d, op))
  {
    if op.Write? {
      hide ValidBut, Fathers, Written;
      WriteFathers(d, op.handle, op.size);
    } else {
      hide ValidBut, Fathers, FathersBelow, Step, Breaks;
      assert FathersBelow(d) by { BelowToo(d); }
      StepFathers(d, op);
    }
  }

  lemma BelowToo(d: Disk)
    requires Fathers(d)
    ensures FathersBelow(d)
  {
  }

  predicate Gentle(d: Disk, op: Op) { !Overruns(d, op) && !Orphans(d, op) }

  lemma GentleStep(d: Disk, op: Op)
    requires Valid(d) && Fathers(d) && Gentle(d, op)
    ensures !Breaks(d, op) && Step(d, op).Going? && Valid(Step(d, op).disk) && Fathers(Step(d, op).disk)
  {
    hide ValidBut, Fathers, Step, Breaks, Overruns, Orphans;
    FathersIff(d, op);
    StepValid(d, op);
  }

  /** A run in which every write is to a regular file, or to a directory without children that its handle does not stand
      in. */
  ghost predicate Tame(d: Disk, ops: seq<Op>)
    requires Valid(d) && Fathers(d)
    decreases |ops|
  {
    hide ValidBut, Fathers, Step, Gentle;
    ops != [] ==> Gentle(d, ops[0]) && (GentleStep(d, ops[0]); Tame(Step(d, ops[0]).disk, ops[1..]))
  }

  lemma {:induction false} TameSafe(d: Disk, ops: seq<Op>)
    requires Valid(d) && Fathers(d) && Tame(d, ops)
    ensures !EverBreaks(d, ops) && Fathers(Run(d, ops))
    decreases |ops|
  {
    hide ValidBut, Fathers, Step, Gentle, Breaks;
    if ops != [] {
      GentleStep(d, ops[0]);
      TameSafe(Step(d, ops[0]).disk, ops[1..]);
    }
  }

  predicate LeadsWithSlash(op: Op) { op.Open? ==> op.fn == "" || op.fn[0] == '/' }

  lemma StepUnique(d: Disk, op: Op)
    requires Valid(d) && Fathers(d) && UniqueNames(d) && LeadsWithSlash(op) && Step(d, op).Going?
    ensures UniqueNames(Step(d, op).disk)
  {
    hide ValidBut, Opened, UnlinkedDisk, ClosedDisk, UniqueNames, OpenPlan, Segments, Fathers;
    match op
    case Open(fn, a, dir, addr) =>
      if addr == NULL {
        NothingCreated(d, fn, a, dir);
      } else if addr !in d.mem {
        LeadingSlash(fn);
        OpenedUnique(d, fn, a, dir, addr);
      }
    case Close(fd) => ClosedNames(d, fd, []);
    case Unlink(fn) => UnlinkedNames(d, fn, []);
    case ReadDir(fd) => SameNamesResolve(d, ReadDisk(d, fd), []);
    case Write(fd, size) => SameNamesResolve(d, Written(d, fd, size), []);
    case Seek(fd, to) => if MaySeek(d, fd) { SameNamesResolve(d, Overwrite(d, fd - 1, to), []); }
  }

  lemma NothingCreated(d: Disk, fn: string, a: Access, dir: bool)
    requires Valid(d)
    ensures NULL !in d.mem
    ensures UniqueNames(Opened(d, fn, a, dir, NULL)) <==> UniqueNames(d)
  {
    KeySets(d, NULL);
    if OpenPlan(d, fn, a, dir).Existing? { OpenedExistingNames(d, fn, a, dir, NULL, []); }
  }

  /** Over every tame run whose opens lead with a slash, names of brothers stay unique. */
  lemma {:induction false} RunUnique(d: Disk, ops: seq<Op>)
    requires Valid(d) && Fathers(d) && UniqueNames(d) && Tame(d, ops)
    requires forall k :: 0 <= k < |ops| ==> LeadsWithSlash(ops[k])
    ensures !EverBreaks(d, ops) && UniqueNames(Run(d, ops))
    decreases |ops|
  {
    hide ValidBut, Fathers, Step, UniqueNames, Gentle, Breaks;
    if ops != [] {
      GentleStep(d, ops[0]);
      StepUnique(d, ops[0]);
      RunUnique(Step(d, ops[0]).disk, ops[1..]);
    }
  }

  // ----- directory scans

  predicate ClosesSlot(op: Op, i: nat) { op.Close? && op.fd == i + 1 }

  /** What a call leaves of the scan of a slot that it does not close. */
  ghost predicate ScanKept(d: Disk, e: Disk, i: nat) {
    && i < |d.fh| == |d.mask| == |d.scans| && i < |e.fh| == |e.mask| == |e.scans|
    && e.mask[i] && e.fh[i].node == d.fh[i].node && e.fh[i].read == d.fh[i].read && e.fh[i].dir == d.fh[i].dir
    && e.scans[i].initial == d.scans[i].initial
    && d.scans[i].returned <= e.scans[i].returned
  }

  lemma StepKeepsScan(d: Disk, op: Op, i: nat)
    requires Valid(d) && i < MAX_RD_FILES && d.mask[i] && !ClosesSlot(op, i) && Step(d, op).Going?
    ensures ScanKept(d, Step(d, op).disk, i)
  {
    hide Tree, Handles, Serials, Waiting, ScanHandle;
    KeySets(d, NULL);
    match op
    case Open(fn, a, dir, addr) =>
      if addr !in d.mem { OpenKeepsScan(d, fn, a, dir, addr, i); }
    case Close(fd) => CloseKeepsScan(d, fd, i);
    case Unlink(fn) => UnlinkKeepsScan(d, fn, i);
    case _ =>
  }

  lemma OpenKeepsScan(d: Disk, fn: string, a: Access, dir: bool, addr: Ptr, i: nat)
    requires Valid(d) && i < MAX_RD_FILES && d.mask[i] && addr !in d.mem
    ensures ScanKept(d, Opened(d, fn, a, dir, addr), i) && Opened(d, fn, a, dir, addr).fh[i] == d.fh[i]
  {
    KeySets(d, NULL);
    hide ValidBut, Created, OpenPlan, Segments, Leaf, Lookup;
    match OpenPlan(d, fn, a, dir)
    case Refuse =>
    case Existing(j, p) => PlanSlot(d, fn, a, dir);
    case Create(j, f) =>
      if addr != NULL {
        PlanSlot(d, fn, a, dir);
        OpenedIsCreated(d, fn, a, dir, addr);
        CreatedKeepsScan(d, j, f, addr, Leaf(fn), a, dir, i);
      }
  }

  lemma CreatedKeepsScan(d: Disk, j: nat, f: Ptr, addr: Ptr, name: string, a: Access, dir: bool, i: nat)
    requires Valid(d) && j < MAX_RD_FILES && i < MAX_RD_FILES && d.mask[i] && !d.mask[j] && addr !in d.mem
    requires addr != NULL
    requires f in d.mem && !d.mem[f].unlinked
    ensures ScanKept(d, Created(d, j, f, addr, name, a, dir), i)
    ensures Created(d, j, f, addr, name, a, dir).fh[i] == d.fh[i]
  {
    hide ValidBut, Hook, Hooked;
    KeySets(d, NULL);
    HookNames(d, f, addr, NewNode(d, name, dir));
    HookedFields(d, f, addr, NewNode(d, name, dir));
  }

  lemma PlanSlot(d: Disk, fn: string, a: Access, dir: bool)
    requires Valid(d)
    ensures match OpenPlan(d, fn, a, dir)
            case Refuse => true
            case Existing(j, p) => j < MAX_RD_FILES && !d.mask[j] && p in d.mem
            case Create(j, f) => j < MAX_RD_FILES && !d.mask[j]
  {
  }

  lemma CloseKeepsScan(d: Disk, fd: nat, i: nat)
    requires Valid(d) && i < MAX_RD_FILES && d.mask[i] && fd != i + 1
    ensures ScanKept(d, ClosedDisk(d, fd), i)
  {
    hide Tree, Handles, Serials, Waiting, ScanHandle, Detached;
    KeySets(d, NULL);
    if InUse(d, fd) {
      DropValid(d, fd - 1);
      GoingFacts(d, fd);
      var p, e := d.fh[fd - 1].node, Drop(d, fd - 1);
      if e.mem[p].unlinked && e.mem[p].open == 0 { RemoveValid(e, p); }
    }
  }

  lemma UnlinkKeepsScan(d: Disk, fn: string, i: nat)
    requires Valid(d) && i < MAX_RD_FILES && d.mask[i]
    ensures ScanKept(d, UnlinkedDisk(d, fn), i)
  {
    hide Tree, Handles, Serials, Waiting, ScanHandle, Detached, UnlinkTarget;
    KeySets(d, NULL);
    UnlinkFacts(d, fn);
    if UnlinkTarget(d, fn) != NULL { PlaceFacts(d, NULL, UnlinkTarget(d, fn)); }
  }

  lemma {:induction false} RunKeepsScan(d: Disk, ops: seq<Op>, i: nat)
    requires Valid(d) && i < MAX_RD_FILES && d.mask[i]
    requires !EverBreaks(d, ops) && forall k :: 0 <= k < |ops| ==> !ClosesSlot(ops[k], i)
    ensures ScanKept(d, Run(d, ops), i)
    decreases |ops|
  {
    KeySets(d, NULL);
    hide ValidBut, Step, Breaks;
    if ops != [] {
      StepValid(d, ops[0]);
      StepKeepsScan(d, ops[0], i);
      RunKeepsScan(Step(d, ops[0]).disk, ops[1..], i);
    }
  }

  /** A scan that was begun by opening directory p for reading in slot i, followed by any calls that do not close it
      and leave p a directory, has returned, when readdir finds nothing more, every child that was there at the start
      and is still there and not marked; and it has returned no child twice. */
  lemma ScanComplete(d: Disk, i: nat, p: Ptr, a: Access, ops: seq<Op>, was: Ptr, q: Ptr)
    requires Valid(d) && i < MAX_RD_FILES && !d.mask[i] && d.fh[i].node == NULL
    requires p in d.mem && d.mem[p].dir && Reads(a)
    requires Valid(OpenNode(d, i, p, a, true)) && !EverBreaks(OpenNode(d, i, p, a, true), ops)
    requires forall k :: 0 <= k < |ops| ==> !ClosesSlot(ops[k], i)
    requires var e := Run(OpenNode(d, i, p, a, true), ops);
      ReadsDir(e, i + 1) && ReadEntry(e, i + 1) == NULL && q in e.mem && e.mem[q].father == p && !e.mem[q].unlinked
    requires was in d.mem && d.mem[was].father == p && !d.mem[was].unlinked
    requires Run(OpenNode(d, i, p, a, true), ops).mem[q].serial == d.mem[was].serial
    ensures var e := Run(OpenNode(d, i, p, a, true), ops);
      e.mem[q].serial in e.scans[i].returned
      && forall j, k :: 0 <= j < k < |e.scans[i].returned| ==> e.scans[i].returned[j] != e.scans[i].returned[k]
  {
    KeySets(d, NULL);
    hide Run;
    var s := OpenNode(d, i, p, a, true);
    KeySets(s, NULL);
    RunKeepsScan(s, ops, i);
    var e := Run(s, ops);
    assert e.mem[q].serial in e.scans[i].initial;
    AtEnd(e, i, p, q);
  }

  /** At the end of a directory, everything of the scan lies behind the cursor or is marked. */
  lemma AtEnd(e: Disk, i: nat, p: Ptr, q: Ptr)
    requires Valid(e) && i < MAX_RD_FILES && ReadsDir(e, i + 1) && e.fh[i].node == p && ReadEntry(e, i + 1) == NULL
    requires q in e.mem && q != ROOT && e.mem[q].father == p && !e.mem[q].unlinked
    requires e.mem[q].serial in e.scans[i].initial
    ensures e.mem[q].serial in e.scans[i].returned
    ensures forall j, k :: 0 <= j < k < |e.scans[i].returned| ==> e.scans[i].returned[j] != e.scans[i].returned[k]
  {
    assert HandleOk(e.mem, e.kids, e.fh[i], e.mask[i]);
    assert ScanHandle(e.mem, e.kids, e.fh[i], e.mask[i], e.scans[i], e.created);
    FamilyFacts(e, NULL, p);
    PlaceFacts(e, NULL, q);
    var k, n := Listed(e, i + 1), ReadIndex(e, i + 1);
    var o := Place(e, q);
    assert n == |k|;
    assert k[o] == q && ChildScanned(e.mem[k[o]], o < Behind(k, e.fh[i].cursor.p), e.scans[i]);
  }
}
