/** The RAM disk as a value: what each operation makes of it, and the invariant they all keep. */
module RamSpec {
  import opened Common
  import opened RamTree
  import opened RamHandles

  datatype Disk = Disk(mem: Mem, kids: Kids, rank: map<Ptr, nat>,
                       fh: seq<OpenFile>, mask: seq<bool>, scans: seq<Scan>, created: nat)

  /** Everything that holds between calls; going names a node that is about to be removed, or is null. */
  ghost predicate ValidBut(d: Disk, going: Ptr) {
    && Tree(d.mem, d.kids, d.rank)
    && Handles(d.mem, d.kids, d.fh, d.mask)
    && Waiting(d.mem, going)
    && Serials(d.mem, d.created)
    && Scans(d.mem, d.kids, d.fh, d.mask, d.scans, d.created)
  }

  ghost predicate Valid(d: Disk) { ValidBut(d, NULL) }

  lemma KeySets(d: Disk, going: Ptr)
    requires ValidBut(d, going)
    ensures d.mem.Keys == d.kids.Keys == d.rank.Keys && NULL !in d.mem && ROOT in d.mem
    ensures |d.fh| == |d.mask| == |d.scans| == MAX_RD_FILES
  {
  }

  /** A new node, created at a free address, becomes the youngest child of directory f. */
  function Hook(d: Disk, f: Ptr, c: Ptr, n: Node): Disk
    requires f in d.mem && f in d.kids && f in d.rank && (Last(d.kids[f]) != NULL ==> Last(d.kids[f]) in d.mem)
  {
    d.(mem := Attached(d.mem, f, Last(d.kids[f]), c, n),
       kids := d.kids[f := d.kids[f] + [c]][c := []],
       rank := d.rank[c := d.rank[f] + 1],
       created := d.created + 1)
  }

  predicate FreshNode(d: Disk, n: Node) {
    n.son == NULL && n.open == 0 && !n.unlinked && n.serial == d.created
  }

  lemma HookValid(d: Disk, f: Ptr, c: Ptr, n: Node)
    requires Valid(d) && f in d.mem && !d.mem[f].unlinked
    requires c !in d.mem && c != NULL && FreshNode(d, n)
    ensures Last(d.kids[f]) != NULL ==> Last(d.kids[f]) in d.mem
    ensures Valid(Hook(d, f, c, n))
  {
    hide Attached, Handles, Scans, Tree;
    KeySets(d, NULL);
    TreeAttach(d.mem, d.kids, d.rank, f, c, n);
    var e := Hook(d, f, c, n);
    AttachedNodes(d.mem, f, Last(d.kids[f]), c, n);
    HookHandles(d, f, c, e);
    HookScans(d, f, c, e);
  }

  lemma AttachedNodes(mem: Mem, f: Ptr, last: Ptr, c: Ptr, n: Node)
    requires f in mem && (last != NULL ==> last in mem) && c !in mem
    ensures var mem' := Attached(mem, f, last, c, n);
      mem'.Keys == mem.Keys + {c} && SameNodeBut(n, mem'[c])
      && forall p :: p in mem ==> SameNodeBut(mem[p], mem'[p])
  {
  }

  /** The same node but for links. */
  predicate SameNodeBut(a: Node, b: Node) {
    a.serial == b.serial && a.unlinked == b.unlinked && a.open == b.open && a.dir == b.dir && a.name == b.name
  }

  lemma HookHandles(d: Disk, f: Ptr, c: Ptr, e: Disk)
    requires Valid(d) && c !in d.mem && c != NULL && f in d.mem
    requires e.fh == d.fh && e.mask == d.mask && e.mem.Keys == d.mem.Keys + {c}
    requires e.kids == d.kids[f := d.kids[f] + [c]][c := []]
    requires forall p :: p in d.mem ==> SameNodeBut(d.mem[p], e.mem[p])
    requires e.mem[c].open == 0 && !e.mem[c].unlinked
    ensures Handles(e.mem, e.kids, e.fh, e.mask)
  {
    forall i | 0 <= i < MAX_RD_FILES
      ensures HandleOk(e.mem, e.kids, e.fh[i], e.mask[i]) && e.fh[i].node != c
    {
      assert HandleOk(d.mem, d.kids, d.fh[i], d.mask[i]);
    }
    OpensNone(e.fh, c);
    forall p | p in e.mem ensures CountOk(e.mem, e.fh, p) {
      if p != c { assert CountOk(d.mem, d.fh, p); }
    }
  }

  lemma FamilyFacts(d: Disk, going: Ptr, f: Ptr)
    requires ValidBut(d, going) && f in d.mem
    ensures Distinct(d.kids[f]) && NULL !in d.kids[f] && ROOT !in d.kids[f]
    ensures forall j :: 0 <= j < |d.kids[f]| ==> d.kids[f][j] in d.mem && d.mem[d.kids[f][j]].father == f
  {
    assert Parent(d.mem, d.kids, f);
    forall j | 0 <= j < |d.kids[f]|
      ensures d.kids[f][j] in d.mem && d.kids[f][j] != NULL && d.kids[f][j] != ROOT && d.mem[d.kids[f][j]].father == f
    {
      assert ChildLinked(d.mem, d.kids, d.rank, f, j);
    }
  }

  lemma HookScans(d: Disk, f: Ptr, c: Ptr, e: Disk)
    requires Valid(d) && c !in d.mem && c != NULL && f in d.mem
    requires e.fh == d.fh && e.mask == d.mask && e.scans == d.scans && e.mem.Keys == d.mem.Keys + {c}
    requires e.kids == d.kids[f := d.kids[f] + [c]][c := []] && e.created == d.created + 1
    requires forall p :: p in d.mem ==> SameNodeBut(d.mem[p], e.mem[p])
    requires e.mem[c].serial == d.created
    ensures Scans(e.mem, e.kids, e.fh, e.mask, e.scans, e.created)
  {
    forall i | 0 <= i < MAX_RD_FILES
      ensures ScanHandle(e.mem, e.kids, e.fh[i], e.mask[i], e.scans[i], e.created)
    {
      assert HandleOk(d.mem, d.kids, d.fh[i], d.mask[i]);
      assert ScanHandle(d.mem, d.kids, d.fh[i], d.mask[i], d.scans[i], d.created);
      var g := d.fh[i];
      if d.mask[i] && g.dir && g.read && g.cursor.Entry? {
        FamilyFacts(d, NULL, g.node);
        if g.node == f {
          ScanAttach(d.mem, e.mem, d.kids[f], c, g.cursor.p, d.scans[i], d.created);
        } else {
          ScanSame(d.mem, e.mem, d.kids[g.node], g.cursor.p, d.scans[i], d.created, e.created);
        }
      }
    }
  }

  /** Handle i is opened on node f.node. */
  function Grab(d: Disk, i: nat, f: OpenFile, s: Scan): Disk
    requires i < |d.fh| == |d.mask| == |d.scans| && f.node in d.mem
  {
    d.(mem := d.mem[f.node := d.mem[f.node].(open := d.mem[f.node].open + 1)],
       fh := d.fh[i := f], mask := d.mask[i := true], scans := d.scans[i := s])
  }

  lemma GrabValid(d: Disk, i: nat, f: OpenFile, s: Scan)
    requires Valid(d) && i < MAX_RD_FILES && !d.mask[i] && d.fh[i].node == NULL
    requires f.node in d.mem && HandleOk(d.mem, d.kids, f, true)
    requires ScanHandle(d.mem, d.kids, f, true, s, d.created)
    ensures Valid(Grab(d, i, f, s))
  {
    var e := Grab(d, i, f, s);
    var p := f.node;
    RecountTree(d, NULL, p, e.mem[p]);
    forall q | q in e.mem ensures CountOk(e.mem, e.fh, q) {
      assert CountOk(d.mem, d.fh, q);
      OpensUpdate(d.fh, i, f, q);
    }
    RecountHandles(d, NULL, p, e.mem[p], e.fh, e.mask, e.scans, i);
  }

  lemma RecountTree(d: Disk, going: Ptr, p: Ptr, n: Node)
    requires ValidBut(d, going) && p in d.mem && SameLinks(d.mem[p], n) && n.unlinked == d.mem[p].unlinked
    ensures Tree(d.mem[p := n], d.kids, d.rank)
  {
    assert Parent(d.mem, d.kids, p);
    TreeRemark(d.mem, d.kids, d.rank, p, n);
  }

  /** One handle changes, and one node changes its count or is marked: the others stay as good as they were. */
  lemma RecountHandles(d: Disk, going: Ptr, p: Ptr, n: Node, fh: seq<OpenFile>, mask: seq<bool>, scans: seq<Scan>,
                       i: nat)
    requires ValidBut(d, going) && p in d.mem && SameLinks(d.mem[p], n)
    requires (d.mem[p].unlinked ==> n.unlinked) && (n.dir ==> d.mem[p].dir)
    requires |fh| == |mask| == |scans| == MAX_RD_FILES && i < MAX_RD_FILES
    requires forall j :: 0 <= j < MAX_RD_FILES && j != i ==>
      fh[j] == d.fh[j] && mask[j] == d.mask[j] && scans[j] == d.scans[j]
    requires HandleOk(d.mem, d.kids, fh[i], mask[i]) && ScanHandle(d.mem, d.kids, fh[i], mask[i], scans[i], d.created)
    requires forall q :: q in d.mem ==> CountOk(d.mem[p := n], fh, q)
    ensures Handles(d.mem[p := n], d.kids, fh, mask)
    ensures Scans(d.mem[p := n], d.kids, fh, mask, scans, d.created)
    ensures Serials(d.mem[p := n], d.created)
  {
    var mem' := d.mem[p := n];
    forall j: nat | j < MAX_RD_FILES
      ensures HandleOk(mem', d.kids, fh[j], mask[j]) && ScanHandle(mem', d.kids, fh[j], mask[j], scans[j], d.created)
    {
      if j != i {
        assert HandleOk(d.mem, d.kids, d.fh[j], d.mask[j]);
        assert ScanHandle(d.mem, d.kids, d.fh[j], d.mask[j], d.scans[j], d.created);
      }
      RecountHandle(d, going, p, n, fh[j], mask[j], scans[j]);
    }
    hide HandleOk, ScanHandle, Tree;
  }

  lemma RecountHandle(d: Disk, going: Ptr, p: Ptr, n: Node, f: OpenFile, used: bool, s: Scan)
    requires ValidBut(d, going) && p in d.mem && SameLinks(d.mem[p], n)
    requires (d.mem[p].unlinked ==> n.unlinked) && (n.dir ==> d.mem[p].dir)
    requires HandleOk(d.mem, d.kids, f, used) && ScanHandle(d.mem, d.kids, f, used, s, d.created)
    ensures HandleOk(d.mem[p := n], d.kids, f, used) && ScanHandle(d.mem[p := n], d.kids, f, used, s, d.created)
  {
    if used && f.dir && f.read && f.cursor.Entry? {
      FamilyFacts(d, going, f.node);
      ScanSame(d.mem, d.mem[p := n], d.kids[f.node], f.cursor.p, s, d.created, d.created);
    }
    hide Tree, Handles, Scans, Serials, Waiting;
  }

  /** Handle i is closed; its cursor keeps its last value. */
  function Closed(f: OpenFile): OpenFile { f.(node := NULL, read := false, write := false, dir := false) }

  function Drop(d: Disk, i: nat): Disk
    requires i < |d.fh| == |d.mask| && d.fh[i].node in d.mem && d.mem[d.fh[i].node].open > 0
  {
    var p := d.fh[i].node;
    d.(mem := d.mem[p := d.mem[p].(open := d.mem[p].open - 1)],
       fh := d.fh[i := Closed(d.fh[i])], mask := d.mask[i := false])
  }

  lemma DropValid(d: Disk, i: nat)
    requires Valid(d) && i < MAX_RD_FILES && d.mask[i]
    ensures d.fh[i].node in d.mem && d.mem[d.fh[i].node].open > 0
    ensures ValidBut(Drop(d, i), d.fh[i].node)
    ensures var p, e := d.fh[i].node, Drop(d, i);
      !d.mem[p].unlinked || d.mem[p].open > 1 ==> Valid(e)
  {
    assert HandleOk(d.mem, d.kids, d.fh[i], d.mask[i]);
    var p := d.fh[i].node;
    assert CountOk(d.mem, d.fh, p);
    OpensPositive(d.fh, i);
    var e := Drop(d, i);
    RecountTree(d, NULL, p, e.mem[p]);
    forall q | q in e.mem ensures CountOk(e.mem, e.fh, q) {
      assert CountOk(d.mem, d.fh, q);
      OpensUpdate(d.fh, i, Closed(d.fh[i]), q);
    }
    RecountHandles(d, NULL, p, e.mem[p], e.fh, e.mask, e.scans, i);
  }

  /** What a write leaves of the tree and the handle: the node has the size of a file, and the position is behind
      what was written. */
  function Overwrite(d: Disk, i: nat, pos: nat): Disk
    requires i < |d.fh| && d.fh[i].node in d.mem
  {
    var p := d.fh[i].node;
    d.(mem := d.mem[p := d.mem[p].(dir := false)], fh := d.fh[i := d.fh[i].(cursor := Pos(pos))])
  }

  lemma OverwriteValid(d: Disk, i: nat, pos: nat)
    requires Valid(d) && i < MAX_RD_FILES && d.mask[i]
    ensures d.fh[i].node in d.mem && Valid(Overwrite(d, i, pos))
  {
    OverwriteCounts(d, i, pos);
    RecountTree(d, NULL, d.fh[i].node, Overwrite(d, i, pos).mem[d.fh[i].node]);
    OverwriteHandles(d, i, pos);
    hide Tree, Handles, Scans, Serials;
  }

  lemma OverwriteCounts(d: Disk, i: nat, pos: nat)
    requires Valid(d) && i < MAX_RD_FILES && d.mask[i]
    ensures d.fh[i].node in d.mem
    ensures forall q :: q in d.mem ==> CountOk(Overwrite(d, i, pos).mem, Overwrite(d, i, pos).fh, q)
  {
    assert HandleOk(d.mem, d.kids, d.fh[i], d.mask[i]);
    var e := Overwrite(d, i, pos);
    forall q | q in e.mem ensures CountOk(e.mem, e.fh, q) {
      assert CountOk(d.mem, d.fh, q);
      OpensUpdate(d.fh, i, e.fh[i], q);
    }
  }

  lemma OverwriteHandles(d: Disk, i: nat, pos: nat)
    requires Valid(d) && i < MAX_RD_FILES && d.mask[i] && d.fh[i].node in d.mem
    requires forall q :: q in d.mem ==> CountOk(Overwrite(d, i, pos).mem, Overwrite(d, i, pos).fh, q)
    ensures var e := Overwrite(d, i, pos);
      Handles(e.mem, e.kids, e.fh, e.mask) && Scans(e.mem, e.kids, e.fh, e.mask, e.scans, e.created)
      && Serials(e.mem, e.created)
  {
    var e := Overwrite(d, i, pos);
    forall j | 0 <= j < MAX_RD_FILES
      ensures HandleOk(e.mem, e.kids, e.fh[j], e.mask[j])
      ensures ScanHandle(e.mem, e.kids, e.fh[j], e.mask[j], e.scans[j], e.created)
    {
      assert HandleOk(d.mem, d.kids, d.fh[j], d.mask[j]);
      assert ScanHandle(d.mem, d.kids, d.fh[j], d.mask[j], d.scans[j], d.created);
      var g := d.fh[j];
      if d.mask[j] && g.dir && g.read && g.cursor.Entry? {
        FamilyFacts(d, NULL, g.node);
        ScanSame(d.mem, e.mem, d.kids[g.node], g.cursor.p, d.scans[j], d.created, d.created);
      }
    }
  }

  /** An open node without children is marked for unlinking. */
  function Mark(d: Disk, p: Ptr): Disk
    requires p in d.mem
  {
    d.(mem := d.mem[p := d.mem[p].(unlinked := true)])
  }

  lemma MarkValid(d: Disk, p: Ptr)
    requires Valid(d) && p in d.mem && p != ROOT && d.kids[p] == [] && d.mem[p].open > 0
    ensures Valid(Mark(d, p))
  {
    var e := Mark(d, p);
    TreeRemark(d.mem, d.kids, d.rank, p, e.mem[p]);
    forall q | q in e.mem ensures CountOk(e.mem, e.fh, q) {
      assert CountOk(d.mem, d.fh, q);
    }
    assert HandleOk(d.mem, d.kids, d.fh[0], d.mask[0]);
    assert ScanHandle(d.mem, d.kids, d.fh[0], d.mask[0], d.scans[0], d.created);
    RecountHandles(d, NULL, p, e.mem[p], e.fh, e.mask, e.scans, 0);
  }

  /** The index of a node among its brothers. */
  function Place(d: Disk, c: Ptr): nat
    requires c in d.mem && d.mem[c].father in d.kids
  {
    Behind(d.kids[d.mem[c].father], c)
  }

  function MoveAll(fh: seq<OpenFile>, gone: Ptr, next: Ptr): (r: seq<OpenFile>)
    ensures |r| == |fh|
  {
    seq(|fh|, i requires 0 <= i < |fh| => fh[i].(cursor := Moved(fh[i].cursor, gone, next)))
  }

  /** A closed node without children is unhooked, cursors on it move to its younger brother, its storage is released. */
  function Remove(d: Disk, c: Ptr): Disk
    requires c in d.mem && d.mem[c].father in d.kids && Place(d, c) < |d.kids[d.mem[c].father]|
  {
    var f := d.mem[c].father;
    d.(mem := Detached(d.mem, c) - {c},
       kids := d.kids[f := Without(d.kids[f], Place(d, c))] - {c},
       rank := d.rank - {c},
       fh := MoveAll(d.fh, c, d.mem[c].little))
  }

  lemma PlaceFacts(d: Disk, going: Ptr, c: Ptr)
    requires ValidBut(d, going) && c in d.mem && c != ROOT
    ensures var f := d.mem[c].father;
      f in d.mem && f != c && Place(d, c) < |d.kids[f]| && d.kids[f][Place(d, c)] == c
      && d.mem[c].little == Next(d.kids[f], Place(d, c))
  {
    assert Placed(d.mem, d.kids, c);
    var f := d.mem[c].father;
    assert ChildLinked(d.mem, d.kids, d.rank, f, Place(d, c));
  }

  lemma RemoveValid(d: Disk, c: Ptr)
    requires ValidBut(d, c) && c in d.mem && c != ROOT && d.kids[c] == [] && d.mem[c].open == 0
    ensures d.mem[c].father in d.kids && Place(d, c) < |d.kids[d.mem[c].father]|
    ensures Valid(Remove(d, c))
  {
    PlaceFacts(d, c, c);
    var f, i := d.mem[c].father, Place(d, c);
    var e := Remove(d, c);
    RemoveTree(d, c, f, i, e);
    hide Tree, Detached, Handles, Scans, Waiting, Serials;
    assert Removed(d, c, f, i, e);
    RemoveHandles(d, c, f, i, e);
    RemoveScans(d, c, f, i, e);
    RemoveMarks(d, c, f, i, e);
  }

  lemma RemoveMarks(d: Disk, c: Ptr, f: Ptr, i: nat, e: Disk)
    requires Removed(d, c, f, i, e)
    ensures Waiting(e.mem, NULL) && Serials(e.mem, e.created)
  {
    hide Tree, Handles, Scans;
  }

  lemma RemoveTree(d: Disk, c: Ptr, f: Ptr, i: nat, e: Disk)
    requires Tree(d.mem, d.kids, d.rank) && f in d.mem && i < |d.kids[f]| && d.kids[f][i] == c && c in d.mem
    requires d.kids[c] == []
    requires e.mem == Detached(d.mem, c) - {c} && e.kids == d.kids[f := Without(d.kids[f], i)] - {c}
    requires e.rank == d.rank - {c}
    ensures Tree(e.mem, e.kids, e.rank)
    ensures e.mem.Keys == d.mem.Keys - {c}
    ensures forall q :: q in e.mem ==> SameNodeBut(d.mem[q], e.mem[q])
  {
    TreeDetach(d.mem, d.kids, d.rank, f, i);
    forall q | q in e.mem ensures SameNodeBut(d.mem[q], e.mem[q]) {
      DetachedFields(d.mem, d.kids, d.rank, f, i, q);
    }
    DetachedFields(d.mem, d.kids, d.rank, f, i, c);
  }

  /** Node c, child i of f, is gone from e, and cursors have moved. */
  ghost predicate Removed(d: Disk, c: Ptr, f: Ptr, i: nat, e: Disk) {
    && ValidBut(d, c) && c in d.mem && c != ROOT && d.kids[c] == [] && d.mem[c].open == 0
    && f == d.mem[c].father && f in d.mem && i < |d.kids[f]| && d.kids[f][i] == c
    && d.mem[c].little == Next(d.kids[f], i)
    && e.mem.Keys == d.mem.Keys - {c} && e.kids == d.kids[f := Without(d.kids[f], i)] - {c}
    && (forall q :: q in e.mem ==> SameNodeBut(d.mem[q], e.mem[q]))
    && e.fh == MoveAll(d.fh, c, d.mem[c].little) && e.mask == d.mask && e.scans == d.scans && e.created == d.created
  }

  /** No handle is on a closed node. */
  lemma NotHeld(d: Disk, c: Ptr, j: nat)
    requires ValidBut(d, c) && c in d.mem && d.mem[c].open == 0 && j < MAX_RD_FILES
    ensures d.fh[j].node != c
  {
    assert CountOk(d.mem, d.fh, c);
    OpensPositive(d.fh, j);
  }

  lemma RemoveHandle(d: Disk, c: Ptr, f: Ptr, i: nat, e: Disk, j: nat)
    requires Removed(d, c, f, i, e) && j < MAX_RD_FILES
    ensures HandleOk(e.mem, e.kids, e.fh[j], e.mask[j])
  {
    hide Tree, Scans, Serials, Opens, Waiting, Without;
    KeySets(d, c);
    var g := d.fh[j];
    assert HandleOk(d.mem, d.kids, g, d.mask[j]);
    FamilyFacts(d, c, f);
    NotHeld(d, c, j);
    assert i + 1 < |d.kids[f]| ==> d.kids[f][i] != d.kids[f][i + 1];
    if d.mask[j] && g.dir && g.cursor.Entry? {
      FamilyFacts(d, c, g.node);
      if g.node == f {
        BehindWithout(d.kids[f], i, g.cursor.p);
      } else {
        assert c !in d.kids[g.node];
      }
    }
  }

  lemma RemoveHandles(d: Disk, c: Ptr, f: Ptr, i: nat, e: Disk)
    requires Removed(d, c, f, i, e)
    ensures Handles(e.mem, e.kids, e.fh, e.mask)
  {
    hide Tree, Scans, Serials, HandleOk, Waiting;
    KeySets(d, c);
    forall p | p in e.mem ensures CountOk(e.mem, e.fh, p) {
      assert CountOk(d.mem, d.fh, p);
      OpensSameNodes(d.fh, e.fh, p);
    }
    forall j | 0 <= j < MAX_RD_FILES ensures HandleOk(e.mem, e.kids, e.fh[j], e.mask[j]) {
      RemoveHandle(d, c, f, i, e, j);
    }
  }

  lemma RemoveScans(d: Disk, c: Ptr, f: Ptr, i: nat, e: Disk)
    requires Removed(d, c, f, i, e)
    ensures Scans(e.mem, e.kids, e.fh, e.mask, e.scans, e.created)
  {
    hide Tree, Serials, Opens, ScanOk, Waiting, Without;
    KeySets(d, c);
    forall j | 0 <= j < MAX_RD_FILES ensures ScanHandle(e.mem, e.kids, e.fh[j], e.mask[j], e.scans[j], e.created) {
      var g := d.fh[j];
      assert HandleOk(d.mem, d.kids, g, d.mask[j]);
      assert ScanHandle(d.mem, d.kids, g, d.mask[j], d.scans[j], d.created);
      if d.mask[j] && g.dir && g.read && g.cursor.Entry? {
        NotHeld(d, c, j);
        FamilyFacts(d, c, f);
        FamilyFacts(d, c, g.node);
        if g.node == f {
          ScanDetach(d.mem, e.mem, d.kids[f], i, g.cursor.p, d.scans[j], d.created);
        } else {
          assert c !in d.kids[g.node];
          ScanSame(d.mem, e.mem, d.kids[g.node], g.cursor.p, d.scans[j], d.created, d.created);
        }
      }
    }
  }
}
