/** Open handles of the RAM disk: open counts, directory cursors, and what a directory scan has returned. */
module RamHandles {
  import opened Common
  import opened RamTree

  const MAX_RD_FILES := 32

  /** A position in a file, or the next entry of a directory. The code has them in one word, and does not tell them
      apart when it moves cursors off a node. */
  datatype Cursor = Pos(n: nat) | Entry(p: Ptr)

  function Word(c: Cursor): nat { match c case Pos(n) => n case Entry(p) => p }

  datatype OpenFile = OpenFile(node: Ptr, read: bool, write: bool, dir: bool, cursor: Cursor)

  /** A scan: the serial numbers of the children there when it began, and of those returned so far. */
  datatype Scan = Scan(initial: set<nat>, returned: seq<nat>)

  /** How many handles are on node p. */
  function Opens(fh: seq<OpenFile>, p: Ptr): nat {
    if fh == [] then 0 else (if fh[0].node == p then 1 else 0) + Opens(fh[1..], p)
  }

  lemma {:induction false} OpensUpdate(fh: seq<OpenFile>, i: nat, f: OpenFile, p: Ptr)
    requires i < |fh|
    ensures Opens(fh[i := f], p) == Opens(fh, p) - (if fh[i].node == p then 1 else 0) + (if f.node == p then 1 else 0)
  {
    if i == 0 {
      assert fh[i := f][1..] == fh[1..];
    } else {
      assert fh[i := f][1..] == fh[1..][i - 1 := f];
      OpensUpdate(fh[1..], i - 1, f, p);
    }
  }

  lemma {:induction false} OpensSameNodes(fh: seq<OpenFile>, fh': seq<OpenFile>, p: Ptr)
    requires |fh| == |fh'| && forall i :: 0 <= i < |fh| ==> fh[i].node == fh'[i].node
    ensures Opens(fh, p) == Opens(fh', p)
  {
    if fh != [] { OpensSameNodes(fh[1..], fh'[1..], p); }
  }

  lemma {:induction false} OpensPositive(fh: seq<OpenFile>, i: nat)
    requires i < |fh|
    ensures Opens(fh, fh[i].node) > 0
  {
    if i > 0 { OpensPositive(fh[1..], i - 1); }
  }

  ghost predicate CursorOk(mem: Mem, c: Cursor) {
    c.Entry? && c.p != NULL ==> c.p in mem && c.p != ROOT
  }

  /** A handle in use is on a node that exists; a directory handle stands at one of its children or at the end, unless
      the directory has been made a file through it. The cursor of a handle that is no longer in use does not dangle
      either. */
  ghost predicate HandleOk(mem: Mem, kids: Kids, f: OpenFile, used: bool) {
    && CursorOk(mem, f.cursor)
    && (used ==> f.node in mem && f.node in kids && (mem[f.node].dir ==> f.dir) && (f.read || f.write))
    && (!used ==> f.node == NULL)
    && (used && f.dir && mem[f.node].dir ==> f.cursor.Entry?)
    && (used && f.dir && f.cursor.Entry? ==> f.cursor.p == NULL || f.cursor.p in kids[f.node])
  }

  /** The count of a node is the number of handles on it. */
  ghost predicate CountOk(mem: Mem, fh: seq<OpenFile>, p: Ptr)
    requires p in mem
  {
    mem[p].open == Opens(fh, p)
  }

  /** A node marked for unlinking is open, but for one that is about to go. */
  ghost predicate Waiting(mem: Mem, going: Ptr) {
    forall p :: p in mem && p != going && mem[p].unlinked ==> mem[p].open > 0
  }

  ghost predicate Handles(mem: Mem, kids: Kids, fh: seq<OpenFile>, mask: seq<bool>) {
    && |fh| == |mask| == MAX_RD_FILES
    && (forall i {:trigger HandleOk(mem, kids, fh[i], mask[i])} ::
          0 <= i < MAX_RD_FILES ==> HandleOk(mem, kids, fh[i], mask[i]))
    && (forall p {:trigger CountOk(mem, fh, p)} :: p in mem ==> CountOk(mem, fh, p))
  }

  /** Nodes were created one by one. */
  ghost predicate Serials(mem: Mem, created: nat) {
    && (forall p :: p in mem ==> mem[p].serial < created)
    && (forall p, q :: p in mem && q in mem && p != q ==> mem[p].serial != mem[q].serial)
  }

  /** The number of children a cursor has behind it. */
  function Behind(k: seq<Ptr>, p: Ptr): (n: nat)
    ensures n <= |k| && (n < |k| ==> k[n] == p)
    ensures p in k ==> n < |k|
    ensures p !in k ==> n == |k|
  {
    if k == [] || k[0] == p then 0 else 1 + Behind(k[1..], p)
  }

  lemma BehindUnique(k: seq<Ptr>, i: nat)
    requires Distinct(k) && i < |k|
    ensures Behind(k, k[i]) == i
  {
  }

  /** No child is returned twice; what lies behind the cursor and was there at the start has been returned,
      unless it is to be unlinked; what lies ahead has not been returned. */
  ghost predicate ScanOk(mem: Mem, k: seq<Ptr>, at: Ptr, s: Scan, created: nat) {
    && (forall i, j :: 0 <= i < j < |s.returned| ==> s.returned[i] != s.returned[j])
    && (forall n :: n in s.initial || n in s.returned ==> n < created)
    && (forall j {:trigger k[j]} :: 0 <= j < |k| ==> k[j] in mem && ChildScanned(mem[k[j]], j < Behind(k, at), s))
  }

  ghost predicate ChildScanned(n: Node, behind: bool, s: Scan) {
    && (behind && n.serial in s.initial && !n.unlinked ==> n.serial in s.returned)
    && (n.serial in s.returned ==> behind)
  }

  ghost predicate ScanHandle(mem: Mem, kids: Kids, f: OpenFile, used: bool, s: Scan, created: nat) {
    used && f.dir && f.read && f.cursor.Entry? && f.node in kids ==> ScanOk(mem, kids[f.node], f.cursor.p, s, created)
  }

  ghost predicate Scans(mem: Mem, kids: Kids, fh: seq<OpenFile>, mask: seq<bool>, scans: seq<Scan>, created: nat) {
    && |fh| == |mask| == |scans| == MAX_RD_FILES
    && forall i {:trigger ScanHandle(mem, kids, fh[i], mask[i], scans[i], created)} ::
         0 <= i < MAX_RD_FILES ==> ScanHandle(mem, kids, fh[i], mask[i], scans[i], created)
  }

  // ----- attaching a node

  lemma ScanAttach(mem: Mem, mem': Mem, k: seq<Ptr>, c: Ptr, at: Ptr, s: Scan, created: nat)
    requires ScanOk(mem, k, at, s, created) && c !in k && (at == NULL || at in k) && c != NULL && NULL !in k
    requires c in mem' && mem'[c].serial == created
    requires forall j :: 0 <= j < |k| ==> k[j] in mem' && SameMark(mem[k[j]], mem'[k[j]])
    ensures ScanOk(mem', k + [c], at, s, created + 1)
  {
    BehindAppend(k, c, at);
    var k' := k + [c];
    forall j {:trigger k'[j]} | 0 <= j < |k'|
      ensures k'[j] in mem' && ChildScanned(mem'[k'[j]], j < Behind(k', at), s)
    {
      if j < |k| { assert k'[j] == k[j]; }
    }
  }

  predicate SameMark(a: Node, b: Node) { a.serial == b.serial && a.unlinked == b.unlinked }

  lemma {:induction false} BehindAppend(k: seq<Ptr>, c: Ptr, at: Ptr)
    requires c !in k && at != c
    ensures Behind(k + [c], at) == if at in k then Behind(k, at) else |k| + 1
  {
    if k != [] && k[0] != at {
      assert (k + [c])[1..] == k[1..] + [c];
      BehindAppend(k[1..], c, at);
      assert at in k <==> at in k[1..];
    }
  }

  lemma ScanSame(mem: Mem, mem': Mem, k: seq<Ptr>, at: Ptr, s: Scan, created: nat, created': nat)
    requires ScanOk(mem, k, at, s, created) && created <= created'
    requires forall j :: 0 <= j < |k| ==> k[j] in mem' && NotFresher(mem[k[j]], mem'[k[j]])
    ensures ScanOk(mem', k, at, s, created')
  {
  }

  /** The same node, perhaps marked since. */
  predicate NotFresher(a: Node, b: Node) { a.serial == b.serial && (a.unlinked ==> b.unlinked) }

  // ----- detaching a node

  /** Where a cursor points once child i of k has gone. */
  function Moved(c: Cursor, gone: Ptr, next: Ptr): Cursor {
    if Word(c) != gone then c else if c.Entry? then Entry(next) else Pos(next)
  }

  lemma ScanDetach(mem: Mem, mem': Mem, k: seq<Ptr>, i: nat, at: Ptr, s: Scan, created: nat)
    requires ScanOk(mem, k, at, s, created) && Distinct(k) && i < |k| && (at == NULL || at in k) && NULL !in k
    requires forall j :: 0 <= j < |k| && j != i ==> k[j] in mem' && SameMark(mem[k[j]], mem'[k[j]])
    ensures var at' := if at == k[i] then Next(k, i) else at;
      (at' == NULL || at' in Without(k, i)) && ScanOk(mem', Without(k, i), at', s, created)
  {
    var k' := Without(k, i);
    var at' := if at == k[i] then Next(k, i) else at;
    BehindWithout(k, i, at);
    forall j {:trigger k'[j]} | 0 <= j < |k'|
      ensures k'[j] in mem' && ChildScanned(mem'[k'[j]], j < Behind(k', at'), s)
    {
      var o := if j < i then j else j + 1;
      assert k'[j] == k[o];
      assert ChildScanned(mem[k[o]], o < Behind(k, at), s);
    }
  }

  lemma BehindWithout(k: seq<Ptr>, i: nat, at: Ptr)
    requires Distinct(k) && i < |k| && (at == NULL || at in k) && NULL !in k
    ensures var k', at', n := Without(k, i), if at == k[i] then Next(k, i) else at, Behind(k, at);
      (at' == NULL || at' in k') && Behind(k', at') == if i < n then n - 1 else n
  {
    var k', n := Without(k, i), Behind(k, at);
    assert Distinct(k');
    if at == k[i] {
      BehindUnique(k, i);
      if i + 1 < |k| {
        assert k'[i] == k[i + 1];
        BehindUnique(k', i);
      } else {
        assert Next(k, i) !in k';
      }
    } else if at in k {
      var j := if n < i then n else n - 1;
      assert k'[j] == at;
      BehindUnique(k', j);
    } else {
      assert at !in k';
    }
  }

  lemma {:induction false} OpensNone(fh: seq<OpenFile>, p: Ptr)
    requires forall i :: 0 <= i < |fh| ==> fh[i].node != p
    ensures Opens(fh, p) == 0
  {
    if fh != [] { OpensNone(fh[1..], p); }
  }
}
