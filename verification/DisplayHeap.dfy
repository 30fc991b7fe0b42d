/** The command heap of a display list: a block of memory that moves when it is enlarged. */
module DisplayHeap {
  import opened Common
  import opened DisplayWords

  /** Words put one after the other. */
  method Put(a: array<int>, at: nat, data: seq<int>)
    requires at + |data| <= a.Length
    modifies a
    ensures a[..] == Written(old(a[..]), at, data)
  {
    var i := 0;
    while i < |data|
      invariant 0 <= i <= |data|
      invariant a[..] == Written(old(a[..]), at, data[..i])
    {
      a[at + i] := data[i];
      i := i + 1;
      assert data[..i] == data[..i - 1] + [data[i - 1]];
    }
    assert data[..|data|] == data;
  }

  /** The header of a command, and the link to it from the one that was last. */
  method Link(a: array<int>, id: nat, o: int, t: int, last: int)
    requires id / 4 + 4 <= a.Length && (last != NO_ID ==> 0 <= last / 4 < a.Length)
    modifies a
    ensures a[..] == Linked(old(a[..]), id, o, t, last)
  {
    Put(a, id / 4, [NO_ID, 0, o, t]);
    if last != NO_ID {
      a[last / 4] := id;
    }
  }

  class CommandHeap {
    /** The words, where they are in memory, how many bytes there are, and how many of them are taken. */
    var heap: array<int>
    var base: int
    var size: nat
    var pos: nat
    var first: int
    var last: int
    var n: nat
    /** Somebody is filling in a command. */
    var locked: bool
    ghost var commands: seq<Command>
    ghost var ids: seq<int>

    ghost function View(): Heap
      reads this, heap
    {
      Heap(heap[..], size, pos, first, last, n, locked)
    }

    /** The commands are in the heap, each in its own room, in the order of insertion. */
    ghost predicate Valid()
      reads this, heap
    {
      Laid(View(), commands, ids)
    }

    constructor (heapSize: nat, got: bool, base: int)
      ensures Valid() && fresh(heap) && commands == [] && ids == [] && !locked
      ensures pos == 0 && size == if !got then 0 else if heapSize == 0 then 128 else heapSize
    {
      var bytes := if !got then 0 else if heapSize == 0 then 128 else heapSize;
      heap, size := new int[bytes / 4], bytes;
      this.base, pos, first, last, n, locked := base, 0, NO_ID, NO_ID, 0, false;
      commands, ids := [], [];
    }

    /** realloc: a new block, which begins with what the old one held. */
    method Enlarge(least: nat, newBase: int) returns (ghost junk: nat -> int)
      requires heap.Length == size / 4
      modifies this
      ensures View() == Enlarged(old(View()), least, junk) && base == newBase && fresh(heap)
      ensures commands == old(commands) && ids == old(ids)
    {
      var bytes := size * 2;
      if bytes < least {
        bytes := least;
      }
      var block := new int[bytes / 4];
      forall i | 0 <= i < heap.Length {
        block[i] := heap[i];
      }
      ghost var words := block[..];
      junk := i => if 0 <= i < |words| then words[i] else 0;
      heap, base, size := block, newBase, bytes;
      assert heap[..] == Enlarged(old(View()), least, junk).words;
    }

    /** Room for a command, as an address. */
    method RealAlloc(bytes: nat, grows: bool, newBase: int) returns (p: Option<int>, ghost junk: nat -> int)
      requires Valid()
      modifies this
      ensures var (g, at) := Allocated(old(View()), bytes, grows, junk);
        View() == g && p == match at { case None => None case Some(offset) => Some(base + offset) }
      ensures Valid() && commands == old(commands) && ids == old(ids) && (heap == old(heap) || fresh(heap))
      ensures p.Some? ==> Vacant(View(), commands, ids, p.value - base, bytes)
    {
      var rounded := Round(bytes);
      var need := pos + rounded;
      ghost var h := View();
      junk := i => 0;
      if need > size {
        if !grows {
          AllocatedKeeps(h, commands, ids, bytes, grows, junk);
          return None, junk;
        }
        junk := Enlarge(need, newBase);
      }
      AllocatedKeeps(h, commands, ids, bytes, grows, junk);
      p := Some(base + pos);
      pos := pos + rounded;
    }

    /** dl_alloc: the lock is taken, and kept. */
    method DlAlloc(bytes: nat, grows: bool, newBase: int) returns (p: Option<int>, ghost junk: nat -> int)
      requires Valid() && !locked
      modifies this
      ensures var (g, at) := Allocated(old(View()), bytes, grows, junk);
        View() == g.(locked := true) && p == match at { case None => None case Some(offset) => Some(base + offset) }
      ensures Valid() && commands == old(commands) && ids == old(ids) && (heap == old(heap) || fresh(heap))
      ensures p.Some? ==> Vacant(View(), commands, ids, p.value - base, bytes)
    {
      p, junk := RealAlloc(bytes, grows, newBase);
      LockedLaid(View(), commands, ids, true);
      locked := true;
    }

    /** What the caller does with its room before it inserts the command. */
    method Fill(p: int, data: seq<int>)
      requires Valid() && locked && Vacant(View(), commands, ids, p - base, 16 + 4 * |data|)
      modifies heap
      ensures (p - base) / 4 + 4 + |data| <= heap.Length && View() == Filled(old(View()), p - base, data)
      ensures Valid() && Ready(View(), commands, ids, p - base, data)
    {
      FilledKeeps(View(), commands, ids, p - base, data);
      ghost var h := View();
      var at := (p - base) / 4 + 4;
      assert Filled(h, p - base, data) == h.(words := Written(h.words, at, data));
      hide Laid, Vacant, Ready, Filled, Written;
      Put(heap, at, data);
    }

    /** The command at an offset becomes the last one. */
    method Attach(id: nat, o: int, t: int)
      requires id / 4 + 4 <= heap.Length && (last != NO_ID ==> 0 <= last / 4 < heap.Length)
      modifies this, heap
      ensures View() == Inserted(old(View()), id, o, t)
      ensures heap == old(heap) && base == old(base) && commands == old(commands) && ids == old(ids)
    {
      hide Linked;
      Link(heap, id, o, t, last);
      if last == NO_ID {
        first := id;
      }
      last := id;
      n := n + 1;
      locked := false;
    }

    /** dl_insert of a command that is filled in; the lock is given back. */
    method Insert(p: int, o: int, t: int, ghost data: seq<int>) returns (id: int)
      requires Valid() && locked && Ready(View(), commands, ids, p - base, data)
      modifies this, heap
      ensures id == p - base && heap == old(heap) && base == old(base)
      ensures old(last) != NO_ID ==> 0 <= old(last) / 4 < |old(View()).words|
      ensures View() == Inserted(old(View()), id, o, t)
      ensures Valid() && commands == old(commands) + [Command(false, o, t, data)] && ids == old(ids) + [id]
    {
      ghost var h, cs, js := View(), commands + [Command(false, o, t, data)], ids + [p - base];
      InsertedLaid(h, commands, ids, p - base, o, t, data);
      assert p - base >= 0;
      hide Laid, Vacant, Ready, Inserted;
      id := p - base;
      Attach(id, o, t);
      commands, ids := cs, js;
    }

    /** Take room, fill it in and insert, as the constructors of commands do. */
    method Add(o: int, t: int, data: seq<int>, grows: bool, newBase: int, givesBack: bool)
      returns (id: int, ghost junk: nat -> int)
      requires Valid() && !locked
      modifies this, heap
      ensures (View(), id)
        == DisplayWords.Add(old(View()), old(commands), old(ids), Request(o, t, data, grows, junk, givesBack))
      ensures Valid() && commands == More(old(commands), Command(false, o, t, data), id)
      ensures ids == More(old(ids), id, id)
      ensures heap == old(heap) || fresh(heap)
    {
      hide Laid, Vacant, Ready, Filled, Inserted, Allocated;
      var p: Option<int>;
      p, junk := DlAlloc(16 + 4 * |data|, grows, newBase);
      if p.None? {
        LockedLaid(View(), commands, ids, !givesBack);
        locked := !givesBack;
        return NO_ID, junk;
      }
      Fill(p.value, data);
      id := Insert(p.value, o, t, data);
    }

    /** What real_clear does to the heap. */
    method Clear()
      requires Valid()
      modifies this
      ensures Valid() && commands == [] && ids == []
      ensures View() == old(View()).(pos := 0, first := NO_ID, last := NO_ID, n := 0) && heap == old(heap)
    {
      first, last := NO_ID, NO_ID;
      pos, n := 0, 0;
      commands, ids := [], [];
    }
  }
}
