/** Display list commands as the words of a heap: a header of four, then the command's own data. */
module DisplayWords {
  import opened Common
  import opened DisplayMeaning

  const NO_ID: int := -1

  /** The two functions that render a list as a command of another one, as against every other callback. */
  const SUB_OPAQUE: int := -1
  const SUB_TRANSPARENT: int := -2

  /** What was inserted: the functions for the two passes, and the data behind the header. */
  datatype Command = Command(inactive: bool, inOpaque: int, inTransparent: int, data: seq<int>)

  /** The header at word p and the data behind it: the offset of the next command, the flags, the two functions. */
  predicate At(words: seq<int>, p: int, next: int, c: Command) {
    && 0 <= p && p + 4 + |c.data| <= |words|
    && words[p] == next && (c.inactive <==> words[p + 1] % 2 == 1)
    && words[p + 2] == c.inOpaque && words[p + 3] == c.inTransparent
    && words[p + 4..p + 4 + |c.data|] == c.data
  }

  // ----- a run context in one word

  function RcWord(rc: RunContext): int { rc.color % 4 + 4 * (rc.trans % 4) + 16 * (rc.flags % 0x100_0000) }

  function RcOf(word: int): RunContext {
    RunContext(Field(word % 4, 4), Field(word / 4 % 4, 4), Field(word / 16 % 0x100_0000, 0x100_0000))
  }

  lemma FieldOfMod4(v: int)
    ensures Field(v % 4, 4) == Field(v, 4)
  {
    assert v == 4 * (v / 4) + v % 4;
    assert (v % 4 + 2 + 4 * (v / 4)) % 4 == (v % 4 + 2) % 4;
  }

  lemma FieldOfMod24(v: int)
    ensures Field(v % 0x100_0000, 0x100_0000) == Field(v, 0x100_0000)
  {
    var q, r := v / 0x100_0000, v % 0x100_0000;
    assert v == 0x100_0000 * q + r;
    assert (r + 0x80_0000 + 0x100_0000 * q) % 0x100_0000 == (r + 0x80_0000) % 0x100_0000;
  }

  /** The bit fields keep a run context but for what does not fit them. */
  lemma RcBack(rc: RunContext)
    ensures RcOf(RcWord(rc)) == Stored(rc)
  {
    var a, b, c := rc.color % 4, rc.trans % 4, rc.flags % 0x100_0000;
    var w := a + 4 * b + 16 * c;
    assert w % 4 == a && w / 4 == b + 4 * c && w / 16 == c;
    assert (b + 4 * c) % 4 == b && c % 0x100_0000 == c;
    FieldOfMod4(rc.color);
    FieldOfMod4(rc.trans);
    FieldOfMod24(rc.flags);
    hide Field;
  }

  // ----- the heap of one list

  /** Its words, its size in bytes, how much of it is taken, the ends and the length of the list, and whether a caller
      has the lock, because it is about to fill in a command. The lock is that of all lists. */
  datatype Heap = Heap(words: seq<int>, size: nat, pos: nat, first: int, last: int, n: nat, locked: bool)

  function IdAt(ids: seq<int>, i: int): int { if 0 <= i < |ids| then ids[i] else NO_ID }

  /** Where the i-th command's room ends. */
  function EndAt(ids: seq<int>, pos: nat, i: int): int { if 0 <= i < |ids| - 1 then ids[i + 1] else pos }

  /** The bytes of a command. */
  function Extent(c: Command): nat { 16 + 4 * |c.data| }

  /** Commands follow one another in the part that is taken, each with its room to itself and linked to the next. */
  ghost predicate Laid(h: Heap, cs: seq<Command>, ids: seq<int>) {
    && |h.words| == h.size / 4 && h.pos <= h.size && h.pos % 16 == 0
    && |cs| == |ids| == h.n && h.first == IdAt(ids, 0) && h.last == IdAt(ids, |ids| - 1)
    && forall i :: 0 <= i < |ids| ==> LaidAt(h, cs, ids, i)
  }

  ghost predicate LaidAt(h: Heap, cs: seq<Command>, ids: seq<int>, i: nat)
    requires |cs| == |ids| && i < |ids|
  {
    && 0 <= ids[i] && ids[i] % 16 == 0 && ids[i] + Extent(cs[i]) <= EndAt(ids, h.pos, i)
    && At(h.words, ids[i] / 4, IdAt(ids, i + 1), cs[i])
  }

  /** Room at the end that no command has yet. */
  ghost predicate Vacant(h: Heap, cs: seq<Command>, ids: seq<int>, id: int, bytes: nat) {
    && 0 <= id && id % 16 == 0 && id + bytes <= h.pos
    && (ids != [] && |cs| == |ids| ==> ids[|ids| - 1] + Extent(cs[|ids| - 1]) <= id)
  }

  /** Such room with the data of a command filled in. */
  ghost predicate Ready(h: Heap, cs: seq<Command>, ids: seq<int>, id: int, data: seq<int>) {
    && Vacant(h, cs, ids, id, 16 + 4 * |data|) && id / 4 + 4 + |data| <= |h.words|
    && h.words[id / 4 + 4..id / 4 + 4 + |data|] == data
  }

  /** The size rounded up to a multiple of the smallest allocation. */
  function Round(size: nat): (r: nat)
    ensures size <= r < size + 16 && r % 16 == 0
  {
    var negated: int := 0 - size;
    size + negated % 16
  }

  /** dl_enlarge: the words so far are carried over, the others may be anything. */
  function Enlarged(h: Heap, least: nat, junk: nat -> int): Heap {
    var size := if 2 * h.size < least then least else 2 * h.size;
    h.(size := size,
       words := seq(size / 4, i requires 0 <= i < size / 4 => if i < |h.words| then h.words[i] else junk(i)))
  }

  /** real_alloc: the heap afterwards and the offset of the room, if there is any. */
  function Allocated(h: Heap, bytes: nat, grows: bool, junk: nat -> int): (Heap, Option<nat>) {
    var need := h.pos + Round(bytes);
    if need > h.size && !grows then (h, None)
    else
      var g := if need > h.size then Enlarged(h, need, junk) else h;
      (g.(pos := need), Some(h.pos))
  }

  function Written(words: seq<int>, p: nat, data: seq<int>): seq<int>
    requires p + |data| <= |words|
  {
    words[..p] + data + words[p + |data|..]
  }

  /** What the caller puts behind the header. */
  function Filled(h: Heap, id: nat, data: seq<int>): Heap
    requires id / 4 + 4 + |data| <= |h.words|
  {
    h.(words := Written(h.words, id / 4 + 4, data))
  }

  function Linked(words: seq<int>, id: nat, o: int, t: int, last: int): seq<int>
    requires id / 4 + 4 <= |words| && (last != NO_ID ==> 0 <= last / 4 < |words|)
  {
    var written := Written(words, id / 4, [NO_ID, 0, o, t]);
    if last == NO_ID then written else written[last / 4 := id]
  }

  /** dl_insert: the header is written, the command that was last is linked to it, and the lock is given back. */
  function Inserted(h: Heap, id: nat, o: int, t: int): Heap
    requires id / 4 + 4 <= |h.words| && (h.last != NO_ID ==> 0 <= h.last / 4 < |h.words|)
  {
    Heap(Linked(h.words, id, o, t, h.last), h.size, h.pos, if h.last == NO_ID then id else h.first, id, h.n + 1, false)
  }

  // ----- what each step keeps

  lemma AtFrom(words: seq<int>, p: int, next: int, c: Command)
    requires 0 <= p && p + 4 + |c.data| <= |words|
    requires words[p] == next && (c.inactive <==> words[p + 1] % 2 == 1)
    requires words[p + 2] == c.inOpaque && words[p + 3] == c.inTransparent
    requires forall k :: 0 <= k < |c.data| ==> words[p + 4 + k] == c.data[k]
    ensures At(words, p, next, c)
  {
    assert words[p + 4..p + 4 + |c.data|] == c.data;
  }

  lemma AtSame(words: seq<int>, others: seq<int>, p: int, next: int, c: Command)
    requires At(words, p, next, c) && p + 4 + |c.data| <= |others|
    requires forall k :: p <= k < p + 4 + |c.data| ==> others[k] == words[k]
    ensures At(others, p, next, c)
  {
    forall k | 0 <= k < |c.data| ensures others[p + 4 + k] == c.data[k] {
      assert words[p + 4..p + 4 + |c.data|][k] == words[p + 4 + k];
    }
  }

  lemma Below(h: Heap, cs: seq<Command>, ids: seq<int>, i: nat)
    requires Laid(h, cs, ids) && i < |ids|
    ensures ids[i] + Extent(cs[i]) <= EndAt(ids, h.pos, i) && 0 <= ids[i] && ids[i] % 16 == 0
    ensures At(h.words, ids[i] / 4, IdAt(ids, i + 1), cs[i])
  {
    assert LaidAt(h, cs, ids, i);
  }

  /** All rooms end where the last one does, or before. */
  lemma {:induction false} BelowLast(h: Heap, cs: seq<Command>, ids: seq<int>, i: nat)
    requires Laid(h, cs, ids) && i < |ids|
    ensures ids[i] + Extent(cs[i]) <= ids[|ids| - 1] + Extent(cs[|ids| - 1]) <= h.pos
    ensures i < |ids| - 1 ==> ids[i] + Extent(cs[i]) <= ids[|ids| - 1]
    decreases |ids| - i
  {
    Below(h, cs, ids, i);
    hide Laid;
    if i < |ids| - 1 { BelowLast(h, cs, ids, i + 1); }
  }

  /** No two commands have a byte in common. */
  lemma {:induction false} RoomsApart(h: Heap, cs: seq<Command>, ids: seq<int>, i: nat, j: nat)
    requires Laid(h, cs, ids) && i < j < |ids|
    ensures |cs| == |ids| && ids[i] + Extent(cs[i]) <= ids[j] && ids[j] + Extent(cs[j]) <= h.pos <= h.size
    decreases j - i
  {
    Below(h, cs, ids, i);
    BelowLast(h, cs, ids, j);
    if i + 1 < j {
      Below(h, cs, ids, i + 1);
      RoomsApart(h, cs, ids, i + 1, j);
    }
  }

  /** Taking room moves no command and changes none, also when the heap is enlarged. */
  lemma AllocatedKeeps(h: Heap, cs: seq<Command>, ids: seq<int>, bytes: nat, grows: bool, junk: nat -> int)
    requires Laid(h, cs, ids)
    ensures var (g, p) := Allocated(h, bytes, grows, junk);
      Laid(g, cs, ids) && (p.Some? ==> p.value == h.pos && Vacant(g, cs, ids, p.value, bytes))
      && |h.words| <= |g.words| && forall k :: 0 <= k < |h.words| ==> g.words[k] == h.words[k]
  {
    var (g, p) := Allocated(h, bytes, grows, junk);
    if p.Some? {
      forall i | 0 <= i < |ids| ensures LaidAt(g, cs, ids, i) {
        Below(h, cs, ids, i);
        BelowLast(h, cs, ids, i);
        AtSame(h.words, g.words, ids[i] / 4, IdAt(ids, i + 1), cs[i]);
      }
      if ids != [] { BelowLast(h, cs, ids, |ids| - 1); }
    }
  }

  lemma WrittenAt(words: seq<int>, p: nat, data: seq<int>, k: nat)
    requires p + |data| <= |words| && k < |words|
    ensures |Written(words, p, data)| == |words|
    ensures Written(words, p, data)[k] == if p <= k < p + |data| then data[k - p] else words[k]
  {
  }

  /** Filling in vacant room changes no command. */
  lemma FilledKeeps(h: Heap, cs: seq<Command>, ids: seq<int>, id: nat, data: seq<int>)
    requires Laid(h, cs, ids) && Vacant(h, cs, ids, id, 16 + 4 * |data|)
    ensures id / 4 + 4 + |data| <= |h.words|
    ensures var g := Filled(h, id, data);
      Laid(g, cs, ids) && Ready(g, cs, ids, id, data)
  {
    var g := Filled(h, id, data);
    forall i | 0 <= i < |ids| ensures LaidAt(g, cs, ids, i) {
      Below(h, cs, ids, i);
      BelowLast(h, cs, ids, i);
      forall k | ids[i] / 4 <= k < ids[i] / 4 + 4 + |cs[i].data| ensures g.words[k] == h.words[k] {
        WrittenAt(h.words, id / 4 + 4, data, k);
      }
      AtSame(h.words, g.words, ids[i] / 4, IdAt(ids, i + 1), cs[i]);
    }
  }

  /** The words that insertion writes: the header, and the link of the command that was last. */
  lemma InsertedWords(h: Heap, cs: seq<Command>, ids: seq<int>, id: nat, o: int, t: int, k: nat)
    requires Laid(h, cs, ids) && Vacant(h, cs, ids, id, 16) && k < |h.words|
    ensures h.last != NO_ID ==> 0 <= h.last / 4 < |h.words|
    ensures id / 4 + 4 <= |h.words| && |Inserted(h, id, o, t).words| == |h.words|
    ensures Inserted(h, id, o, t).words[k] ==
      if id / 4 <= k < id / 4 + 4 then [NO_ID, 0, o, t][k - id / 4]
      else if ids != [] && k == ids[|ids| - 1] / 4 then id
      else h.words[k]
  {
    if ids != [] { Below(h, cs, ids, |ids| - 1); }
    WrittenAt(h.words, id / 4, [NO_ID, 0, o, t], k);
  }

  lemma OldStays(h: Heap, cs: seq<Command>, ids: seq<int>, id: nat, o: int, t: int, data: seq<int>, i: nat)
    requires Laid(h, cs, ids) && Vacant(h, cs, ids, id, 16 + 4 * |data|) && i < |ids|
    requires id / 4 + 4 <= |h.words| && (h.last != NO_ID ==> 0 <= h.last / 4 < |h.words|)
    ensures At(Inserted(h, id, o, t).words, ids[i] / 4, IdAt(ids + [id], i + 1), cs[i])
    ensures 0 <= ids[i] && ids[i] % 16 == 0 && ids[i] + Extent(cs[i]) <= EndAt(ids + [id], h.pos, i)
  {
    var g, p, c := Inserted(h, id, o, t), ids[i] / 4, cs[i];
    Below(h, cs, ids, i);
    BelowLast(h, cs, ids, i);
    assert At(h.words, p, IdAt(ids, i + 1), c);
    forall k | p <= k < p + 4 + |c.data|
      ensures g.words[k] == if k == p && i == |ids| - 1 then id else h.words[k]
    {
      InsertedWords(h, cs, ids, id, o, t, k);
    }
    hide Laid, Vacant, Inserted;
    forall k | 0 <= k < |c.data| ensures g.words[p + 4 + k] == c.data[k] {
      assert h.words[p + 4..p + 4 + |c.data|][k] == h.words[p + 4 + k];
    }
    AtFrom(g.words, p, IdAt(ids + [id], i + 1), c);
  }

  lemma NewThere(h: Heap, cs: seq<Command>, ids: seq<int>, id: nat, o: int, t: int, data: seq<int>)
    requires Laid(h, cs, ids) && Vacant(h, cs, ids, id, 16 + 4 * |data|)
    requires id / 4 + 4 + |data| <= |h.words| && (h.last != NO_ID ==> 0 <= h.last / 4 < |h.words|)
    requires h.words[id / 4 + 4..id / 4 + 4 + |data|] == data
    ensures At(Inserted(h, id, o, t).words, id / 4, NO_ID, Command(false, o, t, data))
  {
    var g, p := Inserted(h, id, o, t), id / 4;
    InsertedWords(h, cs, ids, id, o, t, p);
    InsertedWords(h, cs, ids, id, o, t, p + 1);
    InsertedWords(h, cs, ids, id, o, t, p + 2);
    InsertedWords(h, cs, ids, id, o, t, p + 3);
    if ids != [] { Below(h, cs, ids, |ids| - 1); }
    hide Laid, Vacant, Inserted;
    forall k | 0 <= k < |data| ensures g.words[p + 4 + k] == data[k] {
      InsertedWords(h, cs, ids, id, o, t, p + 4 + k);
      assert h.words[p + 4..p + 4 + |data|][k] == h.words[p + 4 + k];
    }
    AtFrom(g.words, p, NO_ID, Command(false, o, t, data));
    hide At;
  }

  /** A filled command that is inserted is the last one, and those before it are as they were. */
  lemma InsertedLaid(h: Heap, cs: seq<Command>, ids: seq<int>, id: nat, o: int, t: int, data: seq<int>)
    requires Laid(h, cs, ids) && Ready(h, cs, ids, id, data)
    ensures id / 4 + 4 <= |h.words| && (h.last != NO_ID ==> 0 <= h.last / 4 < |h.words|)
    ensures Laid(Inserted(h, id, o, t), cs + [Command(false, o, t, data)], ids + [id])
  {
    InsertedWords(h, cs, ids, id, o, t, 0);
    var g, ds, js := Inserted(h, id, o, t), cs + [Command(false, o, t, data)], ids + [id];
    NewThere(h, cs, ids, id, o, t, data);
    forall i | 0 <= i < |js| ensures LaidAt(g, ds, js, i) {
      if i < |ids| {
        OldStays(h, cs, ids, id, o, t, data, i);
        assert js[i] == ids[i] && ds[i] == cs[i];
      }
    }
    if ids != [] { Below(h, cs, ids, |ids| - 1); Below(h, cs, ids, 0); assert js[0] == ids[0]; }
  }

  // ----- whole commands, one after the other

  /** A command to be added: its two functions, its data, whether the heap can grow and what the new part of it then
      holds, and whether the constructor gives the lock back when there is no room, as that of sub-lists does. */
  datatype Request = Request(o: int, t: int, data: seq<int>, grows: bool, junk: nat -> int, givesBack: bool)

  function CommandOf(r: Request): Command { Command(false, r.o, r.t, r.data) }

  function Bytes(r: Request): nat { 16 + 4 * |r.data| }

  lemma LockedLaid(h: Heap, cs: seq<Command>, ids: seq<int>, locked: bool)
    requires Laid(h, cs, ids)
    ensures Laid(h.(locked := locked), cs, ids)
  {
    forall i | 0 <= i < |ids| ensures LaidAt(h.(locked := locked), cs, ids, i) { Below(h, cs, ids, i); }
  }

  /** dl_alloc, filling in, dl_insert: the heap afterwards, and the identifier if there was room. Whoever comes while
      the lock is taken waits. */
  ghost function Add(h: Heap, cs: seq<Command>, ids: seq<int>, r: Request): (Heap, int)
    requires Laid(h, cs, ids)
  {
    if h.locked then (h, NO_ID)
    else
      var (g, p) := Allocated(h, Bytes(r), r.grows, r.junk);
      match p
      case None => (g.(locked := !r.givesBack), NO_ID)
      case Some(id) =>
        AllocatedKeeps(h, cs, ids, Bytes(r), r.grows, r.junk);
        LockedLaid(g, cs, ids, true);
        var taken := g.(locked := true);
        FilledKeeps(taken, cs, ids, id, r.data);
        InsertedLaid(Filled(taken, id, r.data), cs, ids, id, r.o, r.t, r.data);
        (Inserted(Filled(taken, id, r.data), id, r.o, r.t), id)
  }

  /** The commands and identifiers after one more call. */
  function More<T>(s: seq<T>, x: T, id: int): seq<T> { if id == NO_ID then s else s + [x] }

  lemma AddLaid(h: Heap, cs: seq<Command>, ids: seq<int>, r: Request)
    requires Laid(h, cs, ids)
    ensures var (g, id) := Add(h, cs, ids, r);
      Laid(g, More(cs, CommandOf(r), id), More(ids, id, id)) && (id != NO_ID ==> !g.locked && id == h.pos)
  {
    AllocatedKeeps(h, cs, ids, Bytes(r), r.grows, r.junk);
    var (g, p) := Allocated(h, Bytes(r), r.grows, r.junk);
    if p.Some? {
      var taken := g.(locked := true);
      LockedLaid(g, cs, ids, true);
      FilledKeeps(taken, cs, ids, p.value, r.data);
      InsertedLaid(Filled(taken, p.value, r.data), cs, ids, p.value, r.o, r.t, r.data);
    } else {
      LockedLaid(h, cs, ids, !r.givesBack);
    }
    hide LaidAt, Allocated, Filled, Inserted, Vacant;
  }

  /** Any number of calls: the heap and what they returned. */
  ghost function Adds(h: Heap, cs: seq<Command>, ids: seq<int>, rs: seq<Request>): (Heap, seq<int>)
    requires Laid(h, cs, ids)
    decreases |rs|
  {
    if rs == [] then (h, [])
    else
      var (g, id) := Add(h, cs, ids, rs[0]);
      AddLaid(h, cs, ids, rs[0]);
      var (last, got) := Adds(g, More(cs, CommandOf(rs[0]), id), More(ids, id, id), rs[1..]);
      (last, [id] + got)
  }

  /** What an identifier yields. */
  function CommandAt(words: seq<int>, id: int, length: nat): Command
    requires 0 <= id && id / 4 + 4 + length <= |words|
  {
    var p := id / 4;
    Command(words[p + 1] % 2 == 1, words[p + 2], words[p + 3], words[p + 4..p + 4 + length])
  }

  lemma MoreThen<T>(s: seq<T>, x: T, id: int, rest: seq<T>)
    ensures More(s, x, id) + rest == s + if id == NO_ID then rest else [x] + rest
  {
  }

  lemma AddsFirst(h: Heap, cs: seq<Command>, ids: seq<int>, rs: seq<Request>)
    requires Laid(h, cs, ids) && rs != []
    ensures var (g, id) := Add(h, cs, ids, rs[0]);
      var ds, js := More(cs, CommandOf(rs[0]), id), More(ids, id, id);
      Laid(g, ds, js) && Adds(h, cs, ids, rs) == (Adds(g, ds, js, rs[1..]).0, [id] + Adds(g, ds, js, rs[1..]).1)
  {
    hide Laid, Add;
    AddLaid(h, cs, ids, rs[0]);
  }

  /** After any number of further calls the heap holds the commands from before and those that found room, in order. */
  lemma {:induction false} AddsLaid(h: Heap, cs: seq<Command>, ids: seq<int>, rs: seq<Request>)
    requires Laid(h, cs, ids)
    ensures var (g, got) := Adds(h, cs, ids, rs);
      |got| == |rs| && Laid(g, cs + GrantedOf(rs, got), ids + Granted(got))
    decreases |rs|
  {
    if rs == [] {
      assert cs + [] == cs && ids + [] == ids;
    } else {
      AddsFirst(h, cs, ids, rs);
      hide Laid, Add, Adds, More;
      var (g, id) := Add(h, cs, ids, rs[0]);
      var ds, js := More(cs, CommandOf(rs[0]), id), More(ids, id, id);
      AddsLaid(g, ds, js, rs[1..]);
      var got := Adds(g, ds, js, rs[1..]).1;
      assert ([id] + got)[1..] == got;
      MoreThen(cs, CommandOf(rs[0]), id, GrantedOf(rs[1..], got));
      MoreThen(ids, id, id, Granted(got));
    }
  }

  function Granted(got: seq<int>): seq<int> {
    if got == [] then [] else if got[0] == NO_ID then Granted(got[1..]) else [got[0]] + Granted(got[1..])
  }

  function GrantedOf(rs: seq<Request>, got: seq<int>): seq<Command>
    requires |rs| == |got|
  {
    if got == [] then []
    else if got[0] == NO_ID then GrantedOf(rs[1..], got[1..])
    else [CommandOf(rs[0])] + GrantedOf(rs[1..], got[1..])
  }

  lemma {:induction false} GrantedIndex(rs: seq<Request>, got: seq<int>, i: nat) returns (k: nat)
    requires |rs| == |got| && i < |got| && got[i] != NO_ID
    ensures |GrantedOf(rs, got)| == |Granted(got)| > k && Granted(got)[k] == got[i]
    ensures GrantedOf(rs, got)[k] == CommandOf(rs[i])
    decreases |got|
  {
    GrantedLengths(rs, got);
    if i == 0 {
      k := 0;
    } else {
      k := GrantedIndex(rs[1..], got[1..], i - 1);
      k := if got[0] == NO_ID then k else k + 1;
    }
  }

  lemma {:induction false} GrantedLengths(rs: seq<Request>, got: seq<int>)
    requires |rs| == |got|
    ensures |GrantedOf(rs, got)| == |Granted(got)|
    decreases |got|
  {
    if got != [] { GrantedLengths(rs[1..], got[1..]); }
  }

  lemma LaidYields(h: Heap, cs: seq<Command>, ids: seq<int>, i: nat)
    requires Laid(h, cs, ids) && i < |ids|
    ensures 0 <= ids[i] && ids[i] / 4 + 4 + |cs[i].data| <= |h.words|
    ensures CommandAt(h.words, ids[i], |cs[i].data|) == cs[i]
  {
    Below(h, cs, ids, i);
  }

  /** Whatever is added after it, however often the heap is enlarged: an identifier yields the command that was
      inserted under it. */
  lemma AddsYield(h: Heap, cs: seq<Command>, ids: seq<int>, rs: seq<Request>, i: nat)
    requires Laid(h, cs, ids) && i < |rs|
    ensures var (g, got) := Adds(h, cs, ids, rs);
      |got| == |rs| && (got[i] != NO_ID ==>
        0 <= got[i] && got[i] / 4 + 4 + |rs[i].data| <= |g.words|
        && CommandAt(g.words, got[i], |rs[i].data|) == CommandOf(rs[i]))
  {
    hide Laid, Adds;
    var (g, got) := Adds(h, cs, ids, rs);
    AddsLaid(h, cs, ids, rs);
    if got[i] != NO_ID {
      var k := GrantedIndex(rs, got, i);
      LaidYields(g, cs + GrantedOf(rs, got), ids + Granted(got), |ids| + k);
      LaidLengths(h, cs, ids);
    }
  }

  lemma LaidLengths(h: Heap, cs: seq<Command>, ids: seq<int>)
    requires Laid(h, cs, ids)
    ensures |cs| == |ids|
  {
  }

  /** Nor does it matter to those from before. */
  lemma AddsKeep(h: Heap, cs: seq<Command>, ids: seq<int>, rs: seq<Request>, i: nat)
    requires Laid(h, cs, ids) && i < |ids|
    ensures |cs| == |ids| && var g := Adds(h, cs, ids, rs).0;
      0 <= ids[i] && ids[i] / 4 + 4 + |cs[i].data| <= |g.words| && CommandAt(g.words, ids[i], |cs[i].data|) == cs[i]
  {
    hide Laid, Adds;
    LaidLengths(h, cs, ids);
    AddsLaid(h, cs, ids, rs);
    var (g, got) := Adds(h, cs, ids, rs);
    LaidYields(g, cs + GrantedOf(rs, got), ids + Granted(got), i);
  }

  // ----- how much room is taken

  /** A heap is enlarged only when the room that is left is too small, and then at least doubled. */
  lemma AllocatedSize(h: Heap, bytes: nat, grows: bool, junk: nat -> int)
    ensures var (g, p) := Allocated(h, bytes, grows, junk);
      if h.pos + Round(bytes) <= h.size then p == Some(h.pos) && g == h.(pos := h.pos + Round(bytes))
      else if grows then
        p == Some(h.pos) && g.pos == h.pos + Round(bytes) && g.size >= 2 * h.size && g.size >= g.pos
        && (g.size == 2 * h.size || g.size == g.pos)
      else p == None && g == h
  {
  }

  /** A command gets the first room that is free, and no more than its words need. */
  lemma AddTakes(h: Heap, cs: seq<Command>, ids: seq<int>, r: Request)
    requires Laid(h, cs, ids)
    ensures var (g, id) := Add(h, cs, ids, r);
      id != NO_ID ==> id == h.pos && g.pos % 16 == 0 && 16 + 4 * |r.data| <= g.pos - id < 32 + 4 * |r.data|
  {
    AddLaid(h, cs, ids, r);
    AllocatedSize(h, Bytes(r), r.grows, r.junk);
    hide LaidAt, Allocated, Linked, Written, Vacant, Round;
  }

  // ----- the lock

  /** The answers to calls that all wait. */
  function Refused(n: nat): (r: seq<int>)
    ensures |r| == n
  {
    seq(n, _ => NO_ID)
  }

  lemma {:induction false} LockStays(h: Heap, cs: seq<Command>, ids: seq<int>, rs: seq<Request>)
    requires Laid(h, cs, ids) && h.locked
    ensures Adds(h, cs, ids, rs) == (h, Refused(|rs|))
    decreases |rs|
  {
    hide Laid;
    if rs != [] {
      LockStays(h, cs, ids, rs[1..]);
      assert Refused(|rs|) == [NO_ID] + Refused(|rs| - 1);
    }
  }

  lemma AddLocks(h: Heap, cs: seq<Command>, ids: seq<int>, r: Request)
    requires Laid(h, cs, ids) && !h.locked
    ensures Add(h, cs, ids, r).0.locked <==> !r.givesBack && !r.grows && h.pos + Round(Bytes(r)) > h.size
    ensures Add(h, cs, ids, r).1 == NO_ID <==> !r.grows && h.pos + Round(Bytes(r)) > h.size
  {
    hide Laid, Filled, Linked, Enlarged, Round;
  }

  /** Whatever is asked of a list, it stays as it is and nobody gets anything. */
  ghost predicate Stuck(h: Heap, cs: seq<Command>, ids: seq<int>)
    requires Laid(h, cs, ids)
  {
    forall rs :: Adds(h, cs, ids, rs) == (h, Refused(|rs|))
  }

  lemma StuckIff(h: Heap, cs: seq<Command>, ids: seq<int>)
    requires Laid(h, cs, ids)
    ensures Stuck(h, cs, ids) <==> h.locked
  {
    hide Laid, Adds;
    if h.locked {
      forall rs ensures Adds(h, cs, ids, rs) == (h, Refused(|rs|)) { LockStays(h, cs, ids, rs); }
    } else {
      Granting(h, cs, ids, Request(0, 0, [], true, _ => 0, true));
    }
  }

  lemma Granting(h: Heap, cs: seq<Command>, ids: seq<int>, r: Request)
    requires Laid(h, cs, ids) && !h.locked && r.grows
    ensures Adds(h, cs, ids, [r]).1 != Refused(|[r]|)
  {
    AddLocks(h, cs, ids, r);
    AddsFirst(h, cs, ids, [r]);
    hide Laid, Add, Adds;
    assert Refused(1)[0] == NO_ID;
  }

  /** The code has one lock for all lists. After a request to one list every other is stuck exactly if there was no
      room, the heap could not grow, and the constructor does not give the lock back. */
  lemma LockLost(h: Heap, cs: seq<Command>, ids: seq<int>, r: Request, g: Heap, ds: seq<Command>, js: seq<int>)
    requires Laid(h, cs, ids) && !h.locked && Laid(g, ds, js)
    ensures var after := g.(locked := Add(h, cs, ids, r).0.locked);
      Laid(after, ds, js)
      && (Stuck(after, ds, js) <==> !r.givesBack && !r.grows && h.pos + Round(Bytes(r)) > h.size)
  {
    hide Laid, Add, Stuck, Round;
    AddLocks(h, cs, ids, r);
    LockedLaid(g, ds, js, Add(h, cs, ids, r).0.locked);
    StuckIff(g.(locked := Add(h, cs, ids, r).0.locked), ds, js);
  }

  /** The heap of a list as it is created by default, and a command of 29 words when nothing more can be allocated. */
  lemma LockLostFirst()
    ensures var h := Heap(seq(32, _ => 0), 128, 0, NO_ID, NO_ID, 0, false);
      var r := Request(0, 0, seq(29, _ => 0), false, _ => 0, false);
      Laid(h, [], []) && Add(h, [], [], r) == (h.(locked := true), NO_ID)
  {
    var h, r := Heap(seq(32, _ => 0), 128, 0, NO_ID, NO_ID, 0, false),
                Request(0, 0, seq(29, _ => 0), false, _ => 0, false);
    assert Round(Bytes(r)) >= 132;
    AddLocks(h, [], [], r);
  }
}
