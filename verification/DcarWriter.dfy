/** Archiving as the code runs it: the entry lists are indexed in place and written out, level before sub-level. */
module DcarWriter {
  import opened DcarFormat
  import opened DcarTree
  import opened DcarArchive
  import opened DcarCut
  import opened DcarEntries
  import opened DcarChains

  /** What a list tells about its first entry. */
  lemma FirstOf(m: Mem, p: Ptr, ts: Level)
    requires Linked(m, p, ts)
    ensures ts == [] <==> p == NULL
    ensures ts != [] ==> p == ts[0].p && p in m && Linked(m, m[p].nxt, ts[1..]) && Linked(m, m[p].son, ts[0].kids)
  {
  }

  lemma FirstIndexed(m: Mem, ts: Level, f: Forest, next: nat)
    requires Indexed(m, ts, f, next) && f != []
    ensures |ts| == |f| && ts[0].p in m && m[ts[0].p].te == Entry(f[0], next, |f| == 1)
    ensures f[0].Dir? ==> Indexed(m, ts[0].kids, f[0].items, next + |f[0].items|)
    ensures Indexed(m, ts[1..], f[1..], next + Below(f[0]))
  {
  }

  lemma FirstDirs(m: Mem, ts: Level)
    requires OnlyDirs(m, ts) && ts != []
    ensures OnlyDirs(m, ts[0].kids) && OnlyDirs(m, ts[1..]) && ts[0].p in m && (ts[0].kids != [] ==> m[ts[0].p].te.dir)
    ensures |ts[0].kids| <= Size(ts[0].kids) && |ts[1..]| <= Size(ts[1..])
    ensures Size(ts) == 1 + Size(ts[0].kids) + Size(ts[1..])
  {
    SizeAtLeast(ts[0].kids);
    SizeAtLeast(ts[1..]);
  }

  lemma {:induction false} SizeAtLeast(ts: Level)
    ensures |ts| <= Size(ts)
  {
    if ts != [] { SizeAtLeast(ts[1..]); }
  }

  lemma SizedLinks(m: Mem, m': Mem, p: Ptr, size: nat)
    requires SameLinks(m, m') && p in m'
    ensures SameLinks(m, SetSize(m', p, size))
  {
  }

  lemma Unchanged(m: Mem)
    ensures SameLinks(m, m)
  {
  }

  lemma IndexedLength(m: Mem, ts: Level, f: Forest, next: nat)
    requires Indexed(m, ts, f, next)
    ensures |ts| == |f|
  {
  }

  lemma Associates(a: Bytes, b: Bytes, c: Bytes)
    ensures (a + b) + c == a + (b + c)
  {
  }

  lemma NoEntries(next: nat)
    ensures Entries([], next) == [] && SubTables([], next) == [] && EncodeTable([]) == []
  {
  }

  lemma DataParts(f: Forest)
    ensures Data(f) == Bodies(f) + SubData(f)
  {
  }

  lemma FirstKept(files: Files, path: Path, g: Forest)
    requires g != [] && Keeps(files, path, g)
    ensures SizeOf(g[0]) != 0 ==>
      && path + [g[0].name] in files && files[path + [g[0].name]] == NodeOf(g[0]) && g[0].File?
      && BodyOf(g[0]) == Padded(g[0].body)
    ensures SizeOf(g[0]) == 0 ==> BodyOf(g[0]) == []
    ensures g[0].Dir? ==> Keeps(files, path + [g[0].name], g[0].items) && SizeOf(g[0]) == 0
    ensures Keeps(files, path, g[1..])
  {
  }

  lemma AllOkParts(t: seq<Te>, u: seq<Te>)
    ensures AllOk(t + u) <==> AllOk(t) && AllOk(u)
  {
    if AllOk(t + u) {
      forall i | 0 <= i < |t| ensures TeOk(t[i]) { assert (t + u)[i] == t[i]; }
      forall i | 0 <= i < |u| ensures TeOk(u[i]) { assert (t + u)[|t| + i] == u[i]; }
    }
  }

  lemma TableParts(f: Forest, base: nat)
    requires AllOk(Table(f, base))
    ensures AllOk(Entries(f, base + |f|)) && AllOk(SubTables(f, base + |f|))
    ensures EncodeTable(Table(f, base)) == EncodeTable(Entries(f, base + |f|)) + EncodeTable(SubTables(f, base + |f|))
  {
    AllOkParts(Entries(f, base + |f|), SubTables(f, base + |f|));
    EncodeConcat(Entries(f, base + |f|), SubTables(f, base + |f|));
  }

  lemma FirstTable(f: Forest, next: nat)
    requires f != [] && AllOk(SubTables(f, next))
    ensures AllOk(SubTables(f[1..], next + Below(f[0]))) && (f[0].Dir? ==> AllOk(Table(f[0].items, next)))
    ensures EncodeTable(SubTables(f, next))
      == (if f[0].Dir? then EncodeTable(Table(f[0].items, next)) else [])
         + EncodeTable(SubTables(f[1..], next + Below(f[0])))
  {
    var t := if f[0].Dir? then Table(f[0].items, next) else [];
    AllOkParts(t, SubTables(f[1..], next + Below(f[0])));
    EncodeConcat(t, SubTables(f[1..], next + Below(f[0])));
  }

  lemma FirstEntry(f: Forest, next: nat)
    requires f != [] && AllOk(Entries(f, next))
    ensures TeOk(Entry(f[0], next, |f| == 1)) && AllOk(Entries(f[1..], next + Below(f[0])))
    ensures EncodeTable(Entries(f, next))
      == EncodeTe(Entry(f[0], next, |f| == 1)) + EncodeTable(Entries(f[1..], next + Below(f[0])))
  {
    var t, u := Entries(f, next), Entries(f[1..], next + Below(f[0]));
    assert t[1..] == u && TeOk(t[0]);
    forall i | 0 <= i < |u| ensures TeOk(u[i]) { assert u[i] == t[i + 1]; }
  }

  lemma NoIndices(m: Mem, next: nat)
    ensures SetIndices(m, [], next) == m && Size([]) == 0
  {
  }

  /** A level that only has to be turned round. */
  ghost predicate Ready(m0: Mem, m1: Mem, parent: Ptr, ls: seq<Ptr>, f: Forest) {
    exists m: Mem :: Built(m, ls, f) && |ls| == |f| && parent in m && Extended(m0, m, parent, SetOf(ls))
      && (ls != [] ==> ls[|ls| - 1] in m) && m1 == MarkEnd(m, ls) && m[parent].son == Next(ls, 0)
  }

  lemma ParentApart(m0: Mem, m: Mem, parent: Ptr, ls: seq<Ptr>)
    requires Extended(m0, m, parent, SetOf(ls))
    ensures parent !in ls
  {
    assert parent in SetOf(ls) <==> parent in ls;
  }

  lemma ReadyIs(m0: Mem, m: Mem, parent: Ptr, ls: seq<Ptr>, f: Forest)
    requires Built(m, ls, f) && |ls| == |f| && Extended(m0, m, parent, SetOf(ls)) && (ls != [] ==> ls[|ls| - 1] in m)
    requires parent in m && m[parent].son == Next(ls, 0)
    ensures Ready(m0, MarkEnd(m, ls), parent, ls, f)
  {
  }

  /** The number of entries below the items of a level from index i on. */
  function CountFrom(f: Forest, i: nat): nat { if i <= |f| then Count(f[i..]) - |f[i..]| else 0 }

  lemma CountRest(f: Forest, i: nat)
    requires i <= |f|
    ensures i == 0 ==> CountFrom(f, i) == Count(f) - |f|
    ensures i == |f| ==> CountFrom(f, i) == 0
    ensures i < |f| ==> CountFrom(f, i) == Below(f[i]) + CountFrom(f, i + 1)
  {
    if i < |f| { assert f[i..][1..] == f[i + 1..]; }
  }

  lemma AddedIs(m: Mem, parent: Ptr, ts: Level, f: Forest)
    requires exists m0 :: Added(m0, m, parent, ts, f)
    ensures parent in m && Linked(m, m[parent].son, ts) && Listed(m, ts, f) && Apart(ts) && |ts| == |f|
  {
  }

  lemma ReadyStands(m0: Mem, m1: Mem, parent: Ptr, ls: seq<Ptr>, f: Forest, m2: Mem)
    requires Ready(m0, m1, parent, ls, f) && Relinked(m1, m2, ls) && Onward(m2, ls)
    ensures Standing(m2, ls, f) && Extended(m0, m2, parent, SetOf(ls)) && parent in m2 && m2[parent].son == Next(ls, 0)
  {
    var m: Mem :| Built(m, ls, f) && |ls| == |f| && parent in m && Extended(m0, m, parent, SetOf(ls))
      && (ls != [] ==> ls[|ls| - 1] in m) && m1 == MarkEnd(m, ls) && m[parent].son == Next(ls, 0);
    TurnedRound(m0, m, parent, ls, f, m2);
  }

  class Archiver {
    const files: Files
    /** The names that reading each directory gives, those the filter accepts. */
    const listing: map<Path, seq<Bytes>>
    var mem: Mem
    var out: Bytes

    constructor (files: Files, listing: map<Path, seq<Bytes>>)
      ensures this.files == files && this.listing == listing && mem == map[] && out == []
    {
      this.files, this.listing := files, listing;
      mem, out := map[], [];
    }

    /** Read one directory: each entry goes in front of those before it, the last is marked. */
    method AddLevel(path: Path, parent: Ptr, alloc: set<Ptr> -> Ptr, ghost f: Forest)
      returns (count: nat, aentry: Ptr, ghost ls: seq<Ptr>)
      requires Source(files, path, f) && Lists(listing, path, f) && Strings(f) && Allocator(alloc)
      requires parent in mem && mem[parent].son == NULL
      modifies this`mem
      ensures count == |f| && Backward(mem, ls) && aentry == Next(ls, |ls| - 1)
      ensures Ready(old(mem), mem, parent, ls, Cut(f))
    {
      hide Source, Lists, SubLists, Strings, EntryAt, Built, Extended, Backward, De2te, Ready, Bare, Allocator, Cut;
      hide CutItem;
      ghost var m0, g := mem, Cut(f);
      ListsParts(listing, path, f);
      NothingBuilt(mem, parent, g);
      var names := listing[path];
      count, aentry, ls := 0, NULL, [];
      while count < |names|
        invariant count == |ls| <= |f| && aentry == Next(ls, |ls| - 1) && names == Names(f)
        invariant Built(mem, ls, g) && Extended(m0, mem, parent, SetOf(ls))
        invariant parent in mem && mem[parent].son == Next(ls, 0)
        invariant ls != [] ==> aentry in mem && aentry != NULL
      {
        EntriesAt(listing, files, path, f, count);
        EntryParts(listing, files, path, f[count]);
        var at := path + [names[count]];
        var here := Calloc(alloc);
        ParentApart(m0, mem, parent, ls);
        CutAt(f, count);
        ExtendOne(m0, mem, parent, ls, g[count], here);
        BuildOne(mem, parent, ls, g, here);
        ghost var made := OneMore(mem, parent, ls, g[count], here);
        mem := mem[here := AEntry(aentry, NULL, De2te(names[count], files[at]).1)];
        if aentry == NULL {
          mem := mem[parent := mem[parent].(son := here)];
        }
        assert mem == made;
        aentry, ls := here, ls + [here];
        count := count + 1;
      }
      BuiltBackward(mem, ls, g);
      ReadyIs(m0, mem, parent, ls, g);
      if aentry != NULL {
        mem := mem[aentry := mem[aentry].(te := mem[aentry].te.(end := true))];
      }
    }

    method Calloc(alloc: set<Ptr> -> Ptr) returns (p: Ptr)
      requires Allocator(alloc)
      ensures p !in mem && p != NULL
    {
      p := alloc(mem.Keys);
    }

    /** Turn a chain round in place. */
    method Reverse(t2: Ptr, ghost ls: seq<Ptr>) returns (p: Ptr)
      requires Backward(mem, ls) && t2 == Next(ls, |ls| - 1)
      modifies this`mem
      ensures Onward(mem, ls) && Relinked(old(mem), mem, ls) && p == Next(ls, 0)
    {
      hide Turned, Backward, Onward, Relinked;
      TurnedEnds(mem, mem, ls);
      var t, s := t2, NULL;
      p := NULL;
      ghost var k: nat := |ls|;
      while t != NULL
        invariant k <= |ls| && t == Next(ls, k - 1) && p == Next(ls, k) && s == Next(ls, k + 1)
        invariant Turned(old(mem), mem, ls, k)
        decreases k
      {
        TurnOne(old(mem), mem, ls, k);
        if p != NULL {
          mem := mem[p := mem[p].(nxt := s)];
        }
        TurnOne(old(mem), mem, ls, k - 1);
        s := p;
        p := t;
        t := mem[t].nxt;
        k := k - 1;
      }
      TurnOne(old(mem), mem, ls, k);
      if p != NULL {
        mem := mem[p := mem[p].(nxt := s)];
      }
      TurnedEnds(old(mem), mem, ls);
    }

    /** Read the directories of a level, one after the other. */
    method AddSubs(path: Path, first: Ptr, alloc: set<Ptr> -> Ptr, ghost ls: seq<Ptr>, ghost f: Forest)
      returns (more: nat, ghost kids: seq<Level>)
      requires Source(files, path, f) && SubLists(listing, path, f) && Strings(f) && Allocator(alloc)
      requires Standing(mem, ls, Cut(f)) && first == Next(ls, 0)
      modifies this`mem
      ensures |f| + more == Count(Cut(f)) && ReadUpTo(old(mem), mem, ls, kids, Cut(f), |ls|)
      decreases f, 0
    {
      hide Source, Lists, SubLists, Strings, EntryAt, Allocator, Standing, ReadUpTo, Added, Shapes, Count, De2te, Cut;
      hide CutItem;
      ghost var m0, g := mem, Cut(f);
      kids := NothingRead(mem, ls, g);
      ghost var i: nat := 0;
      Sizes(m0, mem, ls, kids, g, i);
      var t := first;
      more := 0;
      CountRest(g, 0);
      while t != NULL
        invariant i <= |ls| == |kids| == |f| && t == Next(ls, i) && ReadUpTo(m0, mem, ls, kids, g, i)
        invariant more + CountFrom(g, i) == Count(g) - |g|
        decreases |ls| - i
      {
        NextFact(m0, mem, ls, kids, g, i);
        CountRest(g, i);
        CutAt(f, i);
        if mem[t].te.dir {
          EntriesAt(listing, files, path, f, i);
          EntryParts(listing, files, path, f[i]);
          ghost var m := mem;
          var n: nat;
          ghost var below: Level;
          n, below := Add(path + [mem[t].te.name], t, alloc, f[i].items);
          more := more + n;
          DirRead(m0, m, ls, kids, g, i, mem, below);
          kids := kids[i := below];
        } else {
          FileRead(m0, mem, ls, kids, g, i);
        }
        LinkFact(m0, mem, ls, kids, g, i + 1, i);
        i := i + 1;
        t := mem[t].nxt;
      }
      LinkFact(m0, mem, ls, kids, g, i, i);
      CountRest(g, i);
    }

    /** Read a directory and all below it into the memory, below a parent; the number of entries. */
    method Add(path: Path, parent: Ptr, alloc: set<Ptr> -> Ptr, ghost f: Forest) returns (count: nat, ghost ts: Level)
      requires Source(files, path, f) && Lists(listing, path, f) && Strings(f) && Allocator(alloc)
      requires parent in mem && mem[parent].son == NULL
      modifies this`mem
      ensures count == Count(Cut(f)) && Added(old(mem), mem, parent, ts, Cut(f))
      decreases f, 1
    {
      hide Source, Lists, SubLists, Strings, Cut, Extended, Backward, Ready, Allocator, Onward, Standing, Relinked;
      hide ReadUpTo, Added, Shapes, SetOf;
      ghost var m0 := mem;
      var aentry: Ptr, more: nat;
      ghost var ls: seq<Ptr>;
      ListsParts(listing, path, f);
      count, aentry, ls := AddLevel(path, parent, alloc, f);
      ghost var m1 := mem;
      var t := Reverse(aentry, ls);
      ReadyStands(m0, m1, parent, ls, Cut(f), mem);
      ghost var m2 := mem;
      ghost var kids: seq<Level>;
      more, kids := AddSubs(path, t, alloc, ls, f);
      count := count + more;
      Sizes(m2, mem, ls, kids, Cut(f), |ls|);
      ts := Shapes(ls, kids, 0);
      AllRead(m0, m2, mem, parent, ls, kids, Cut(f));
    }

    /** Index a level and all below it; the index after the last entry, 0 for an empty level. */
    method MakeDirIndex(aentry: Ptr, base: nat, ghost ts: Level) returns (r: nat)
      requires Linked(mem, aentry, ts) && OnlyDirs(mem, ts)
      modifies this`mem
      ensures mem == SetIndices(old(mem), ts, base + |ts|)
      ensures r == if ts == [] then 0 else base + Size(ts)
      decreases ts
    {
      hide Linked, OnlyDirs, SetIndices, SameLinks;
      FirstOf(mem, aentry, ts);
      if aentry == NULL {
        NoIndices(mem, base);
        return 0;
      }
      ghost var m, rest := mem, ts;
      r := base;
      var e := aentry;
      while e != NULL
        invariant Linked(mem, e, rest) && mem == m && r + |rest| == base + |ts|
        decreases rest
      {
        FirstOf(mem, e, rest);
        e := mem[e].nxt;
        rest := rest[1..];
        r := r + 1;
      }
      FirstOf(mem, e, rest);
      e, rest := aentry, ts;
      while e != NULL
        invariant Linked(mem, e, rest) && OnlyDirs(mem, rest)
        invariant SetIndices(m, ts, base + |ts|) == SetIndices(mem, rest, r)
        invariant r + Size(rest) - |rest| == base + Size(ts)
        decreases rest
      {
        FirstOf(mem, e, rest);
        FirstDirs(mem, rest);
        OneStep(mem, rest, r);
        ghost var m0 := mem;
        ghost var kids := rest[0].kids;
        if mem[e].te.dir {
          IndexingKeepsLinks(mem, kids, r + |kids|);
          ghost var m1 := SetIndices(mem, kids, r + |kids|);
          var newbase := MakeDirIndex(mem[e].son, r, kids);
          if newbase != 0 {
            mem := mem[e := mem[e].(te := mem[e].te.(size := r))];
            r := newbase;
          } else {
            mem := mem[e := mem[e].(te := mem[e].te.(size := 0))];
          }
          SizedLinks(m0, m1, e, mem[e].te.size);
        } else {
          Unchanged(m0);
        }
        LinksAreEnough(m0, mem, m0[e].nxt, rest[1..]);
        OnlyDirsStays(m0, mem, rest[1..]);
        e := mem[e].nxt;
        rest := rest[1..];
      }
      FirstOf(mem, e, rest);
      NoIndices(mem, r);
    }

    /** First, the entries of this level. */
    method WriteLevel(aentry: Ptr, ghost ts: Level, ghost f: Forest, ghost next: nat)
      requires Linked(mem, aentry, ts) && Indexed(mem, ts, f, next) && AllOk(Entries(f, next))
      modifies this`out
      ensures out == old(out) + EncodeTable(Entries(f, next))
    {
      hide Linked, Indexed, EncodeTe, TeOk, AllOk;
      ghost var rest: Level, g: Forest, n: nat := ts, f, next;
      IndexedLength(mem, ts, f, next);
      FirstOf(mem, aentry, ts);
      var e := aentry;
      while e != NULL
        invariant Linked(mem, e, rest) && Indexed(mem, rest, g, n) && |rest| == |g| && AllOk(Entries(g, n))
        invariant out + EncodeTable(Entries(g, n)) == old(out) + EncodeTable(Entries(f, next))
        decreases rest
      {
        FirstOf(mem, e, rest);
        FirstIndexed(mem, rest, g, n);
        FirstEntry(g, n);
        var te := mem[e].te;
        out := out + EncodeTe(te);
        e := mem[e].nxt;
        rest, g, n := rest[1..], g[1..], n + Below(g[0]);
      }
      NoEntries(n);
      FirstOf(mem, e, rest);
    }

    /** The entries of a level, then those of each of its directories. */
    method WriteEntries(aentry: Ptr, ghost ts: Level, ghost f: Forest, ghost base: nat)
      requires Linked(mem, aentry, ts) && Indexed(mem, ts, f, base + |f|) && AllOk(Table(f, base))
      modifies this`out
      ensures out == old(out) + EncodeTable(Table(f, base))
      decreases ts
    {
      hide Linked, Indexed, EncodeTe, TeOk, AllOk, Table, Entries, EncodeTable, SubTables;
      TableParts(f, base);
      Associates(out, EncodeTable(Entries(f, base + |f|)), EncodeTable(SubTables(f, base + |f|)));
      WriteLevel(aentry, ts, f, base + |f|);
      ghost var out1 := out;
      ghost var rest: Level, g: Forest, n: nat := ts, f, base + |f|;
      IndexedLength(mem, ts, f, n);
      FirstOf(mem, aentry, ts);
      var e := aentry;
      while e != NULL
        invariant Linked(mem, e, rest) && Indexed(mem, rest, g, n) && |rest| == |g| && AllOk(SubTables(g, n))
        invariant out + EncodeTable(SubTables(g, n)) == out1 + EncodeTable(SubTables(f, base + |f|))
        decreases rest
      {
        FirstOf(mem, e, rest);
        FirstIndexed(mem, rest, g, n);
        FirstTable(g, n);
        ghost var more := if g[0].Dir? then EncodeTable(Table(g[0].items, n)) else [];
        Associates(out, more, EncodeTable(SubTables(g[1..], n + Below(g[0]))));
        if mem[e].te.dir {
          WriteEntries(mem[e].son, rest[0].kids, g[0].items, n);
        }
        e := mem[e].nxt;
        rest, g, n := rest[1..], g[1..], n + Below(g[0]);
      }
      NoEntries(n);
      FirstOf(mem, e, rest);
    }

    /** Copy the file at a path into the archive, chunk by chunk, and pad it. */
    method GzCopy(path: Path) returns (n: int)
      modifies this`out
      ensures path in files && files[path].Regular? ==> n >= 0 && out == old(out) + Padded(files[path].body)
      ensures !(path in files && files[path].Regular?) ==> n == -1 && out == old(out)
    {
      if path !in files || files[path].Directory? {
        return -1;
      }
      var body := files[path].body;
      var r := 0;
      while r < |body|
        invariant 0 <= r <= |body| && out == old(out) + body[..r]
      {
        n := if |body| - r > CHUNK then CHUNK else |body| - r;
        assert body[..r] + body[r..r + n] == body[..r + n];
        out := out + body[r..r + n];
        r := r + n;
      }
      assert body[..r] == body;
      var z := Aligned(|body|) - r;
      if z != 0 {
        out := out + Zeros(z);
      }
      n := r + z;
      assert out == old(out) + Padded(body);
    }

    /** First, the bodies of this level. */
    method WriteBodies(aentry: Ptr, path: Path, ghost ts: Level, ghost f: Forest, ghost next: nat) returns (n: int)
      requires Linked(mem, aentry, ts) && Indexed(mem, ts, f, next) && Keeps(files, path, f)
      modifies this`out
      ensures n == 0 && out == old(out) + Bodies(f)
    {
      hide Linked, Indexed, Keeps, BodyOf, SizeOf;
      ghost var rest: Level, g: Forest, k: nat := ts, f, next;
      IndexedLength(mem, ts, f, next);
      FirstOf(mem, aentry, ts);
      var e := aentry;
      while e != NULL
        invariant Linked(mem, e, rest) && Indexed(mem, rest, g, k) && |rest| == |g| && Keeps(files, path, g)
        invariant out + Bodies(g) == old(out) + Bodies(f)
        decreases rest
      {
        FirstOf(mem, e, rest);
        FirstIndexed(mem, rest, g, k);
        FirstKept(files, path, g);
        var te := mem[e].te;
        if !te.dir && te.size != 0 {
          n := GzCopy(path + [te.name]);
          if n < 0 {
            return -1;
          }
        }
        e := mem[e].nxt;
        rest, g, k := rest[1..], g[1..], k + Below(g[0]);
      }
      FirstOf(mem, e, rest);
      n := 0;
    }

    /** The bodies of a level, then those of each of its directories. */
    method WriteData(aentry: Ptr, path: Path, ghost ts: Level, ghost f: Forest, ghost next: nat) returns (n: int)
      requires Linked(mem, aentry, ts) && Indexed(mem, ts, f, next) && Keeps(files, path, f)
      modifies this`out
      ensures n == 0 && out == old(out) + Data(f)
      decreases ts
    {
      hide Linked, Indexed, Keeps, Data, Bodies;
      DataParts(f);
      Associates(out, Bodies(f), SubData(f));
      n := WriteBodies(aentry, path, ts, f, next);
      ghost var out1 := out;
      ghost var rest: Level, g: Forest, k: nat := ts, f, next;
      IndexedLength(mem, ts, f, next);
      FirstOf(mem, aentry, ts);
      var e := aentry;
      while e != NULL
        invariant Linked(mem, e, rest) && Indexed(mem, rest, g, k) && |rest| == |g| && Keeps(files, path, g)
        invariant out + SubData(g) == out1 + SubData(f)
        decreases rest
      {
        FirstOf(mem, e, rest);
        FirstIndexed(mem, rest, g, k);
        FirstKept(files, path, g);
        var te := mem[e].te;
        if te.dir {
          n := WriteData(mem[e].son, path + [te.name], rest[0].kids, g[0].items, k + |g[0].items|);
          if n < 0 {
            return -1;
          }
        }
        e := mem[e].nxt;
        rest, g, k := rest[1..], g[1..], k + Below(g[0]);
      }
      FirstOf(mem, e, rest);
      n := 0;
    }

    /** Write the archive of a directory, as far as its entries go into one; the number of entries. */
    method DcarArchive(path: Path, alloc: set<Ptr> -> Ptr, ghost f: Forest) returns (count: int)
      requires Source(files, path, f) && Lists(listing, path, f) && Strings(f) && Count(f) < SIZE_LIMIT
      requires Allocator(alloc)
      requires out == []
      modifies this
      ensures var g := Cut(f); count == Count(g) < SIZE_LIMIT && AllOk(Table(g, 0)) && out == Archive(g)
    {
      hide Source, Keeps, Lists, Strings, Storable, Cut, Allocator, Added, AllOk, Table, EncodeTable, Data;
      hide SetIndices, Linked, Listed, Indexed, OnlyDirs;
      ghost var g := Cut(f);
      CutCount(f);
      CutStorable(f);
      TableOk(g, 0);
      SourceKeeps(files, path, f);
      var root := Calloc(alloc);
      mem := mem[root := AEntry(NULL, NULL, Te([], 0, true, true))];
      ghost var ts: Level;
      count, ts := Add(path, root, alloc, f);
      AddedIs(mem, root, ts, g);
      ghost var m := mem;
      var son := mem[root].son;
      ListedOnlyDirs(mem, ts, g);
      var last := MakeDirIndex(son, 0, ts);
      IndexingIndexes(m, ts, g, |ts|);
      IndexingKeepsLinks(m, ts, |ts|);
      LinksAreEnough(m, mem, son, ts);
      out := MAGIC + Encode32(count);
      WriteEntries(son, ts, g, 0);
      var n := WriteData(son, path, ts, g, |g|);
    }
  }
}
