/** The archiver's entry lists: structures linked by nxt and son in an explicit memory, indexed and then written out. */
module DcarEntries {
  import opened DcarFormat
  import opened DcarTree

  type Ptr = nat

  const NULL: Ptr := 0

  datatype AEntry = AEntry(nxt: Ptr, son: Ptr, te: Te)

  type Mem = map<Ptr, AEntry>

  /** Which structures stand for a level and for the levels below it. */
  datatype Shape = Shape(p: Ptr, kids: seq<Shape>)

  type Level = seq<Shape>

  /** The list at p, with all it leads to, has the given shape. */
  ghost predicate Linked(m: Mem, p: Ptr, ts: Level)
    decreases ts
  {
    if ts == [] then p == NULL
    else
      && p == ts[0].p != NULL && p in m
      && Linked(m, m[p].nxt, ts[1..])
      && Linked(m, m[p].son, ts[0].kids)
  }

  function Ptrs(ts: Level): set<Ptr> {
    if ts == [] then {} else {ts[0].p} + Ptrs(ts[0].kids) + Ptrs(ts[1..])
  }

  /** No structure is used twice. */
  ghost predicate Apart(ts: Level) {
    ts != [] ==>
      && ts[0].p !in Ptrs(ts[0].kids) + Ptrs(ts[1..])
      && Ptrs(ts[0].kids) !! Ptrs(ts[1..])
      && Apart(ts[0].kids) && Apart(ts[1..])
  }

  /** The structures hold the forest's entries, before any index is set. */
  ghost predicate Listed(m: Mem, ts: Level, f: Forest) {
    && |ts| == |f|
    && (f != [] ==>
      && ts[0].p in m
      && m[ts[0].p].te == Te(f[0].name, SizeOf(f[0]), f[0].Dir?, |f| == 1)
      && Listed(m, ts[0].kids, if f[0].Dir? then f[0].items else [])
      && Listed(m, ts[1..], f[1..]))
  }

  /** They hold them with every index set; next is the index of the first entry below the level. */
  ghost predicate Indexed(m: Mem, ts: Level, f: Forest, next: nat) {
    && |ts| == |f|
    && (f != [] ==>
      && ts[0].p in m
      && m[ts[0].p].te == Entry(f[0], next, |f| == 1)
      && (f[0].Dir? ==> Indexed(m, ts[0].kids, f[0].items, next + |f[0].items|))
      && Indexed(m, ts[1..], f[1..], next + Below(f[0])))
  }

  // ----- setting the indices

  function Size(ts: Level): nat {
    if ts == [] then 0 else 1 + Size(ts[0].kids) + Size(ts[1..])
  }

  function SetSize(m: Mem, p: Ptr, size: nat): Mem
    requires p in m
  {
    m[p := m[p].(te := m[p].te.(size := size))]
  }

  /** The memory after the indices below a level have been set; next is the index of the first entry below it. */
  function SetIndices(m: Mem, ts: Level, next: nat): Mem
    decreases ts
  {
    if ts == [] then m
    else if ts[0].p !in m || !m[ts[0].p].te.dir then SetIndices(m, ts[1..], next)
    else
      var kids := ts[0].kids;
      var m' := SetIndices(m, kids, next + |kids|);
      if ts[0].p !in m' then m' else
        SetIndices(SetSize(m', ts[0].p, if kids == [] then 0 else next), ts[1..], next + Size(kids))
  }

  /** Only sizes differ. */
  ghost predicate SameLinks(m: Mem, m': Mem) {
    && m.Keys == m'.Keys
    && forall p {:trigger m'[p]} :: p in m ==> m'[p] == m[p].(te := m[p].te.(size := m'[p].te.size))
  }

  lemma {:induction false} IndexingKeepsLinks(m: Mem, ts: Level, next: nat)
    ensures SameLinks(m, SetIndices(m, ts, next))
    decreases ts
  {
    if ts == [] {
    } else if ts[0].p !in m || !m[ts[0].p].te.dir {
      IndexingKeepsLinks(m, ts[1..], next);
    } else {
      var kids := ts[0].kids;
      IndexingKeepsLinks(m, kids, next + |kids|);
      var m' := SetIndices(m, kids, next + |kids|);
      IndexingKeepsLinks(SetSize(m', ts[0].p, if kids == [] then 0 else next), ts[1..], next + Size(kids));
    }
  }

  lemma {:induction false} LinksAreEnough(m: Mem, m': Mem, p: Ptr, ts: Level)
    requires SameLinks(m, m')
    ensures Linked(m, p, ts) ==> Linked(m', p, ts)
    decreases ts
  {
    if ts != [] && p in m {
      LinksAreEnough(m, m', m[p].nxt, ts[1..]);
      LinksAreEnough(m, m', m[p].son, ts[0].kids);
    }
  }

  ghost predicate SameOff(m: Mem, m': Mem, s: set<Ptr>) { forall p :: p in m && p !in s ==> p in m' && m'[p] == m[p] }

  /** Setting the indices of a level leaves every structure outside it alone. */
  lemma {:induction false} IndexingStays(m: Mem, ts: Level, next: nat)
    ensures SameOff(m, SetIndices(m, ts, next), Ptrs(ts))
    decreases ts
  {
    if ts == [] {
    } else if ts[0].p !in m || !m[ts[0].p].te.dir {
      IndexingStays(m, ts[1..], next);
    } else {
      var kids := ts[0].kids;
      IndexingKeepsLinks(m, kids, next + |kids|);
      IndexingStays(m, kids, next + |kids|);
      var m' := SetIndices(m, kids, next + |kids|);
      IndexingStays(SetSize(m', ts[0].p, if kids == [] then 0 else next), ts[1..], next + Size(kids));
    }
  }

  ghost predicate SameOn(m: Mem, m': Mem, s: set<Ptr>) { forall p :: p in s && p in m ==> p in m' && m'[p] == m[p] }

  lemma {:induction false} ListedSame(m: Mem, m': Mem, ts: Level, f: Forest)
    requires Listed(m, ts, f) && SameOn(m, m', Ptrs(ts))
    ensures Listed(m', ts, f)
    decreases ts
  {
    if ts != [] {
      assert ts[0].p in Ptrs(ts);
      ListedSame(m, m', ts[0].kids, if f[0].Dir? then f[0].items else []);
      ListedSame(m, m', ts[1..], f[1..]);
    }
  }

  lemma {:induction false} IndexedSame(m: Mem, m': Mem, ts: Level, f: Forest, next: nat)
    requires Indexed(m, ts, f, next) && SameOn(m, m', Ptrs(ts))
    ensures Indexed(m', ts, f, next)
    decreases ts
  {
    if ts != [] {
      assert ts[0].p in Ptrs(ts);
      if f[0].Dir? { IndexedSame(m, m', ts[0].kids, f[0].items, next + |f[0].items|); }
      IndexedSame(m, m', ts[1..], f[1..], next + Below(f[0]));
    }
  }

  lemma {:induction false} SizeIsCount(m: Mem, ts: Level, f: Forest)
    requires Listed(m, ts, f)
    ensures Size(ts) == Count(f)
    decreases ts
  {
    if ts != [] {
      SizeIsCount(m, ts[0].kids, if f[0].Dir? then f[0].items else []);
      SizeIsCount(m, ts[1..], f[1..]);
    }
  }

  /** The first entry's index, set between those of its own level below and those of its brothers, stays. */
  lemma HeadIndexed(m: Mem, ts: Level, f: Forest, next: nat, m1: Mem, m2: Mem, m3: Mem)
    requires Listed(m, ts, f) && Apart(ts) && f != [] && f[0].Dir? && SameLinks(m, m1)
    requires m2 == SetSize(m1, ts[0].p, if ts[0].kids == [] then 0 else next)
    requires Indexed(m1, ts[0].kids, f[0].items, next + |ts[0].kids|)
    requires SameOff(m2, m3, Ptrs(ts[1..]))
    ensures ts[0].p in m3
    ensures m3[ts[0].p].te == Entry(f[0], next, |f| == 1)
    ensures Indexed(m3, ts[0].kids, f[0].items, next + |ts[0].kids|)
  {
    var p, kids := ts[0].p, ts[0].kids;
    forall q | q in Ptrs(kids) && q in m1 ensures q in m3 && m3[q] == m1[q] {
      assert q !in Ptrs(ts[1..]) && q != p;
    }
    hide Ptrs, Apart;
    IndexedSame(m1, m3, kids, f[0].items, next + |kids|);
  }

  lemma RestListed(m: Mem, ts: Level, f: Forest, m1: Mem, size: nat)
    requires Listed(m, ts, f) && Apart(ts) && f != [] && ts[0].p in m1
    requires SameOff(m, m1, Ptrs(ts[0].kids))
    ensures Listed(SetSize(m1, ts[0].p, size), ts[1..], f[1..]) && Apart(ts[1..])
  {
    var m2 := SetSize(m1, ts[0].p, size);
    forall q | q in Ptrs(ts[1..]) && q in m ensures q in m2 && m2[q] == m[q] {
      assert q !in Ptrs(ts[0].kids) && q != ts[0].p;
    }
    hide Ptrs, Apart;
    ListedSame(m, m2, ts[1..], f[1..]);
  }

  lemma OneStep(m: Mem, ts: Level, next: nat)
    requires ts != [] && ts[0].p in m
    ensures !m[ts[0].p].te.dir ==> SetIndices(m, ts, next) == SetIndices(m, ts[1..], next)
    ensures m[ts[0].p].te.dir ==>
      var m1 := SetIndices(m, ts[0].kids, next + |ts[0].kids|);
      ts[0].p in m1 && SetIndices(m, ts, next)
        == SetIndices(SetSize(m1, ts[0].p, if ts[0].kids == [] then 0 else next), ts[1..], next + Size(ts[0].kids))
  {
    IndexingKeepsLinks(m, ts[0].kids, next + |ts[0].kids|);
  }

  lemma HeadListed(m: Mem, ts: Level, f: Forest)
    requires Listed(m, ts, f) && f != [] && Apart(ts)
    ensures |ts| == |f| && ts[0].p in m && m[ts[0].p].te == Te(f[0].name, SizeOf(f[0]), f[0].Dir?, |f| == 1)
    ensures Listed(m, ts[0].kids, if f[0].Dir? then f[0].items else [])
    ensures Listed(m, ts[1..], f[1..]) && Apart(ts[0].kids) && Apart(ts[1..])
    ensures |ts[0].kids| == if f[0].Dir? then |f[0].items| else 0
    ensures ts[0].p !in Ptrs(ts[1..])
  {
  }

  lemma HeadStays(m: Mem, ts: Level, f: Forest, next: nat)
    requires Listed(m, ts, f) && Apart(ts) && f != []
    ensures ts[0].p in SetIndices(m, ts[1..], next) && SetIndices(m, ts[1..], next)[ts[0].p] == m[ts[0].p]
  {
    IndexingStays(m, ts[1..], next);
  }

  lemma IndexedIs(m: Mem, ts: Level, f: Forest, next: nat)
    requires |ts| == |f| && f != [] && ts[0].p in m && m[ts[0].p].te == Entry(f[0], next, |f| == 1)
    requires f[0].Dir? ==> Indexed(m, ts[0].kids, f[0].items, next + |f[0].items|)
    requires Indexed(m, ts[1..], f[1..], next + Below(f[0]))
    ensures Indexed(m, ts, f, next)
  {
  }

  /** What lies below the first directory is indexed, and its brothers are still to come. */
  lemma {:induction false} DirBelow(m: Mem, ts: Level, f: Forest, next: nat) returns (m1: Mem)
    requires f != [] && |ts| == |f| && f[0].Dir? && Listed(m, ts, f) && Apart(ts)
    ensures m1 == SetIndices(m, ts[0].kids, next + |ts[0].kids|) && SameLinks(m, m1) && ts[0].p in m && ts[0].p in m1
    ensures Indexed(m1, ts[0].kids, f[0].items, next + |ts[0].kids|) && |ts[0].kids| == |f[0].items|
    ensures Listed(SetSize(m1, ts[0].p, if ts[0].kids == [] then 0 else next), ts[1..], f[1..])
    ensures Apart(ts[1..]) && Size(ts[0].kids) == Below(f[0]) && m[ts[0].p].te.dir
    decreases ts, 0
  {
    HeadListed(m, ts, f);
    hide Ptrs, SameOn, SetIndices, Listed, Indexed, Apart, Entry, Count, Size, SameLinks, SameOff, SetSize;
    OneStep(m, ts, next);
    var kids := ts[0].kids;
    m1 := SetIndices(m, kids, next + |kids|);
    IndexingIndexes(m, kids, f[0].items, next + |kids|);
    IndexingStays(m, kids, next + |kids|);
    IndexingKeepsLinks(m, kids, next + |kids|);
    SizeIsCount(m, kids, f[0].items);
    RestListed(m, ts, f, m1, if kids == [] then 0 else next);
  }

  lemma {:induction false} DirIndexes(m: Mem, ts: Level, f: Forest, next: nat)
    requires f != [] && |ts| == |f| && f[0].Dir? && Listed(m, ts, f) && Apart(ts)
    ensures Indexed(SetIndices(m, ts, next), ts, f, next)
    decreases ts, 1
  {
    hide Ptrs, SameOn, SetIndices, Listed, Indexed, Apart, Entry, Count, Size, SameLinks, SameOff, SetSize;
    var m1 := DirBelow(m, ts, f, next);
    OneStep(m, ts, next);
    var kids := ts[0].kids;
    var m2 := SetSize(m1, ts[0].p, if kids == [] then 0 else next);
    var m3 := SetIndices(m2, ts[1..], next + Size(kids));
    IndexingStays(m2, ts[1..], next + Size(kids));
    IndexingIndexes(m2, ts[1..], f[1..], next + Size(kids));
    HeadIndexed(m, ts, f, next, m1, m2, m3);
    IndexedIs(m3, ts, f, next);
  }

  /** Only directories have something below them. */
  ghost predicate OnlyDirs(m: Mem, ts: Level) {
    ts != [] ==>
      && ts[0].p in m && (ts[0].kids != [] ==> m[ts[0].p].te.dir)
      && OnlyDirs(m, ts[0].kids) && OnlyDirs(m, ts[1..])
  }

  lemma {:induction false} OnlyDirsStays(m: Mem, m': Mem, ts: Level)
    requires OnlyDirs(m, ts) && SameLinks(m, m')
    ensures OnlyDirs(m', ts)
    decreases ts
  {
    if ts != [] {
      OnlyDirsStays(m, m', ts[0].kids);
      OnlyDirsStays(m, m', ts[1..]);
    }
  }

  lemma {:induction false} ListedOnlyDirs(m: Mem, ts: Level, f: Forest)
    requires Listed(m, ts, f)
    ensures OnlyDirs(m, ts)
    decreases ts
  {
    if ts != [] {
      ListedOnlyDirs(m, ts[0].kids, if f[0].Dir? then f[0].items else []);
      ListedOnlyDirs(m, ts[1..], f[1..]);
    }
  }

  /** After the indices have been set, the structures hold the forest's table. */
  lemma {:induction false} IndexingIndexes(m: Mem, ts: Level, f: Forest, next: nat)
    requires Listed(m, ts, f) && Apart(ts)
    ensures Indexed(SetIndices(m, ts, next), ts, f, next)
    decreases ts, 2
  {
    if ts != [] {
      if f[0].Dir? {
        DirIndexes(m, ts, f, next);
      } else {
        hide Ptrs, SameOn, SetIndices, Apart, Indexed;
        HeadListed(m, ts, f);
        OneStep(m, ts, next);
        HeadStays(m, ts, f, next);
        IndexingIndexes(m, ts[1..], f[1..], next);
        IndexedIs(SetIndices(m, ts, next), ts, f, next);
      }
    } else {
      hide SetIndices;
    }
  }
}
