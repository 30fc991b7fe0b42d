/** What a forest means as a file system, independently of how the reader makes it. */
module DcarMeaning {
  import opened DcarFormat
  import opened DcarTree
  import opened DcarArchive
  import opened DcarCut

  datatype Found = Nothing | Something(node: Node)

  function Get(files: Files, q: Path): Found { if q in files then Something(files[q]) else Nothing }

  /** The index of the entry with a name; the number of entries if there is none. */
  function Named(f: Forest, name: Bytes): (i: nat)
    ensures i <= |f| && (i < |f| ==> f[i].name == name)
  {
    if f == [] || f[0].name == name then 0 else 1 + Named(f[1..], name)
  }

  /** What a relative path leads to, from name to name. */
  function Lookup(f: Forest, r: Path): Found
    decreases r
  {
    if r == [] || Named(f, r[0]) == |f| then Nothing
    else
      var item := f[Named(f, r[0])];
      if |r| == 1 then Something(NodeOf(item))
      else if item.Dir? then Lookup(item.items, r[1..])
      else Nothing
  }

  lemma {:induction false} NoNamed(f: Forest, name: Bytes)
    ensures NoName(f, name) <==> Named(f, name) == |f|
  {
    if f != [] {
      NoNamed(f[1..], name);
      if f[0].name == name { assert !NoName(f, name); } else { NoNameSplit(f, name); }
    }
  }

  lemma NoNameSplit(f: Forest, name: Bytes)
    requires f != [] && f[0].name != name
    ensures NoName(f, name) <==> NoName(f[1..], name)
  {
    if NoName(f[1..], name) {
      forall i | 0 <= i < |f| ensures f[i].name != name {
        if i > 0 { assert f[i] == f[1..][i - 1]; }
      }
    }
    if NoName(f, name) {
      forall i | 0 <= i < |f[1..]| ensures f[1..][i].name != name { assert f[1..][i] == f[i + 1]; }
    }
  }

  lemma Extends(path: Path, name: Bytes, q: Path)
    ensures path + [name] < q <==> path < q && |q| > |path| + 1 && q[|path|] == name
    ensures path + [name] == q <==> path < q && |q| == |path| + 1 && q[|path|] == name
    ensures path + [name] < q ==> q[|path + [name]|..] == q[|path| + 1..]
  {
    if path < q && q[|path|] == name {
      assert q[..|path| + 1] == path + [name];
    }
  }

  lemma {:induction false} LevelMeaning(files: Files, path: Path, f: Forest, q: Path)
    requires WellNamed(f)
    ensures Get(MakeLevel(files, path, f), q) == if path < q && |q| == |path| + 1 && Named(f, q[|path|]) < |f|
      then Something(NodeOf(f[Named(f, q[|path|])])) else Get(files, q)
    decreases f
  {
    if f != [] {
      var files' := files[path + [f[0].name] := NodeOf(f[0])];
      LevelMeaning(files', path, f[1..], q);
      Extends(path, f[0].name, q);
      NoNamed(f[1..], f[0].name);
    }
  }

  /** What the directories of a level hold at path q. */
  function Inside(f: Forest, path: Path, q: Path): Found
    requires path < q
  {
    var i := Named(f, q[|path|]);
    if |q| > |path| + 1 && i < |f| && f[i].Dir? then Lookup(f[i].items, q[|path| + 1..]) else Nothing
  }

  lemma {:induction false} SubsMeaning(files: Files, path: Path, f: Forest, q: Path)
    requires WellNamed(f)
    ensures Get(MakeSubs(files, path, f), q)
      == if path < q && Inside(f, path, q) != Nothing then Inside(f, path, q) else Get(files, q)
    decreases f, 0
  {
    hide WellNamed, Lookup, Make;
    if f != [] {
      ParseNames(f);
      FirstName(f);
      Extends(path, f[0].name, q);
      var files' := if f[0].Dir? then Make(files, path + [f[0].name], f[0].items) else files;
      SubsMeaning(files', path, f[1..], q);
      if f[0].Dir? { TreeMeaning(files, path + [f[0].name], f[0].items, q); }
    }
  }

  lemma FirstName(f: Forest)
    requires f != [] && WellNamed(f)
    ensures Named(f[1..], f[0].name) == |f| - 1
  {
    NoNamed(f[1..], f[0].name);
  }

  /** Making a forest below a path makes exactly what the forest's names lead to, and leaves everything else. */
  lemma {:induction false} TreeMeaning(files: Files, path: Path, f: Forest, q: Path)
    requires WellNamed(f)
    ensures Get(Make(files, path, f), q)
      == if path < q && Lookup(f, q[|path|..]).Something? then Lookup(f, q[|path|..]) else Get(files, q)
    decreases f, 1
  {
    hide MakeSubs, MakeLevel, WellNamed;
    LevelMeaning(files, path, f, q);
    SubsMeaning(MakeLevel(files, path, f), path, f, q);
  }

  // ----- what may be there already

  /** At no path is there a directory where the forest has a file, or a file where it has a directory. */
  ghost predicate NothingInTheWay(f: Forest, path: Path, files: Files) {
    forall r {:trigger Lookup(f, r)} :: Lookup(f, r).Something? && path + r in files ==>
      (files[path + r].Directory? <==> Lookup(f, r).node.Directory?)
  }

  lemma LevelFitsAt(files: Files, path: Path, f: Forest, i: nat)
    requires i < |f| && LevelFits(files, path, f)
    ensures KindFits(files, path + [f[i].name], f[i])
  {
    if i > 0 { LevelFitsAt(files, path, f[1..], i - 1); }
  }

  lemma SubsFitAt(files: Files, path: Path, f: Forest, i: nat)
    requires i < |f| && SubsFit(files, path, f) && f[i].Dir?
    ensures TreeFits(files, path + [f[i].name], f[i].items)
  {
    if i > 0 { SubsFitAt(files, path, f[1..], i - 1); }
  }

  /** What fits has nothing in the way. */
  lemma {:induction false} FitsNoWhere(files: Files, path: Path, f: Forest, r: Path)
    requires TreeFits(files, path, f) && Lookup(f, r).Something? && path + r in files
    ensures files[path + r].Directory? <==> Lookup(f, r).node.Directory?
    decreases f
  {
    var i := Named(f, r[0]);
    if |r| == 1 {
      assert r == [r[0]];
      LevelFitsAt(files, path, f, i);
    } else {
      SubsFitAt(files, path, f, i);
      assert path + r == path + [f[i].name] + r[1..];
      FitsNoWhere(files, path + [f[i].name], f[i].items, r[1..]);
    }
  }

  lemma FirstLookup(f: Forest)
    requires f != []
    ensures Lookup(f, [f[0].name]) == Something(NodeOf(f[0]))
  {
  }

  lemma RestLookup(f: Forest, r: Path)
    requires f != [] && WellNamed(f) && Lookup(f[1..], r).Something?
    ensures Lookup(f, r) == Lookup(f[1..], r)
  {
    FirstName(f);
  }

  lemma {:induction false} NoWhereLevel(files: Files, path: Path, f: Forest)
    requires WellNamed(f) && NothingInTheWay(f, path, files)
    ensures LevelFits(files, path, f)
  {
    if f != [] {
      FirstLookup(f);
      assert Lookup(f, [f[0].name]).Something?;
      NoWhereRest(files, path, f);
      NoWhereLevel(files, path, f[1..]);
    }
  }

  lemma NoWhereRest(files: Files, path: Path, f: Forest)
    requires f != [] && WellNamed(f) && NothingInTheWay(f, path, files)
    ensures NothingInTheWay(f[1..], path, files)
  {
    hide Lookup;
    forall r | Lookup(f[1..], r).Something? && path + r in files
      ensures files[path + r].Directory? <==> Lookup(f[1..], r).node.Directory?
    {
      RestLookup(f, r);
      assert Lookup(f, r).Something?;
    }
  }

  lemma NoWhereBelow(files: Files, path: Path, f: Forest)
    requires f != [] && f[0].Dir? && NothingInTheWay(f, path, files)
    ensures NothingInTheWay(f[0].items, path + [f[0].name], files)
  {
    forall r | Lookup(f[0].items, r).Something? && path + [f[0].name] + r in files
      ensures files[path + [f[0].name] + r].Directory? <==> Lookup(f[0].items, r).node.Directory?
    {
      LookupBelow(f, r);
      assert path + ([f[0].name] + r) == path + [f[0].name] + r;
      assert Lookup(f, [f[0].name] + r).Something?;
    }
  }

  lemma {:induction false} NoWhereSubs(files: Files, path: Path, f: Forest)
    requires WellNamed(f) && NothingInTheWay(f, path, files)
    ensures SubsFit(files, path, f)
    decreases f
  {
    hide NothingInTheWay, LevelFits, WellNamed;
    if f != [] {
      ParseNames(f);
      if f[0].Dir? {
        NoWhereBelow(files, path, f);
        NoWhereLevel(files, path + [f[0].name], f[0].items);
        NoWhereSubs(files, path + [f[0].name], f[0].items);
      }
      NoWhereRest(files, path, f);
      NoWhereSubs(files, path, f[1..]);
    }
  }

  lemma FitsIff(files: Files, path: Path, f: Forest)
    requires WellNamed(f)
    ensures TreeFits(files, path, f) <==> NothingInTheWay(f, path, files)
  {
    if TreeFits(files, path, f) {
      forall r | Lookup(f, r).Something? && path + r in files
        ensures files[path + r].Directory? <==> Lookup(f, r).node.Directory?
      {
        FitsNoWhere(files, path, f, r);
      }
    }
    if NothingInTheWay(f, path, files) {
      NoWhereLevel(files, path, f);
      NoWhereSubs(files, path, f);
    }
  }

  /** The forest is below the path, and whatever it does not have is as it was. */
  ghost predicate Overlaid(f: Forest, path: Path, files: Files, made: Files) {
    Get(made, path) == Something(Directory)
    && (forall q {:trigger Get(made, q)} :: path < q && Lookup(f, q[|path|..]).Something? ==>
          Get(made, q) == Lookup(f, q[|path|..]))
    && (forall q {:trigger Get(made, q)} :: q != path && !(path < q && Lookup(f, q[|path|..]).Something?) ==>
          Get(made, q) == Get(files, q))
  }

  /** Writing a forest and extracting it into whatever is there succeeds exactly if nothing is in the way. Then every
      path below the target at which the forest has something holds that, also when something was there before, and
      every other path holds what it held. */
  lemma ExtractedMeaning(f: Forest, path: Path, files: Files)
    requires Holds(f) && WellNamed(f) && Count(f) < SIZE_LIMIT && f != []
    ensures AllOk(Table(f, 0)) && Readable(Archive(f))
    ensures var o := Extract(Archive(f), path, files);
      (o.ok <==> (path in files ==> files[path].Directory?) && NothingInTheWay(f, path, files))
      && (o.ok ==> o.count == Count(f) && o.state.pos == |Archive(f)| && Overlaid(f, path, files, o.state.files))
  {
    RoundTrip(f, path, files);
    FitsIff(files, path, f);
    MakeOverlays(f, path, files);
    hide *;
  }

  lemma MakeOverlays(f: Forest, path: Path, files: Files)
    requires WellNamed(f)
    ensures Overlaid(f, path, files, Make(files[path := Directory], path, f))
  {
    hide Make, WellNamed, Lookup;
    var made := Make(files[path := Directory], path, f);
    forall q ensures Get(made, q)
      == if path < q && Lookup(f, q[|path|..]).Something? then Lookup(f, q[|path|..])
         else Get(files[path := Directory], q)
    {
      TreeMeaning(files[path := Directory], path, f, q);
    }
  }

  lemma ClearFits(f: Forest, path: Path, files: Files)
    requires Clear(files, path)
    ensures NothingInTheWay(f, path, files)
  {
    forall r | Lookup(f, r).Something? ensures path + r !in files { assert path < path + r; }
  }

  // ----- exactly which directories come back

  /** What an entry of an archive can be read as: no name of more than 32 bytes, nothing but an empty file under one of
      32, and no file of 2^30 bytes. */
  ghost predicate Slight(q: Path, node: Node) {
    && q != [] && |q[|q| - 1]| <= NAME_SIZE
    && (|q[|q| - 1]| == NAME_SIZE ==> node == Regular([]))
    && (node.Regular? ==> |node.body| < SIZE_LIMIT)
  }

  ghost predicate OnlySlight(files: Files, made: Files) {
    forall q {:trigger made[q]} :: q in made ==> (q in files && files[q] == made[q]) || Slight(q, made[q])
  }

  ghost predicate TeSlight(te: Te) {
    |te.name| <= NAME_SIZE && (|te.name| == NAME_SIZE ==> !te.dir && te.size == 0) && te.size < SIZE_LIMIT
  }

  ghost predicate AllSlight(t: seq<Te>) { forall i :: 0 <= i < |t| ==> TeSlight(t[i]) }

  lemma EntrySlight(t: seq<Te>, stream: Bytes, n: nat, path: Path, s: State)
    requires n < |t| && s.pos <= |stream| && AllSlight(t)
    ensures OnlySlight(s.files, ReadEntry(t, stream, n, path, s).state.files)
  {
    assert TeSlight(t[n]);
    assert (path + [t[n].name])[|path|] == t[n].name;
  }

  lemma {:induction false} LevelSlight(t: seq<Te>, stream: Bytes, n: nat, path: Path, s: State, count: nat)
    requires s.pos <= |stream| && AllSlight(t)
    ensures OnlySlight(s.files, ReadLevel(t, stream, n, path, s, count).state.files)
    decreases |t| - n
  {
    if n < |t| {
      EntrySlight(t, stream, n, path, s);
      hide ReadEntry, AllSlight, Slight;
      LevelSlight(t, stream, n + 1, path, ReadEntry(t, stream, n, path, s).state, count + 1);
    }
  }

  lemma {:induction false} SubsSlight(t: seq<Te>, stream: Bytes, n: nat, path: Path, s: State, count: nat)
    requires s.pos <= |stream| && AllSlight(t) && Forward(t)
    ensures OnlySlight(s.files, ReadSubs(t, stream, n, path, s, count).state.files)
    decreases |t| - n, 0
  {
    if n < |t| {
      var below := t[n].dir && t[n].size != 0;
      var o := if below then ReadTree(t, stream, t[n].size, path + [t[n].name], s) else Outcome(true, s, 0);
      if below { ReadSlight(t, stream, t[n].size, path + [t[n].name], s); }
      hide ReadTree, AllSlight, Slight;
      SubsSlight(t, stream, n + 1, path, o.state, count + o.count);
    }
  }

  lemma {:induction false} ReadSlight(t: seq<Te>, stream: Bytes, n: nat, path: Path, s: State)
    requires s.pos <= |stream| && AllSlight(t) && Forward(t)
    ensures OnlySlight(s.files, ReadTree(t, stream, n, path, s).state.files)
    decreases |t| - n, 1
  {
    var o := ReadLevel(t, stream, n, path, s, 0);
    LevelSlight(t, stream, n, path, s, 0);
    hide ReadLevel, ReadSubs, AllSlight, Slight, Forward;
    if o.ok { SubsSlight(t, stream, n, path, o.state, o.count); }
  }

  lemma {:induction false} EntriesSlight(f: Forest, next: nat)
    requires Storable(f) && next + Count(f) - |f| < SIZE_LIMIT
    ensures AllSlight(Entries(f, next))
    decreases f
  {
    if f != [] { EntriesSlight(f[1..], next + Below(f[0])); }
  }

  lemma {:induction false} SubTablesSlight(f: Forest, next: nat)
    requires Storable(f) && next + Count(f) - |f| < SIZE_LIMIT
    ensures AllSlight(SubTables(f, next))
    decreases f, 0
  {
    if f != [] {
      if f[0].Dir? { TableSlight(f[0].items, next); }
      SubTablesSlight(f[1..], next + Below(f[0]));
    }
  }

  lemma {:induction false} TableSlight(f: Forest, base: nat)
    requires Storable(f) && base + Count(f) < SIZE_LIMIT
    ensures AllSlight(Table(f, base))
    decreases f, 1
  {
    EntriesSlight(f, base + |f|);
    SubTablesSlight(f, base + |f|);
  }

  lemma LookupRest(f: Forest, r: Path)
    requires f != [] && r != [] && f[0].name != r[0]
    ensures Lookup(f, r) == Lookup(f[1..], r)
  {
  }

  lemma LookupBelow(f: Forest, r: Path)
    requires f != [] && f[0].Dir? && r != []
    ensures Lookup(f, [f[0].name] + r) == Lookup(f[0].items, r)
  {
    assert ([f[0].name] + r)[1..] == r;
  }

  /** What a path leads to starts with the name of one of the items. */
  lemma {:induction false} LookupName(f: Forest, r: Path)
    requires r != [] && NoName(f, r[0])
    ensures Lookup(f, r) == Nothing
  {
    NoNamed(f, r[0]);
  }

  /** A forest that the format cannot hold has something that no archive is read as. */
  lemma {:induction false} NotSlight(f: Forest) returns (r: Path)
    requires Strings(f) && WellNamed(f) && !Holds(f)
    ensures r != [] && Lookup(f, r).Something? && !Slight(r, Lookup(f, r).node)
    decreases f
  {
    if !ItemHolds(f[0]) {
      r := [f[0].name];
    } else if f[0].Dir? && !Holds(f[0].items) {
      var rest := NotSlight(f[0].items);
      LookupBelow(f, rest);
      r := [f[0].name] + rest;
    } else {
      r := NotSlight(f[1..]);
      if r[0] == f[0].name { LookupName(f[1..], r); }
      LookupRest(f, r);
    }
  }

  /** A directory, archived and extracted, is again what it was exactly if the format can hold it: names of less than
      32 bytes, or of 32 for empty files, and sizes of less than 2^30. */
  lemma ExtractedIff(f: Forest, path: Path, files: Files)
    requires Strings(f) && WellNamed(f) && Count(f) < SIZE_LIMIT && f != []
    requires Clear(files, path) && (path in files ==> files[path].Directory?)
    ensures AllOk(Table(Cut(f), 0)) && Count(Cut(f)) < SIZE_LIMIT && Readable(Archive(Cut(f)))
    ensures (forall q :: path < q ==>
        Get(Extract(Archive(Cut(f)), path, files).state.files, q) == Lookup(f, q[|path|..]))
      <==> Holds(f)
  {
    hide Strings, WellNamed, Holds, Table, Archive, AllOk, Readable, Extract, Clear, Lookup;
    CutStorable(f);
    CutCount(f);
    ReadableArchive(Cut(f));
    if Holds(f) {
      HoldsUncut(f);
      ExtractedMeaning(f, path, files);
      ClearFits(f, path, files);
      NotYet(files, path);
    } else {
      var r := NotSlight(f);
      assert path < path + r && (path + r)[|path|..] == r;
      ExtractedSlight(Cut(f), path, files);
      NotExtracted(f, r, path, files, Extract(Archive(Cut(f)), path, files).state.files);
    }
  }

  lemma NotYet(files: Files, path: Path)
    requires Clear(files, path)
    ensures forall q :: path < q ==> Get(files, q) == Nothing
  {
  }

  lemma NotExtracted(f: Forest, r: Path, path: Path, files: Files, made: Files)
    requires r != [] && Lookup(f, r).Something? && !Slight(r, Lookup(f, r).node) && Clear(files, path)
    requires OnlySlight(files[path := Directory], made) || OnlySlight(files, made)
    ensures Get(made, path + r) != Lookup(f, r)
  {
    var q := path + r;
    assert path < q && q != path && q !in files;
    assert q[|q| - 1] == r[|r| - 1];
    assert Slight(q, Lookup(f, r).node) <==> Slight(r, Lookup(f, r).node);
  }

  lemma ExtractedSlight(g: Forest, path: Path, files: Files)
    requires Storable(g) && Count(g) < SIZE_LIMIT && AllOk(Table(g, 0)) && Readable(Archive(g))
    requires path in files ==> files[path].Directory?
    ensures var made := Extract(Archive(g), path, files).state.files;
      OnlySlight(files[path := Directory], made) || OnlySlight(files, made)
  {
    HeaderBack(g);
    TableSlight(g, 0);
    if g != [] {
      SamePath(files, path);
      var t, stream := Table(g, 0), Archive(g);
      ArchiveParts(g);
      hide Table, Archive, AllSlight, ReadTree, Slight, HasTable, TableOf, Header;
      ReadSlight(t, stream, 0, path, State(Body(Count(g)), files[path := Directory]));
    }
  }
}
