/** A directory forest, its entry table and its data stream, and the recursion that reads them back. */
module DcarTree {
  import opened DcarFormat

  datatype Item = File(name: Bytes, body: Bytes) | Dir(name: Bytes, items: seq<Item>)

  type Forest = seq<Item>
  type Path = seq<Bytes>

  datatype Node = Directory | Regular(body: Bytes)

  type Files = map<Path, Node>

  /** What the format can hold: names that are C strings of less than 32 bytes, or of 32 for an empty file, and sizes
      of 30 bits. */
  predicate ItemHolds(item: Item) {
    && IsString(item.name)
    && (|item.name| < NAME_SIZE || (|item.name| == NAME_SIZE && item == File(item.name, [])))
    && (item.File? ==> |item.body| < SIZE_LIMIT)
  }

  ghost predicate Holds(f: Forest) {
    f != [] ==> ItemHolds(f[0]) && (f[0].Dir? ==> Holds(f[0].items)) && Holds(f[1..])
  }

  // ----- what the writer writes

  function Count(f: Forest): (n: nat)
    ensures n >= |f|
  {
    if f == [] then 0 else 1 + Below(f[0]) + Count(f[1..])
  }

  function Below(item: Item): nat {
    if item.Dir? then Count(item.items) else 0
  }

  /** The entries of one level; next is the index of the first entry below it. */
  function Entries(f: Forest, next: nat): (t: seq<Te>)
    ensures |t| == |f|
  {
    if f == [] then [] else [Entry(f[0], next, |f| == 1)] + Entries(f[1..], next + Below(f[0]))
  }

  /** An empty directory has no child, which index 0 says. */
  function Entry(item: Item, next: nat, end: bool): Te {
    if item.Dir? then Te(item.name, if item.items == [] then 0 else next, true, end)
    else Te(item.name, SizeOf(item), false, end)
  }

  /** What the 30 bits keep of the size of a file. */
  function SizeOf(item: Item): nat { if item.File? then |item.body| % SIZE_LIMIT else 0 }

  /** The tables below one level, one directory after the other. */
  function SubTables(f: Forest, next: nat): (t: seq<Te>)
    ensures |t| == Count(f) - |f|
    decreases f, 0
  {
    if f == [] then []
    else (if f[0].Dir? then Table(f[0].items, next) else []) + SubTables(f[1..], next + Below(f[0]))
  }

  /** The table of a forest whose first entry has index base. */
  function Table(f: Forest, base: nat): (t: seq<Te>)
    ensures |t| == Count(f)
    decreases f, 1
  {
    Entries(f, base + |f|) + SubTables(f, base + |f|)
  }

  /** A file is copied as it is, unless the entry says that it is empty. */
  function BodyOf(item: Item): Bytes { if SizeOf(item) != 0 then Padded(item.body) else [] }

  function Bodies(f: Forest): Bytes {
    if f == [] then [] else BodyOf(f[0]) + Bodies(f[1..])
  }

  function SubData(f: Forest): Bytes
    decreases f, 0
  {
    if f == [] then [] else (if f[0].Dir? then Data(f[0].items) else []) + SubData(f[1..])
  }

  /** All bodies of a level, and then those below it. */
  function Data(f: Forest): Bytes
    decreases f, 1
  {
    Bodies(f) + SubData(f)
  }

  // ----- the reader

  /** The size of the copy buffer. */
  const CHUNK := 512

  datatype State = State(pos: nat, files: Files)

  datatype Outcome = Outcome(ok: bool, state: State, count: nat)

  /** Child indices point strictly forward. */
  ghost predicate Forward(t: seq<Te>) {
    forall i :: 0 <= i < |t| && t[i].dir && t[i].size != 0 ==> t[i].size > i
  }

  /** The directory at a path, made if there is nothing there. */
  function CreateDir(s: State, path: Path): Outcome {
    if path in s.files then Outcome(s.files[path].Directory?, s, 0)
    else Outcome(true, s.(files := s.files[path := Directory]), 0)
  }

  /** The body and its padding, taken from the stream; a stream that ends too early leaves the whole chunks there
      were. */
  function ExtractFile(stream: Bytes, s: State, path: Path, size: nat): Outcome
    requires s.pos <= |stream|
  {
    if path in s.files && s.files[path].Directory? then Outcome(false, s, 0)
    else if s.pos + size > |stream| then
      var whole := (|stream| - s.pos) / CHUNK * CHUNK;
      Outcome(false, State(|stream|, s.files[path := Regular(stream[s.pos..s.pos + whole])]), 0)
    else
      var files := s.files[path := Regular(stream[s.pos..s.pos + size])];
      if s.pos + Aligned(size) > |stream| then Outcome(false, State(|stream|, files), 0)
      else Outcome(true, State(s.pos + Aligned(size), files), 0)
  }

  function ReadEntry(t: seq<Te>, stream: Bytes, n: nat, path: Path, s: State): (o: Outcome)
    requires n < |t| && s.pos <= |stream|
    ensures s.pos <= o.state.pos <= |stream|
  {
    var at := path + [t[n].name];
    if t[n].dir then CreateDir(s, at) else ExtractFile(stream, s, at, t[n].size)
  }

  /** The entries of a level, up to its end flag. */
  function ReadLevel(t: seq<Te>, stream: Bytes, n: nat, path: Path, s: State, count: nat): (o: Outcome)
    requires s.pos <= |stream|
    ensures s.pos <= o.state.pos <= |stream|
    decreases |t| - n
  {
    if n >= |t| then Outcome(false, s, count)
    else
      var o := ReadEntry(t, stream, n, path, s);
      if !o.ok then Outcome(false, o.state, count + 1)
      else if t[n].end then Outcome(true, o.state, count + 1)
      else ReadLevel(t, stream, n + 1, path, o.state, count + 1)
  }

  /** The directories of a level, each read from the index it gives. */
  function ReadSubs(t: seq<Te>, stream: Bytes, n: nat, path: Path, s: State, count: nat): (o: Outcome)
    requires Forward(t) && s.pos <= |stream|
    ensures s.pos <= o.state.pos <= |stream|
    decreases |t| - n, 0
  {
    if n >= |t| then Outcome(false, s, count)
    else
      var o := if t[n].dir && t[n].size != 0 then ReadTree(t, stream, t[n].size, path + [t[n].name], s)
               else Outcome(true, s, 0);
      if !o.ok then Outcome(false, o.state, count)
      else if t[n].end then Outcome(true, o.state, count + o.count)
      else ReadSubs(t, stream, n + 1, path, o.state, count + o.count)
  }

  function ReadTree(t: seq<Te>, stream: Bytes, n: nat, path: Path, s: State): (o: Outcome)
    requires Forward(t) && s.pos <= |stream|
    ensures s.pos <= o.state.pos <= |stream|
    decreases |t| - n, 1
  {
    var o := ReadLevel(t, stream, n, path, s, 0);
    if !o.ok then o else ReadSubs(t, stream, n, path, o.state, o.count)
  }

  // ----- what a forest is in a file system

  ghost predicate NoName(f: Forest, name: Bytes) { forall i :: 0 <= i < |f| ==> f[i].name != name }

  /** Brothers have different names. */
  ghost predicate WellNamed(f: Forest) {
    f != [] ==>
      && NoName(f[1..], f[0].name)
      && (f[0].Dir? ==> WellNamed(f[0].items))
      && WellNamed(f[1..])
  }

  function NodeOf(item: Item): Node {
    if item.Dir? then Directory else Regular(item.body)
  }

  function MakeLevel(files: Files, path: Path, f: Forest): Files
    decreases f
  {
    if f == [] then files else MakeLevel(files[path + [f[0].name] := NodeOf(f[0])], path, f[1..])
  }

  function MakeSubs(files: Files, path: Path, f: Forest): Files
    decreases f, 0
  {
    if f == [] then files
    else MakeSubs(if f[0].Dir? then Make(files, path + [f[0].name], f[0].items) else files, path, f[1..])
  }

  /** The file system after the forest has been put below a path. */
  function Make(files: Files, path: Path, f: Forest): Files
    decreases f, 1
  {
    MakeSubs(MakeLevel(files, path, f), path, f)
  }

  /** Nothing lies below a path. */
  ghost predicate Clear(files: Files, path: Path) {
    forall q {:trigger q in files} :: q in files ==> !(path < q)
  }

  /** What is at a path, if anything, is of the kind of the item. */
  predicate KindFits(files: Files, path: Path, item: Item) {
    path in files ==> (files[path].Directory? <==> item.Dir?)
  }

  ghost predicate LevelFits(files: Files, path: Path, f: Forest) {
    f != [] ==> KindFits(files, path + [f[0].name], f[0]) && LevelFits(files, path, f[1..])
  }

  ghost predicate SubsFit(files: Files, path: Path, f: Forest)
    decreases f, 0
  {
    f != [] ==> (f[0].Dir? ==> TreeFits(files, path + [f[0].name], f[0].items)) && SubsFit(files, path, f[1..])
  }

  /** No file of the forest falls on a directory, and no directory on a file. */
  ghost predicate TreeFits(files: Files, path: Path, f: Forest)
    decreases f, 1
  {
    LevelFits(files, path, f) && SubsFit(files, path, f)
  }

  // ----- the two recursions agree

  predicate At<T(==)>(s: seq<T>, pos: nat, part: seq<T>) {
    pos + |part| <= |s| && s[pos..pos + |part|] == part
  }

  lemma AtParts<T>(s: seq<T>, pos: nat, a: seq<T>, b: seq<T>)
    ensures At(s, pos, a + b) <==> At(s, pos, a) && At(s, pos + |a|, b)
  {
    if At(s, pos, a + b) {
      assert s[pos..pos + |a|] == (a + b)[..|a|] == a;
      assert s[pos + |a|..pos + |a| + |b|] == (a + b)[|a|..] == b;
    }
    if At(s, pos, a) && At(s, pos + |a|, b) {
      assert s[pos..pos + |a + b|] == s[pos..pos + |a|] + s[pos + |a|..pos + |a| + |b|];
    }
  }

  lemma AtHead<T>(s: seq<T>, pos: nat, part: seq<T>)
    requires At(s, pos, part) && part != []
    ensures pos < |s| && s[pos] == part[0] && At(s, pos + 1, part[1..])
  {
    assert part == [part[0]] + part[1..];
    AtParts(s, pos, [part[0]], part[1..]);
    assert s[pos..pos + 1][0] == s[pos];
  }

  lemma PaddedLength(b: Bytes)
    ensures |Padded(b)| == Aligned(|b|) >= |b|
  {
  }

  lemma EntryRead(t: seq<Te>, stream: Bytes, n: nat, path: Path, s: State, item: Item, next: nat, end: bool)
    requires n < |t| && t[n] == Entry(item, next, end) && s.pos <= |stream| && ItemHolds(item)
    requires At(stream, s.pos, BodyOf(item))
    ensures var at := path + [item.name];
      if KindFits(s.files, at, item) then
        ReadEntry(t, stream, n, path, s)
        == Outcome(true, State(s.pos + |BodyOf(item)|, s.files[at := NodeOf(item)]), 0)
      else !ReadEntry(t, stream, n, path, s).ok
  {
    if item.File? {
      PaddedLength(item.body);
      BodyHeld(item);
      AtParts(stream, s.pos, item.body, Zeros(Aligned(|item.body|) - |item.body|));
    } else if path + [item.name] in s.files && s.files[path + [item.name]].Directory? {
      assert s.files[path + [item.name] := Directory] == s.files;
    }
  }

  lemma BodyHeld(item: Item)
    requires ItemHolds(item) && item.File?
    ensures SizeOf(item) == |item.body| && BodyOf(item) == Padded(item.body)
  {
  }

  lemma {:induction false} OtherName(files: Files, path: Path, f: Forest, name: Bytes, node: Node)
    requires NoName(f, name)
    ensures LevelFits(files[path + [name] := node], path, f) <==> LevelFits(files, path, f)
  {
    if f != [] {
      assert f[0].name != name;
      assert (path + [f[0].name])[|path|] == f[0].name && (path + [name])[|path|] == name;
      assert forall i :: 0 <= i < |f[1..]| ==> f[1..][i] == f[i + 1];
      OtherName(files, path, f[1..], name, node);
    }
  }

  lemma {:induction false} LevelRead(t: seq<Te>, stream: Bytes, n: nat, path: Path, s: State, count: nat, f: Forest,
                                     next: nat)
    requires f != [] && At(t, n, Entries(f, next)) && At(stream, s.pos, Bodies(f))
    requires WellNamed(f) && Holds(f) && s.pos <= |stream|
    ensures if LevelFits(s.files, path, f) then
              ReadLevel(t, stream, n, path, s, count)
              == Outcome(true, State(s.pos + |Bodies(f)|, MakeLevel(s.files, path, f)), count + |f|)
            else !ReadLevel(t, stream, n, path, s, count).ok
    decreases f
  {
    hide At, NoName, ReadEntry, BodyOf, NodeOf, ItemHolds, KindFits;
    var head := BodyOf(f[0]);
    var s' := State(s.pos + |head|, s.files[path + [f[0].name] := NodeOf(f[0])]);
    AtHead(t, n, Entries(f, next));
    AtParts(stream, s.pos, head, Bodies(f[1..]));
    EntryRead(t, stream, n, path, s, f[0], next, |f| == 1);
    if KindFits(s.files, path + [f[0].name], f[0]) {
      OtherName(s.files, path, f[1..], f[0].name, NodeOf(f[0]));
      if |f| > 1 {
        LevelRead(t, stream, n + 1, path, s', count + 1, f[1..], next + Below(f[0]));
      } else {
        assert f[1..] == [];
      }
    }
  }

  // ----- what making a forest changes

  /** The same at a path in both. */
  predicate SameAt(files: Files, made: Files, q: Path) {
    (q in files <==> q in made) && (q in files ==> files[q] == made[q])
  }

  lemma {:induction false} MadeLevel(files: Files, path: Path, f: Forest, q: Path)
    requires !(path < q && |q| == |path| + 1)
    ensures SameAt(files, MakeLevel(files, path, f), q)
    decreases f
  {
    if f != [] { MadeLevel(files[path + [f[0].name] := NodeOf(f[0])], path, f[1..], q); }
  }

  lemma {:induction false} MadeSubs(files: Files, path: Path, f: Forest, q: Path)
    requires !(path < q)
    ensures SameAt(files, MakeSubs(files, path, f), q)
    decreases f, 0
  {
    if f != [] {
      if f[0].Dir? {
        if path + [f[0].name] < q { Prefixed(path, f[0].name, q); }
        Made(files, path + [f[0].name], f[0].items, q);
      }
      MadeSubs(if f[0].Dir? then Make(files, path + [f[0].name], f[0].items) else files, path, f[1..], q);
    }
  }

  lemma Prefixed(path: Path, name: Bytes, q: Path)
    requires path + [name] < q
    ensures path < q && |q| > |path| + 1 && q[|path|] == name
  {
    assert path < path + [name];
    assert q[|path|] == (path + [name])[|path|];
  }

  /** Making a forest below a path changes nothing that is not below it. */
  lemma {:induction false} Made(files: Files, path: Path, f: Forest, q: Path)
    requires !(path < q)
    ensures SameAt(files, Make(files, path, f), q)
    decreases f, 1
  {
    MadeLevel(files, path, f, q);
    MadeSubs(MakeLevel(files, path, f), path, f, q);
  }

  /** The same below a path in both. */
  ghost predicate SameBelow(files: Files, made: Files, path: Path) {
    forall q {:trigger SameAt(files, made, q)} :: path < q ==> SameAt(files, made, q)
  }

  lemma {:induction false} FitsSameLevel(files: Files, made: Files, path: Path, f: Forest)
    requires SameBelow(files, made, path)
    ensures LevelFits(files, path, f) <==> LevelFits(made, path, f)
  {
    if f != [] {
      assert path < path + [f[0].name] && SameAt(files, made, path + [f[0].name]);
      FitsSameLevel(files, made, path, f[1..]);
    }
  }

  lemma {:induction false} FitsSameSubs(files: Files, made: Files, path: Path, f: Forest)
    requires forall i :: 0 <= i < |f| && f[i].Dir? ==> SameBelow(files, made, path + [f[i].name])
    ensures SubsFit(files, path, f) <==> SubsFit(made, path, f)
    decreases f, 0
  {
    hide SameBelow;
    if f != [] {
      if f[0].Dir? { FitsSame(files, made, path + [f[0].name], f[0].items); }
      assert forall i :: 0 <= i < |f[1..]| ==> f[1..][i] == f[i + 1];
      FitsSameSubs(files, made, path, f[1..]);
    }
  }

  lemma BelowChild(files: Files, made: Files, path: Path, name: Bytes)
    requires SameBelow(files, made, path)
    ensures SameBelow(files, made, path + [name])
  {
    forall q | path + [name] < q ensures SameAt(files, made, q) { Prefixed(path, name, q); }
  }

  lemma {:induction false} FitsSame(files: Files, made: Files, path: Path, f: Forest)
    requires SameBelow(files, made, path)
    ensures TreeFits(files, path, f) <==> TreeFits(made, path, f)
    decreases f, 1
  {
    FitsSameLevel(files, made, path, f);
    forall i | 0 <= i < |f| ensures SameBelow(files, made, path + [f[i].name]) {
      BelowChild(files, made, path, f[i].name);
    }
    FitsSameSubs(files, made, path, f);
  }

  /** Making the items of one directory does not matter to its brothers. */
  lemma FitsRest(files: Files, path: Path, name: Bytes, items: Forest, f: Forest)
    requires NoName(f, name)
    ensures SubsFit(Make(files, path + [name], items), path, f) <==> SubsFit(files, path, f)
  {
    hide Make;
    var made := Make(files, path + [name], items);
    forall i | 0 <= i < |f| ensures SameBelow(files, made, path + [f[i].name]) {
      forall q | path + [f[i].name] < q ensures SameAt(files, made, q) {
        Prefixed(path, f[i].name, q);
        if path + [name] < q { Prefixed(path, name, q); }
        Made(files, path + [name], items, q);
      }
    }
    FitsSameSubs(files, made, path, f);
  }

  lemma FitsAfterLevel(files: Files, path: Path, f: Forest)
    ensures SubsFit(MakeLevel(files, path, f), path, f) <==> SubsFit(files, path, f)
  {
    hide MakeLevel;
    var made := MakeLevel(files, path, f);
    forall i | 0 <= i < |f| ensures SameBelow(files, made, path + [f[i].name]) {
      forall q | path + [f[i].name] < q ensures SameAt(files, made, q) {
        Prefixed(path, f[i].name, q);
        MadeLevel(files, path, f, q);
      }
    }
    FitsSameSubs(files, made, path, f);
  }

  lemma {:induction false} SubsRead(t: seq<Te>, stream: Bytes, n: nat, path: Path, s: State, count: nat, f: Forest,
                                    next: nat)
    requires f != [] && next > 0 && At(t, n, Entries(f, next)) && At(t, next, SubTables(f, next))
    requires At(stream, s.pos, SubData(f))
    requires WellNamed(f) && Holds(f) && s.pos <= |stream| && Forward(t)
    ensures if SubsFit(s.files, path, f) then
              ReadSubs(t, stream, n, path, s, count)
              == Outcome(true, State(s.pos + |SubData(f)|, MakeSubs(s.files, path, f)), count + Count(f) - |f|)
            else !ReadSubs(t, stream, n, path, s, count).ok
    decreases f, 0
  {
    hide At, WellNamed, Holds, Forward, ReadTree, Table, Data, Make, TreeFits;
    var table := if f[0].Dir? then Table(f[0].items, next) else [];
    var data := if f[0].Dir? then Data(f[0].items) else [];
    var files := if f[0].Dir? then Make(s.files, path + [f[0].name], f[0].items) else s.files;
    AtHead(t, n, Entries(f, next));
    AtParts(t, next, table, SubTables(f[1..], next + Below(f[0])));
    AtParts(stream, s.pos, data, SubData(f[1..]));
    ParseNames(f);
    if f[0].Dir? {
      FitsRest(s.files, path, f[0].name, f[0].items, f[1..]);
      if f[0].items == [] {
        NothingBelow(s.files, path + [f[0].name], next);
      } else {
        TreeRead(t, stream, next, path + [f[0].name], s, f[0].items);
      }
    }
    if f[0].Dir? ==> TreeFits(s.files, path + [f[0].name], f[0].items) {
      var s' := State(s.pos + |data|, files);
      if |f| > 1 {
        AtBound(stream, s.pos, data);
        SubsRead(t, stream, n + 1, path, s', count + Below(f[0]), f[1..], next + Below(f[0]));
      } else {
        assert f[1..] == [] && SubsFit(s.files, path, f[1..]);
      }
    }
  }

  lemma AtBound(stream: Bytes, pos: nat, part: Bytes)
    requires At(stream, pos, part)
    ensures pos + |part| <= |stream|
  {
  }

  lemma ParseNames(f: Forest)
    requires f != []
    ensures WellNamed(f) ==> WellNamed(f[1..]) && (f[0].Dir? ==> WellNamed(f[0].items)) && NoName(f[1..], f[0].name)
    ensures Holds(f) ==> Holds(f[1..]) && (f[0].Dir? ==> Holds(f[0].items))
  {
  }

  lemma NothingBelow(files: Files, path: Path, next: nat)
    ensures Make(files, path, []) == files && Table([], next) == [] && Data([]) == [] && Count([]) == 0
    ensures TreeFits(files, path, [])
  {
  }

  /** Reading a forest's table and data makes the forest, counts its entries and consumes its data, exactly if what is
      already there fits it: files are replaced, directories stay, and everything else is an error. */
  lemma {:induction false} TreeRead(t: seq<Te>, stream: Bytes, n: nat, path: Path, s: State, f: Forest)
    requires f != [] && At(t, n, Table(f, n)) && At(stream, s.pos, Data(f))
    requires WellNamed(f) && Holds(f) && s.pos <= |stream| && Forward(t)
    ensures if TreeFits(s.files, path, f) then
              ReadTree(t, stream, n, path, s)
              == Outcome(true, State(s.pos + |Data(f)|, Make(s.files, path, f)), Count(f))
            else !ReadTree(t, stream, n, path, s).ok
    decreases f, 1
  {
    hide At, WellNamed, Holds, Forward, LevelFits, SubsFit, ReadLevel, ReadSubs, MakeSubs, MakeLevel, Bodies;
    hide SubData, Entries, SubTables;
    var next := n + |f|;
    AtParts(t, n, Entries(f, next), SubTables(f, next));
    AtParts(stream, s.pos, Bodies(f), SubData(f));
    LevelRead(t, stream, n, path, s, 0, f, next);
    FitsAfterLevel(s.files, path, f);
    if LevelFits(s.files, path, f) {
      var s' := State(s.pos + |Bodies(f)|, MakeLevel(s.files, path, f));
      AtBound(stream, s.pos, Bodies(f));
      SubsRead(t, stream, n, path, s', |f|, f, next);
    }
  }
}
