/** Whole archives: header, table and data, and that extracting one gives the forest back. */
module DcarArchive {
  import opened DcarFormat
  import opened DcarTree
  import opened DcarCut

  const MAGIC: Bytes := [68, 67, 65, 82]

  lemma {:induction false} EntriesOk(f: Forest, next: nat)
    requires Storable(f) && next + Count(f) - |f| < SIZE_LIMIT
    ensures AllOk(Entries(f, next))
    decreases f
  {
    if f != [] {
      EntriesOk(f[1..], next + Below(f[0]));
    }
  }

  lemma {:induction false} SubTablesOk(f: Forest, next: nat)
    requires Storable(f) && next + Count(f) - |f| < SIZE_LIMIT
    ensures AllOk(SubTables(f, next))
    decreases f, 0
  {
    if f != [] {
      if f[0].Dir? { TableOk(f[0].items, next); }
      SubTablesOk(f[1..], next + Below(f[0]));
    }
  }

  /** Every entry of the table fits its 36 bytes. */
  lemma {:induction false} TableOk(f: Forest, base: nat)
    requires Storable(f) && base + Count(f) < SIZE_LIMIT
    ensures AllOk(Table(f, base))
    decreases f, 1
  {
    EntriesOk(f, base + |f|);
    SubTablesOk(f, base + |f|);
  }

  // ----- indices point forward

  /** Every child index of a table that starts at base is beyond the entry that holds it. */
  ghost predicate Ahead(t: seq<Te>, base: nat) {
    forall i :: 0 <= i < |t| && t[i].dir && t[i].size != 0 ==> t[i].size > base + i
  }

  lemma {:induction false} EntriesAhead(f: Forest, base: nat, next: nat)
    requires next >= base + |f|
    ensures Ahead(Entries(f, next), base)
    decreases f
  {
    if f != [] {
      EntriesAhead(f[1..], base + 1, next + Below(f[0]));
      var t, u := Entries(f, next), Entries(f[1..], next + Below(f[0]));
      forall i | 0 <= i < |t| && t[i].dir && t[i].size != 0 ensures t[i].size > base + i {
        if i > 0 { assert t[i] == u[i - 1]; }
      }
    }
  }

  lemma AheadConcat(t: seq<Te>, u: seq<Te>, base: nat)
    requires Ahead(t, base) && Ahead(u, base + |t|)
    ensures Ahead(t + u, base)
  {
  }

  lemma {:induction false} SubTablesAhead(f: Forest, next: nat)
    ensures Ahead(SubTables(f, next), next)
    decreases f, 0
  {
    if f != [] {
      if f[0].Dir? { TableAhead(f[0].items, next); }
      SubTablesAhead(f[1..], next + Below(f[0]));
      AheadConcat(if f[0].Dir? then Table(f[0].items, next) else [], SubTables(f[1..], next + Below(f[0])), next);
    }
  }

  /** The writer's child indices always point strictly forward. */
  lemma {:induction false} TableAhead(f: Forest, base: nat)
    ensures Ahead(Table(f, base), base)
    decreases f, 1
  {
    EntriesAhead(f, base, base + |f|);
    SubTablesAhead(f, base + |f|);
    AheadConcat(Entries(f, base + |f|), SubTables(f, base + |f|), base);
  }

  // ----- archives

  /** Where the data begins after n entries. */
  function Body(n: nat): nat { 8 + 36 * n }

  function Archive(f: Forest): Bytes
    requires AllOk(Table(f, 0)) && Count(f) < SIZE_LIMIT
  {
    MAGIC + Encode32(Count(f)) + EncodeTable(Table(f, 0)) + Data(f)
  }

  function Header(stream: Bytes): nat
    requires |stream| >= 8
  {
    Decode32(stream[4..8])
  }

  /** Is there a header, with a positive number of entries, and are they all there? */
  predicate HasTable(stream: Bytes) {
    && |stream| >= 8 && stream[..4] == MAGIC
    && 0 < Header(stream) < 0x8000_0000
    && Body(Header(stream)) <= |stream|
  }

  function TableOf(stream: Bytes): seq<Te>
    requires HasTable(stream)
  {
    DecodeTable(stream[8..Body(Header(stream))])
  }

  /** The reader does not check that indices point forward; with one that does not it never ends. */
  ghost predicate Readable(stream: Bytes) { HasTable(stream) ==> Forward(TableOf(stream)) }

  function Extract(stream: Bytes, path: Path, files: Files): Outcome
    requires Readable(stream)
  {
    if !HasTable(stream) then Outcome(false, State(0, files), 0)
    else
      var t := TableOf(stream);
      var d := CreateDir(State(Body(Header(stream)), files), path);
      if !d.ok then d
      else
        var o := ReadTree(t, stream, 0, path, d.state);
        o.(ok := o.ok && o.count == |t|)
  }

  lemma ArchiveParts(f: Forest)
    requires AllOk(Table(f, 0)) && Count(f) < SIZE_LIMIT
    ensures var a := Archive(f);
      |a| == Body(Count(f)) + |Data(f)| && a[..4] == MAGIC && a[4..8] == Encode32(Count(f))
      && a[8..Body(Count(f))] == EncodeTable(Table(f, 0)) && At(a, Body(Count(f)), Data(f))
  {
  }

  lemma WholeTable(t: seq<Te>)
    ensures At(t, 0, t)
  {
  }

  /** The table is read back as it was; an archive of nothing has none. */
  lemma HeaderBack(f: Forest)
    requires AllOk(Table(f, 0)) && Count(f) < SIZE_LIMIT
    ensures HasTable(Archive(f)) <==> f != []
    ensures f != [] ==> Header(Archive(f)) == Count(f) && TableOf(Archive(f)) == Table(f, 0)
  {
    ArchiveParts(f);
    hide Archive, Table, Data, AllOk, EncodeTable, DecodeTable, Encode32, Decode32, At;
    WordRoundTrip(Count(f));
    CountPositive(f);
    TableBack(Table(f, 0));
  }

  lemma AheadForward(t: seq<Te>)
    requires Ahead(t, 0)
    ensures Forward(t)
  {
  }

  /** Whatever the archiver writes can be read, to its end or to an error. */
  lemma ReadableArchive(f: Forest)
    requires Storable(f) && Count(f) < SIZE_LIMIT
    ensures AllOk(Table(f, 0)) && Readable(Archive(f)) && Forward(Table(f, 0))
  {
    TableOk(f, 0);
    TableAhead(f, 0);
    AheadForward(Table(f, 0));
    HeaderBack(f);
    hide Archive, Table, AllOk, HasTable, TableOf, Forward;
  }

  /** The round trip: a forest the format can hold is extracted as it was, with the whole stream consumed and every
      entry counted, exactly if it is not empty and nothing is in its way: a file where the target or one of its
      directories is to be, or a directory where a file is to be. */
  lemma RoundTrip(f: Forest, path: Path, files: Files)
    requires Holds(f) && WellNamed(f) && Count(f) < SIZE_LIMIT
    ensures AllOk(Table(f, 0)) && Readable(Archive(f))
    ensures var o := Extract(Archive(f), path, files);
      if f != [] && (path in files ==> files[path].Directory?) && TreeFits(files, path, f) then
        o == Outcome(true, State(|Archive(f)|, Make(files[path := Directory], path, f)), Count(f))
      else !o.ok
  {
    HoldsStorable(f);
    ReadableArchive(f);
    ArchiveParts(f);
    ExtractIs(f, path, files);
    hide Archive, Table, Data, Make, Holds, Storable, WellNamed, At, ReadTree, AllOk, TreeFits, Body, Extract, Readable,
      Forward;
    if f != [] {
      WholeTable(Table(f, 0));
      TreeRead(Table(f, 0), Archive(f), 0, path, State(Body(Count(f)), files[path := Directory]), f);
      TargetFits(f, path, files);
    }
  }

  /** The steps of extracting an archive. */
  lemma ExtractIs(f: Forest, path: Path, files: Files)
    requires Storable(f) && Count(f) < SIZE_LIMIT
    ensures AllOk(Table(f, 0)) && Readable(Archive(f)) && Forward(Table(f, 0)) && Body(Count(f)) <= |Archive(f)|
    ensures var o := Extract(Archive(f), path, files);
      if f == [] || (path in files && files[path].Regular?) then !o.ok
      else
        var r := ReadTree(Table(f, 0), Archive(f), 0, path, State(Body(Count(f)), files[path := Directory]));
        o == r.(ok := r.ok && r.count == Count(f))
  {
    ReadableArchive(f);
    ArchiveParts(f);
    HeaderBack(f);
    SamePath(files, path);
    hide Archive, Table, Data, Storable, At, ReadTree, AllOk, HasTable, TableOf, Header, Body, Forward;
  }

  lemma TargetFits(f: Forest, path: Path, files: Files)
    ensures TreeFits(files[path := Directory], path, f) <==> TreeFits(files, path, f)
  {
    FitsSame(files, files[path := Directory], path, f);
  }

  // ----- streams that end too early

  lemma EntryTakes(t: seq<Te>, stream: Bytes, n: nat, path: Path, s: State, item: Item, next: nat, end: bool)
    requires n < |t| && t[n] == Entry(item, next, end) && s.pos <= |stream| && ItemHolds(item)
    ensures var o := ReadEntry(t, stream, n, path, s); o.ok ==> o.state.pos == s.pos + |BodyOf(item)|
  {
    if item.File? {
      PaddedLength(item.body);
      BodyHeld(item);
    }
  }

  lemma {:induction false} LevelTakes(t: seq<Te>, stream: Bytes, n: nat, path: Path, s: State, count: nat, f: Forest,
                                      next: nat)
    requires f != [] && At(t, n, Entries(f, next)) && Holds(f) && s.pos <= |stream|
    ensures var o := ReadLevel(t, stream, n, path, s, count); o.ok ==> o.state.pos == s.pos + |Bodies(f)|
    decreases f
  {
    hide At, ReadEntry, BodyOf, ItemHolds;
    AtHead(t, n, Entries(f, next));
    EntryTakes(t, stream, n, path, s, f[0], next, |f| == 1);
    var o := ReadEntry(t, stream, n, path, s);
    if |f| > 1 {
      LevelTakes(t, stream, n + 1, path, o.state, count + 1, f[1..], next + Below(f[0]));
    } else {
      assert f[1..] == [] && Bodies(f[1..]) == [];
    }
  }

  lemma {:induction false} SubsTake(t: seq<Te>, stream: Bytes, n: nat, path: Path, s: State, count: nat, f: Forest,
                                    next: nat)
    requires f != [] && next > 0 && At(t, n, Entries(f, next)) && At(t, next, SubTables(f, next))
    requires WellNamed(f) && Holds(f) && s.pos <= |stream| && Forward(t)
    ensures var o := ReadSubs(t, stream, n, path, s, count); o.ok ==> o.state.pos == s.pos + |SubData(f)|
    decreases f, 0
  {
    hide At, WellNamed, Holds, Forward, ReadTree, Table, Data;
    var table := if f[0].Dir? then Table(f[0].items, next) else [];
    AtHead(t, n, Entries(f, next));
    AtParts(t, next, table, SubTables(f[1..], next + Below(f[0])));
    ParseNames(f);
    var s' := s;
    var more := 0;
    if f[0].Dir? {
      if f[0].items == [] {
        NothingBelow(s.files, path + [f[0].name], next);
      } else {
        TreeTakes(t, stream, next, path + [f[0].name], s, f[0].items);
        var o := ReadTree(t, stream, next, path + [f[0].name], s);
        s', more := o.state, o.count;
      }
    }
    if |f| > 1 {
      SubsTake(t, stream, n + 1, path, s', count + more, f[1..], next + Below(f[0]));
    } else {
      assert f[1..] == [] && SubData(f[1..]) == [];
    }
  }

  /** Whatever the stream is: when reading a forest's table succeeds, it has taken as many bytes as the forest's
      data. */
  lemma {:induction false} TreeTakes(t: seq<Te>, stream: Bytes, n: nat, path: Path, s: State, f: Forest)
    requires f != [] && At(t, n, Table(f, n)) && WellNamed(f) && Holds(f) && s.pos <= |stream| && Forward(t)
    ensures var o := ReadTree(t, stream, n, path, s); o.ok ==> o.state.pos == s.pos + |Data(f)|
    decreases f, 1
  {
    hide At, WellNamed, Holds, Forward, ReadLevel, ReadSubs, Bodies, SubData, Entries, SubTables;
    var next := n + |f|;
    AtParts(t, n, Entries(f, next), SubTables(f, next));
    LevelTakes(t, stream, n, path, s, 0, f, next);
    var o := ReadLevel(t, stream, n, path, s, 0);
    if o.ok { SubsTake(t, stream, n, path, o.state, o.count, f, next); }
  }

  lemma SameTable(a: Bytes, k: nat)
    requires k <= |a|
    ensures HasTable(a[..k]) ==> HasTable(a) && Header(a[..k]) == Header(a) && TableOf(a[..k]) == TableOf(a)
    ensures HasTable(a[..k]) ==> Body(Header(a)) <= k
    ensures Readable(a) ==> Readable(a[..k])
  {
    var b := a[..k];
    if HasTable(b) {
      assert b[..4] == a[..4] && b[4..8] == a[4..8];
      assert b[8..Body(Header(b))] == a[8..Body(Header(b))];
    }
    hide DecodeTable, Decode32, Forward;
  }

  /** An archive that has lost as little as its last byte is refused. */
  lemma TruncatedFails(f: Forest, path: Path, files: Files, k: nat)
    requires Holds(f) && WellNamed(f) && Count(f) < SIZE_LIMIT
    ensures AllOk(Table(f, 0)) && Readable(Archive(f))
    ensures k < |Archive(f)| ==> Readable(Archive(f)[..k]) && !Extract(Archive(f)[..k], path, files).ok
  {
    HoldsStorable(f);
    ReadableArchive(f);
    ArchiveParts(f);
    HeaderBack(f);
    hide Archive, Table, Data, Holds, Storable, WellNamed, At, ReadTree, AllOk, HasTable, TableOf, Header, Body;
    hide Forward, Readable;
    if k < |Archive(f)| {
      SameTable(Archive(f), k);
      if HasTable(Archive(f)[..k]) {
        WholeTable(Table(f, 0));
        TreeTakes(Table(f, 0), Archive(f)[..k], 0, path, State(Body(Count(f)), files[path := Directory]), f);
        SamePath(files, path);
      }
    }
  }

  // ----- what is refused

  /** The level that begins at entry n ends at entry j. */
  predicate EndsAt(t: seq<Te>, n: nat, j: nat) {
    n <= j < |t| && t[j].end && forall i :: n <= i < j ==> !t[i].end
  }

  lemma {:induction false} LevelEnds(t: seq<Te>, stream: Bytes, n: nat, path: Path, s: State, count: nat)
    returns (j: nat)
    requires s.pos <= |stream| && ReadLevel(t, stream, n, path, s, count).ok
    ensures EndsAt(t, n, j) && ReadLevel(t, stream, n, path, s, count).count == count + j - n + 1
    decreases |t| - n
  {
    hide ReadEntry;
    if t[n].end {
      j := n;
    } else {
      j := LevelEnds(t, stream, n + 1, path, ReadEntry(t, stream, n, path, s).state, count + 1);
    }
  }

  /** No level is read that lies outside the table or runs over its end, at whatever depth. */
  ghost predicate LevelsEnd(t: seq<Te>, n: nat)
    requires Forward(t)
    decreases |t| - n
  {
    exists j: nat ::
      EndsAt(t, n, j) && forall i :: n <= i <= j && t[i].dir && t[i].size != 0 ==> LevelsEnd(t, t[i].size)
  }

  lemma {:induction false} SubsEnd(t: seq<Te>, stream: Bytes, n: nat, path: Path, s: State, count: nat, j: nat)
    requires Forward(t) && s.pos <= |stream| && EndsAt(t, n, j) && ReadSubs(t, stream, n, path, s, count).ok
    ensures forall i :: n <= i <= j && t[i].dir && t[i].size != 0 ==> LevelsEnd(t, t[i].size)
    decreases |t| - n, 0
  {
    var below := t[n].dir && t[n].size != 0;
    var o := if below then ReadTree(t, stream, t[n].size, path + [t[n].name], s) else Outcome(true, s, 0);
    if below { TreeEnds(t, stream, t[n].size, path + [t[n].name], s); }
    hide ReadTree, LevelsEnd;
    if n < j { SubsEnd(t, stream, n + 1, path, o.state, count + o.count, j); }
  }

  /** What is read without an error has an end to each of its levels. */
  lemma {:induction false} TreeEnds(t: seq<Te>, stream: Bytes, n: nat, path: Path, s: State)
    requires Forward(t) && s.pos <= |stream| && ReadTree(t, stream, n, path, s).ok
    ensures LevelsEnd(t, n)
    decreases |t| - n, 1
  {
    var o := ReadLevel(t, stream, n, path, s, 0);
    var j := LevelEnds(t, stream, n, path, s, 0);
    hide ReadLevel, ReadSubs, EndsAt;
    SubsEnd(t, stream, n, path, o.state, o.count, j);
  }

  /** Whatever is accepted has the magic, a positive count that is an int, as many entries, and an end to each level;
      and that many entries have been read. What has no such header leaves the files alone. */
  lemma AcceptedExactly(stream: Bytes, path: Path, files: Files)
    requires Readable(stream)
    ensures var o := Extract(stream, path, files);
      o.ok ==>
        && |stream| >= 44 && stream[..4] == [68, 67, 65, 82] && 0 < Decode32(stream[4..8]) < 0x8000_0000
        && |stream| >= 8 + 36 * Decode32(stream[4..8]) && o.count == Decode32(stream[4..8])
        && HasTable(stream) && Forward(TableOf(stream)) && LevelsEnd(TableOf(stream), 0)
    ensures !HasTable(stream) ==> Extract(stream, path, files).state.files == files
  {
    if HasTable(stream) {
      var t, d := TableOf(stream), CreateDir(State(Body(Header(stream)), files), path);
      hide DecodeTable, Decode32, ReadTree, Forward, LevelsEnd, CreateDir;
      if d.ok && ReadTree(t, stream, 0, path, d.state).ok { TreeEnds(t, stream, 0, path, d.state); }
    }
  }

  /** A body that ends too early is an error, and leaves the whole chunks that there were. */
  lemma ShortBody(stream: Bytes, s: State, path: Path, size: nat)
    requires s.pos <= |stream| < s.pos + size && !(path in s.files && s.files[path].Directory?)
    ensures var o, rest := ExtractFile(stream, s, path, size), |stream| - s.pos;
      !o.ok && o.state.pos == |stream| && path in o.state.files && o.state.files[path].Regular?
      && var body := o.state.files[path].body;
      body <= stream[s.pos..] && |body| % 512 == 0 && |body| <= rest < |body| + 512
      && o.state.files == s.files[path := Regular(body)]
  {
  }

  lemma CountPositive(f: Forest)
    ensures Count(f) > 0 <==> f != []
  {
  }

  lemma TableBack(t: seq<Te>)
    requires AllOk(t)
    ensures DecodeTable(EncodeTable(t)) == t
  {
    TableRoundTrip(t);
  }

  lemma SamePath(files: Files, path: Path)
    ensures path in files && files[path].Directory? ==> files[path := Directory] == files
  {
  }
}
