/** Extraction as the code runs it: a stream position and a file system that are moved on step by step. */
module DcarReader {
  import opened DcarFormat
  import opened DcarTree
  import opened DcarArchive

  class Extractor {
    const stream: Bytes
    var pos: nat
    var files: Files

    ghost function Now(): State
      reads this
    {
      State(pos, files)
    }

    constructor (stream: Bytes, files: Files)
      ensures this.stream == stream && Now() == State(0, files)
    {
      this.stream := stream;
      this.files := files;
      pos := 0;
    }

    /** As many of the next n bytes as there are. */
    method GzRead(n: nat) returns (b: Bytes)
      requires pos <= |stream|
      modifies this`pos
      ensures pos == if old(pos) + n <= |stream| then old(pos) + n else |stream|
      ensures b == stream[old(pos)..pos]
    {
      var end := if pos + n <= |stream| then pos + n else |stream|;
      b := stream[pos..end];
      pos := end;
    }

    /** Copy a body to the file at a path, chunk by chunk, and skip its padding. */
    method GzExtract(path: Path, len: nat) returns (n: int)
      requires pos <= |stream| && path in files && files[path] == Regular([])
      modifies this
      ensures pos <= |stream|
      ensures var size := if old(pos) + len <= |stream| then len else (|stream| - old(pos)) / CHUNK * CHUNK;
        files == old(files)[path := Regular(stream[old(pos)..old(pos) + size])]
      ensures n >= 0 <==> old(pos) + Aligned(len) <= |stream|
      ensures pos == if n >= 0 then old(pos) + Aligned(len) else |stream|
    {
      ghost var start := pos;
      ghost var had := files;
      var rem := len;
      assert stream[start..pos] == [] && had == had[path := Regular([])];
      while rem > 0
        invariant 0 <= rem <= len && pos == start + (len - rem) <= |stream|
        invariant rem > 0 ==> (len - rem) % CHUNK == 0
        invariant files == had[path := Regular(stream[start..pos])]
      {
        n := rem;
        if n > CHUNK {
          n := CHUNK;
        }
        rem := rem - n;
        var tmp := GzRead(n);
        if |tmp| != n {
          WholeChunks(|stream| - start, len - rem - n, n);
          return -1;
        }
        Joined(stream, start, pos - n, pos);
        files := files[path := Regular(files[path].body + tmp)];
      }
      var z := Aligned(len) - len;
      if z != 0 {
        var tmp := GzRead(z);
        if |tmp| != z {
          return -1;
        }
      }
      n := len;
    }

    lemma Joined(s: Bytes, a: nat, b: nat, c: nat)
      requires a <= b <= c <= |s|
      ensures s[a..b] + s[b..c] == s[a..c]
    {
    }

    /** The chunk that comes up short is the one after all the whole ones. */
    lemma WholeChunks(available: nat, done: nat, n: nat)
      requires done % CHUNK == 0 && done <= available < done + n && n <= CHUNK
      ensures available / CHUNK * CHUNK == done
    {
    }

    method ExtractOne(path: Path, size: nat) returns (n: int)
      requires pos <= |stream|
      modifies this
      ensures var o := ExtractFile(stream, old(Now()), path, size); Now() == o.state && (n >= 0 <==> o.ok)
    {
      if path in files && files[path].Directory? {
        return -1;
      }
      files := files - {path};
      files := files[path := Regular([])];
      n := GzExtract(path, size);
    }

    method MakeDir(path: Path) returns (n: int)
      modifies this`files
      ensures var o := CreateDir(old(Now()), path); Now() == o.state && (n >= 0 <==> o.ok)
    {
      if path !in files {
        files := files[path := Directory];
      }
      return if files[path].Directory? then 0 else -1;
    }

    /** One level: its entries up to the end flag, then its directories. */
    method ExtractTree(t: seq<Te>, n: nat, path: Path) returns (count: int)
      requires Forward(t) && pos <= |stream|
      modifies this
      ensures var o := ReadTree(t, stream, n, path, old(Now()));
        Now() == o.state && count == if o.ok then o.count else -1
      decreases |t| - n
    {
      if n >= |t| {
        return -1;
      }
      ghost var s := Now();
      count := 0;
      var i, ended := n, false;
      while i < |t| && !ended
        invariant n <= i <= |t| && pos <= |stream| && 0 <= count
        invariant !ended ==> ReadLevel(t, stream, n, path, s, 0) == ReadLevel(t, stream, i, path, Now(), count)
        invariant ended ==> ReadLevel(t, stream, n, path, s, 0) == Outcome(true, Now(), count)
        decreases |t| - i, !ended
      {
        var at := path + [t[i].name];
        count := count + 1;
        var done: int;
        if t[i].dir { done := MakeDir(at); } else { done := ExtractOne(at, t[i].size); }
        if done < 0 {
          return -1;
        }
        if t[i].end { ended := true; } else { i := i + 1; }
      }
      if !ended {
        return -1;
      }
      count := ExtractSubs(t, n, path, count, s);
    }

    method ExtractSubs(t: seq<Te>, n: nat, path: Path, have: nat, ghost s: State) returns (count: int)
      requires Forward(t) && pos <= |stream| && n < |t|
      modifies this
      ensures var o := ReadSubs(t, stream, n, path, old(Now()), have);
        Now() == o.state && count == if o.ok then o.count else -1
      decreases |t| - n, 0
    {
      ghost var s' := Now();
      count := have;
      var i := n;
      while i < |t|
        invariant n <= i <= |t| && pos <= |stream| && 0 <= count
        invariant ReadSubs(t, stream, n, path, s', have) == ReadSubs(t, stream, i, path, Now(), count)
      {
        var cnt := 0;
        if t[i].dir && t[i].size != 0 {
          cnt := ExtractTree(t, t[i].size, path + [t[i].name]);
          if cnt < 0 {
            return -1;
          }
        }
        count := count + cnt;
        if t[i].end {
          return;
        }
        i := i + 1;
      }
      return -1;
    }

    /** Extract a whole archive; the number of entries, or -1. */
    method DcarExtract(path: Path) returns (err: int)
      requires Readable(stream) && pos == 0
      modifies this
      ensures var o := Extract(stream, path, old(files));
        files == o.state.files && err == (if o.ok then o.count else -1) && (o.ok ==> pos == o.state.pos)
    {
      hide ReadTree, DecodeTable;
      var head := GzRead(8);
      if |head| != 8 || head[..4] != MAGIC {
        return -1;
      }
      var n := Decode32(head[4..]);
      if n == 0 || n >= 0x8000_0000 {
        return -1;
      }
      var bytes := GzRead(36 * n);
      if |bytes| != 36 * n {
        return -1;
      }
      var t := DecodeTable(bytes);
      var made := MakeDir(path);
      if made < 0 {
        return -1;
      }
      var count := ExtractTree(t, 0, path);
      return if count == |t| then count else -1;
    }
  }
}
