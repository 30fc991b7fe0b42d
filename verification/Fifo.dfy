/** The PCM fifo, one call at a time: a ring with a bak, a read and a write index, copied in two segments. */
module FifoClass {
  import opened FifoRing

  const BAK_MAX := 0x4000

  /** A stereo sample is copied as it is; a mono one is put on both channels of a 32-bit word. */
  function Stereo(v: int): int { v }

  function Mono(v: int): int {
    var u := v % 0x1_0000;
    var x := u + 0x1_0000 * u;
    if x < 0x8000_0000 then x else x - 0x1_0000_0000
  }

  /** Both halves of the word are those of the sample, and the word is an int. */
  lemma MonoHalves(v: int)
    requires 0 <= v < 0x1_0000
    ensures -0x8000_0000 <= Mono(v) < 0x8000_0000 && Mono(v) % 0x1_0000 == v && Mono(v) / 0x1_0000 % 0x1_0000 == v
  {
    if v < 0x8000 {
      assert Mono(v) == v + 0x1_0000 * v;
    } else {
      assert Mono(v) == v + 0x1_0000 * (v - 0x1_0000);
      assert (v - 0x1_0000) % 0x1_0000 == v % 0x1_0000;
    }
  }

  function Copied(buf: seq<int>, copy: int -> int): (c: seq<int>)
    ensures |c| == |buf| && forall i :: 0 <= i < |c| ==> c[i] == copy(buf[i])
  {
    seq(|buf|, i requires 0 <= i < |buf| => copy(buf[i]))
  }

  class Fifo {
    const buffer: array<int>
    const m: nat
    var r: nat
    var w: nat
    var k: nat
    /** All that was ever written, and the positions the indices stand for. */
    ghost var hist: seq<int>
    ghost var bakPos: nat
    ghost var readPos: nat

    ghost predicate Valid()
      reads this, buffer
    {
      var size := buffer.Length;
      && 0 < size && m < size
      && bakPos <= readPos <= |hist| < bakPos + size && readPos - bakPos <= m
      && k == Mask(bakPos, size) && r == Mask(readPos, size) && w == Mask(|hist|, size)
      && Holds(buffer[..], hist, bakPos, |hist|)
    }

    constructor (size: nat)
      requires size > 0
      ensures Valid() && fresh(buffer) && buffer.Length == size && hist == [] && bakPos == readPos == 0
      ensures m == if size / 2 > BAK_MAX then BAK_MAX else size / 2
    {
      buffer := new int[size];
      m := if size / 2 > BAK_MAX then BAK_MAX else size / 2;
      r, w, k := 0, 0, 0;
      hist, bakPos, readPos := [], 0, 0;
    }

    /** What was written, read and may be written: free, used and bak make up the ring but one sample. */
    method Sizes() returns (free: nat, used: nat, bak: nat)
      requires Valid()
      ensures used == |hist| - readPos && bak == readPos - bakPos <= m && free + used + bak == buffer.Length - 1
    {
      var size := buffer.Length;
      UsedIs(readPos, |hist|, size);
      UsedIs(bakPos, readPos, size);
      FreeIs(bakPos, |hist|, size);
      used := Used(r, w, size);
      free := Free(k, w, size);
      bak := Used(k, r, size);
    }

    /** Copy samples into consecutive cells. */
    method CopyIn(at: nat, src: seq<int>, from: nat, n: nat, copy: int -> int)
      requires at + n <= buffer.Length && from + n <= |src|
      modifies buffer
      ensures forall c :: at <= c < at + n ==> buffer[c] == copy(src[from + (c - at)])
      ensures forall c :: 0 <= c < buffer.Length && !(at <= c < at + n) ==> buffer[c] == old(buffer[c])
    {
      var i := 0;
      while i < n
        invariant 0 <= i <= n
        invariant forall c :: at <= c < at + i ==> buffer[c] == copy(src[from + (c - at)])
        invariant forall c :: 0 <= c < buffer.Length && !(at <= c < at + i) ==> buffer[c] == old(buffer[c])
      {
        buffer[at + i] := copy(src[from + i]);
        i := i + 1;
      }
    }

    /** Write as many samples as there is room for, up to n. */
    method WriteAny(src: seq<int>, n: int, copy: int -> int) returns (done: int)
      requires Valid() && n <= |src|
      modifies this, buffer
      ensures Valid() && bakPos == old(bakPos) && readPos == old(readPos)
      ensures var free := buffer.Length - 1 - (old(|hist|) - bakPos);
        done == if n <= free then n else free
      ensures hist == old(hist) + if done <= 0 then [] else Copied(src[..done], copy)
    {
      if n <= 0 {
        return n;
      }
      hide Holds, Mask;
      var size := buffer.Length;
      ghost var ring, h := buffer[..], hist;
      FreeIs(bakPos, |hist|, size);
      var f := Free(k, w, size);
      if f == 0 {
        return 0;
      }
      done := if n > f then f else n;
      var first := First(w, done, size);
      CopyIn(w, src, 0, first, copy);
      CopyIn(0, src, first, done - first, copy);
      ghost var data := Copied(src[..done], copy);
      Landed(ring, h, bakPos, data, w, first);
      Advance(|hist|, done, size);
      w := Mask(w + done, size);
      hist := hist + data;
    }

    /** The ring holds the old samples and the new ones. */
    lemma Landed(ring: seq<int>, h: seq<int>, from: nat, data: seq<int>, at: nat, first: nat)
      requires |ring| == buffer.Length > 0 && Holds(ring, h, from, |h|) && from <= |h| && |h| + |data| < from + |ring|
      requires at == Mask(|h|, |ring|) && first == First(at, |data|, |ring|)
      requires forall c :: at <= c < at + first ==> buffer[c] == data[c - at]
      requires forall c :: 0 <= c < |data| - first ==> buffer[c] == data[first + c]
      requires forall c ::
        0 <= c < |ring| && !(at <= c < at + first) && !(0 <= c < |data| - first) ==> buffer[c] == ring[c]
      ensures Holds(buffer[..], h + data, from, |h + data|)
    {
      var size, g := |ring|, h + data;
      forall i | from <= i < |g| ensures buffer[Mask(i, size)] == g[i] {
        if i < |h| {
          CellKept(from, |h|, |data|, size, i);
          assert ring[Mask(i, size)] == h[i];
        } else {
          CellOf(|h|, |data|, size, i - |h|);
        }
      }
    }

    /** Write stereo samples. */
    method Write(src: seq<int>, n: int) returns (done: int)
      requires Valid() && n <= |src|
      modifies this, buffer
      ensures Valid() && bakPos == old(bakPos) && readPos == old(readPos)
      ensures var free := buffer.Length - 1 - (old(|hist|) - bakPos); done == if n <= free then n else free
      ensures hist == old(hist) + if done <= 0 then [] else src[..done]
    {
      done := WriteAny(src, n, Stereo);
      if done > 0 { assert Copied(src[..done], Stereo) == src[..done]; }
    }

    /** Write mono samples, each on both channels. */
    method WriteMono(src: seq<int>, n: int) returns (done: int)
      requires Valid() && n <= |src|
      modifies this, buffer
      ensures Valid() && bakPos == old(bakPos) && readPos == old(readPos)
      ensures var free := buffer.Length - 1 - (old(|hist|) - bakPos); done == if n <= free then n else free
      ensures hist == old(hist) + if done <= 0 then [] else Copied(src[..done], Mono)
    {
      done := WriteAny(src, n, Mono);
    }

    /** Copy consecutive cells out. */
    method CopyOut(dst: array<int>, to: nat, at: nat, n: nat)
      requires dst != buffer && at + n <= buffer.Length && to + n <= dst.Length
      modifies dst
      ensures forall c :: to <= c < to + n ==> dst[c] == buffer[at + (c - to)]
      ensures forall c :: 0 <= c < dst.Length && !(to <= c < to + n) ==> dst[c] == old(dst[c])
    {
      var i := 0;
      while i < n
        invariant 0 <= i <= n
        invariant forall c :: to <= c < to + i ==> dst[c] == buffer[at + (c - to)]
        invariant forall c :: 0 <= c < dst.Length && !(to <= c < to + i) ==> dst[c] == old(dst[c])
      {
        dst[to + i] := buffer[at + i];
        i := i + 1;
      }
    }

    /** Copy as many samples as lie between two indices, up to n; none is copied without a destination. */
    method ReadAny(buf: array?<int>, from: nat, to: nat, n: nat, ghost p: nat, ghost q: nat) returns (done: nat)
      requires Valid() && bakPos <= p <= q <= |hist| && from == Mask(p, buffer.Length) && to == Mask(q, buffer.Length)
      requires buf != buffer && (buf != null ==> n <= buf.Length)
      modifies if buf == null then {} else {buf}
      ensures done == if n <= q - p then n else q - p
      ensures buf != null ==> buf[..done] == hist[p..p + done] && buf[done..] == old(buf[done..])
    {
      hide Mask;
      var size := buffer.Length;
      UsedIs(p, q, size);
      var b := Used(from, to, size);
      if b == 0 {
        return 0;
      }
      done := if n > b then b else n;
      var first := First(from, done, size);
      if buf != null {
        CopyOut(buf, 0, from, first);
        CopyOut(buf, first, 0, done - first);
        forall j | 0 <= j < done ensures buf[j] == hist[p + j] {
          CellOf(p, done, size, j);
        }
      }
    }

    /** Read samples on; those behind stay readable, up to the threshold. */
    method Read(buf: array?<int>, n: int) returns (done: int)
      requires Valid() && buf != buffer && (buf != null ==> n <= buf.Length)
      modifies this, if buf == null then {} else {buf}
      ensures Valid() && hist == old(hist)
      ensures var used := |hist| - old(readPos); done == if n <= used then n else used
      ensures readPos == old(readPos) + if done <= 0 then 0 else done
      ensures bakPos == if readPos - old(bakPos) > m then readPos - m else old(bakPos)
      ensures buf != null ==> if done <= 0 then buf[..] == old(buf[..]) else buf[..done] == hist[old(readPos)..readPos]
    {
      if n <= 0 {
        return n;
      }
      done := ReadAny(buf, r, w, n, readPos, |hist|);
      if done != 0 {
        hide Mask;
        var size := buffer.Length;
        Advance(readPos, done, size);
        r := Mask(r + done, size);
        readPos := readPos + done;
        UsedIs(bakPos, readPos, size);
        var bakSize := Used(k, r, size);
        if bakSize > m {
          bakSize := bakSize - m;
          Advance(bakPos, bakSize, size);
          k := Mask(k + bakSize, size);
          bakPos := bakPos + bakSize;
        }
      }
    }

    /** Read samples that were already read. */
    method ReadBak(buf: array?<int>, n: int) returns (done: int)
      requires Valid() && buf != buffer && (buf != null ==> n <= buf.Length)
      modifies this, if buf == null then {} else {buf}
      ensures Valid() && hist == old(hist) && readPos == old(readPos)
      ensures var bak := readPos - old(bakPos); done == if n <= bak then n else bak
      ensures bakPos == old(bakPos) + if done <= 0 then 0 else done
      ensures buf != null ==> if done <= 0 then buf[..] == old(buf[..]) else buf[..done] == hist[old(bakPos)..bakPos]
    {
      if n <= 0 {
        return n;
      }
      done := ReadAny(buf, k, r, n, bakPos, readPos);
      if done != 0 {
        hide Mask;
        Advance(bakPos, done, buffer.Length);
        k := Mask(k + done, buffer.Length);
        bakPos := bakPos + done;
      }
    }
  }
}
