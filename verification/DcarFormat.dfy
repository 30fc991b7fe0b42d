/** The byte layout of a dcar archive: table entries of 36 bytes and file bodies padded to 4. */
module DcarFormat {
  type byte = x: int | 0 <= x < 256
  type Bytes = seq<byte>

  const ALIGN := 4
  const NAME_SIZE := 32
  const ENTRY_SIZE := 36
  const SIZE_LIMIT := 0x4000_0000

  /** A table entry: the size of a file, or the index of a directory's first child. */
  datatype Te = Te(name: Bytes, size: nat, dir: bool, end: bool)

  /** A name as strings of C have it. */
  predicate IsString(name: Bytes) { forall i :: 0 <= i < |name| ==> name[i] != 0 }

  /** A name that takes all its room has no zero behind it but the low byte of the size. */
  predicate TeOk(te: Te) {
    && IsString(te.name) && |te.name| <= NAME_SIZE && te.size < SIZE_LIMIT
    && (|te.name| == NAME_SIZE ==> te.size % 256 == 0)
  }

  // ----- little-endian words

  function Encode32(w: nat): (b: Bytes)
    requires w < 0x1_0000_0000
    ensures |b| == 4
  {
    [w % 256, w / 256 % 256, w / 65536 % 256, w / 16777216]
  }

  function Decode32(b: Bytes): nat
    requires |b| == 4
  {
    b[0] as int + 256 * b[1] as int + 65536 * b[2] as int + 16777216 * b[3] as int
  }

  lemma WordRoundTrip(w: nat)
    requires w < 0x1_0000_0000
    ensures Decode32(Encode32(w)) == w
  {
  }

  // ----- entries

  function Zeros(n: nat): (z: Bytes)
    ensures |z| == n && forall i :: 0 <= i < n ==> z[i] == 0
  {
    seq(n, i => 0)
  }

  /** The attributes share a word: 30 bits of size, then the directory flag, then the end flag. */
  function Attr(te: Te): (w: nat)
    requires te.size < SIZE_LIMIT
    ensures w < 0x1_0000_0000
  {
    te.size + (if te.dir then SIZE_LIMIT else 0) + (if te.end then 2 * SIZE_LIMIT else 0)
  }

  function EncodeTe(te: Te): (b: Bytes)
    requires TeOk(te)
    ensures |b| == ENTRY_SIZE
  {
    te.name + Zeros(NAME_SIZE - |te.name|) + Encode32(Attr(te))
  }

  /** The bytes before the first zero. */
  function Terminated(b: Bytes): (s: Bytes)
    ensures |s| <= |b| && s == b[..|s|] && (|s| < |b| ==> b[|s|] == 0)
    ensures forall i :: 0 <= i < |s| ==> s[i] != 0
  {
    if b == [] || b[0] == 0 then [] else [b[0]] + Terminated(b[1..])
  }

  /** Whoever reads the name goes on to the first zero, which may be one of the attributes'. */
  function DecodeTe(b: Bytes): Te
    requires |b| == ENTRY_SIZE
  {
    var w := Decode32(b[NAME_SIZE..]);
    Te(Terminated(b), w % SIZE_LIMIT, w / SIZE_LIMIT % 2 == 1, w / SIZE_LIMIT >= 2)
  }

  lemma {:induction false} TerminatedName(name: Bytes, rest: Bytes)
    requires IsString(name) && rest != [] && rest[0] == 0
    ensures Terminated(name + rest) == name
    decreases |name|
  {
    if name != [] {
      assert (name + rest)[1..] == name[1..] + rest;
      TerminatedName(name[1..], rest);
    }
  }

  lemma AttrRoundTrip(te: Te)
    requires te.size < SIZE_LIMIT
    ensures var w := Attr(te);
      w % SIZE_LIMIT == te.size && (w / SIZE_LIMIT % 2 == 1) == te.dir && (w / SIZE_LIMIT >= 2) == te.end
  {
  }

  lemma LowByte(te: Te)
    requires te.size < SIZE_LIMIT
    ensures Encode32(Attr(te))[0] == te.size % 256
  {
  }

  /** Every entry survives its 36 bytes. */
  lemma EntryRoundTrip(te: Te)
    requires TeOk(te)
    ensures DecodeTe(EncodeTe(te)) == te
  {
    var b, rest := EncodeTe(te), Zeros(NAME_SIZE - |te.name|) + Encode32(Attr(te));
    assert b == te.name + rest;
    assert b[NAME_SIZE..] == Encode32(Attr(te));
    LowByte(te);
    hide Attr, Encode32, Decode32, Zeros;
    TerminatedName(te.name, rest);
    WordRoundTrip(Attr(te));
    AttrRoundTrip(te);
  }

  predicate AllOk(t: seq<Te>) { forall i :: 0 <= i < |t| ==> TeOk(t[i]) }

  function EncodeTable(t: seq<Te>): (b: Bytes)
    requires AllOk(t)
    ensures |b| == ENTRY_SIZE * |t|
  {
    if t == [] then [] else EncodeTe(t[0]) + EncodeTable(t[1..])
  }

  function DecodeTable(b: Bytes): (t: seq<Te>)
    requires |b| % ENTRY_SIZE == 0
    ensures |t| == |b| / ENTRY_SIZE
  {
    if b == [] then [] else [DecodeTe(b[..ENTRY_SIZE])] + DecodeTable(b[ENTRY_SIZE..])
  }

  lemma {:induction false} TableRoundTrip(t: seq<Te>)
    requires AllOk(t)
    ensures DecodeTable(EncodeTable(t)) == t
  {
    if t != [] {
      var b, rest := EncodeTable(t), EncodeTable(t[1..]);
      assert b[..ENTRY_SIZE] == EncodeTe(t[0]) && b[ENTRY_SIZE..] == rest;
      hide EncodeTe, DecodeTe, TeOk;
      EntryRoundTrip(t[0]);
      TableRoundTrip(t[1..]);
    }
  }

  lemma {:induction false} EncodeConcat(s: seq<Te>, t: seq<Te>)
    requires AllOk(s) && AllOk(t)
    ensures AllOk(s + t)
    ensures EncodeTable(s + t) == EncodeTable(s) + EncodeTable(t)
  {
    hide EncodeTe, TeOk;
    if s == [] {
      assert s + t == t;
    } else {
      assert (s + t)[1..] == s[1..] + t;
      EncodeConcat(s[1..], t);
    }
  }

  // ----- padding

  function Aligned(n: nat): nat { (n + ALIGN - 1) / ALIGN * ALIGN }

  function Padded(b: Bytes): Bytes { b + Zeros(Aligned(|b|) - |b|) }
}
