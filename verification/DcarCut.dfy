/** What the archiver makes of entries that the format cannot hold: it goes on with what their structures are left
    with. */
module DcarCut {
  import opened DcarFormat
  import opened DcarTree

  /** The largest file whose size is an int also when it is rounded up. */
  const FILE_MAX := 0x7FFF_FFFC

  /** Names as directories give them. */
  ghost predicate Strings(f: Forest) {
    f != [] ==>
      && IsString(f[0].name) && (f[0].File? ==> |f[0].body| <= FILE_MAX)
      && (f[0].Dir? ==> Strings(f[0].items))
      && Strings(f[1..])
  }

  /** A name of 32 bytes or more leaves its first 32 and nothing else: no directory flag, no size. */
  function CutItem(item: Item): Item
    decreases item
  {
    if |item.name| >= NAME_SIZE then File(item.name[..NAME_SIZE], [])
    else if item.Dir? then Dir(item.name, Cut(item.items))
    else item
  }

  function Cut(f: Forest): (g: Forest)
    ensures |g| == |f|
    decreases f
  {
    if f == [] then [] else [CutItem(f[0])] + Cut(f[1..])
  }

  /** What fits the table, whatever the bodies. */
  ghost predicate Storable(f: Forest) {
    f != [] ==>
      && IsString(f[0].name)
      && (|f[0].name| < NAME_SIZE || (|f[0].name| == NAME_SIZE && f[0] == File(f[0].name, [])))
      && (f[0].Dir? ==> Storable(f[0].items))
      && Storable(f[1..])
  }

  lemma {:induction false} CutAt(f: Forest, i: nat)
    requires i < |f|
    ensures Cut(f)[i] == CutItem(f[i])
    decreases f
  {
    if i > 0 { CutAt(f[1..], i - 1); }
  }

  lemma {:induction false} CutStorable(f: Forest)
    requires Strings(f)
    ensures Storable(Cut(f))
    decreases f
  {
    if f != [] {
      if f[0].Dir? { CutStorable(f[0].items); }
      CutStorable(f[1..]);
      assert Cut(f)[1..] == Cut(f[1..]);
    }
  }

  /** Cutting leaves entries out, those of directories whose names are cut. */
  lemma {:induction false} CutCount(f: Forest)
    ensures Count(Cut(f)) <= Count(f)
    decreases f
  {
    if f != [] {
      if f[0].Dir? { CutCount(f[0].items); }
      CutCount(f[1..]);
      assert Cut(f)[1..] == Cut(f[1..]);
    }
  }

  lemma {:induction false} HoldsStorable(f: Forest)
    requires Holds(f)
    ensures Storable(f)
    decreases f
  {
    if f != [] {
      if f[0].Dir? { HoldsStorable(f[0].items); }
      HoldsStorable(f[1..]);
    }
  }

  /** A forest that the format can hold is not cut. */
  lemma {:induction false} HoldsUncut(f: Forest)
    requires Holds(f)
    ensures Cut(f) == f
    decreases f
  {
    if f != [] {
      if f[0].Dir? { HoldsUncut(f[0].items); }
      HoldsUncut(f[1..]);
      assert f == [f[0]] + f[1..];
      if |f[0].name| == NAME_SIZE { assert f[0].name[..NAME_SIZE] == f[0].name; }
    }
  }
}
