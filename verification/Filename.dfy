/** Path canonicalisation as the code runs it: the result is built in place, and moved back on '..'. */
module Filename {
  import opened PathSpec

  /** The index after the slashes from i on. */
  method SkipSlash(s: string, i: nat) returns (j: nat)
    requires i <= |s|
    ensures i <= j <= |s| && (forall k :: i <= k < j ==> IsSlash(s[k])) && (j < |s| ==> !IsSlash(s[j]))
  {
    j := i;
    while j < |s| && IsSlash(s[j])
      invariant i <= j <= |s| && forall k :: i <= k < j ==> IsSlash(s[k])
    {
      j := j + 1;
    }
  }

  /** The length of the name at index i. */
  method GetNameLength(s: string, i: nat) returns (n: nat)
    requires i <= |s|
    ensures n == NameLength(s[i..])
  {
    var j := i;
    while j < |s| && !IsSlash(s[j])
      invariant i <= j <= |s| && NameLength(s[i..]) == j - i + NameLength(s[j..])
    {
      assert s[j..][1..] == s[j + 1..];
      j := j + 1;
    }
    n := j - i;
  }

  /** Back from e to the slash before it, or to s. */
  method BackwardSlash(dst: array<char>, s: nat, e: nat) returns (r: nat)
    requires s <= e <= dst.Length
    ensures s <= r <= e && BackTo(dst[..e], s, e, r)
  {
    r := e;
    while r > s
      invariant s <= r <= e && forall j :: r <= j < e ==> !IsSlash(dst[j])
    {
      r := r - 1;
      if IsSlash(dst[r]) {
        return;
      }
    }
  }

  /** Copy a name to index d. */
  method CopyName(dst: array<char>, d: nat, src: string, name: nat, len: nat)
    requires d + len <= dst.Length && name + len <= |src|
    modifies dst
    ensures dst[..d + len] == old(dst[..d]) + src[name..name + len]
    ensures dst[d + len..] == old(dst[d + len..])
  {
    var k := 0;
    while k < len
      invariant 0 <= k <= len && dst[..d + k] == old(dst[..d]) + src[name..name + k]
      invariant dst[d + len..] == old(dst[d + len..])
    {
      dst[d + k] := src[name + k];
      k := k + 1;
    }
  }

  /** Put a name after what is written, with a slash between unless it is the first; false if it does not fit. */
  method Append(dst: array<char>, d: nat, stop: nat, room: nat, src: string, name: nat, len: nat, ghost absolute: bool,
                ghost stack: seq<string>)
    returns (ok: bool, d': nat, room': nat)
    requires d + room <= dst.Length && room > 0 && name + len <= |src| && len > 0 && AllProper(stack)
    requires dst[..d] == Render(absolute, stack) && stop == Stop(absolute)
    requires src[name..name + len] != "." && src[name..name + len] != ".."
    modifies dst
    ensures ok <==> |Join(Step(stack, src[name..name + len]))| < d + room - stop
    ensures d' >= d && d' + room' == d + room && room' > 0 && dst[d + room..] == old(dst[d + room..])
    ensures ok ==> dst[..d'] == Render(absolute, Step(stack, src[name..name + len]))
  {
    hide Join, Step, AllProper, Render;
    ghost var next := src[name..name + len];
    Pushed(absolute, stack, next);
    d', room' := d, room;
    if d' > stop {
      if 1 >= room' {
        return false, d', room';
      } else {
        dst[d'] := '/';
        d', room' := d' + 1, room' - 1;
        assert dst[..d'] == Render(absolute, stack) + "/";
      }
    }
    if len >= room' {
      return false, d', room';
    }
    CopyName(dst, d', src, name, len);
    Tail(dst[..], d' + len, d + room);
    d', room' := d' + len, room' - len;
    ok := true;
  }

  lemma Tail(s: string, i: nat, j: nat)
    requires i <= j <= |s|
    ensures s[j..] == s[i..][j - i..]
  {
  }

  /** The source up to index i is dealt with, and what is written shows the stack it has led to. */
  ghost predicate Shown(written: string, src: string, i: nat, stack: seq<string>, space: int, absolute: bool) {
    && Walking(src, i, stack, space) && (i < |src| ==> !IsSlash(src[i]))
    && written == Render(absolute, stack)
  }

  lemma ShownFacts(written: string, src: string, i: nat, stack: seq<string>, space: int, absolute: bool)
    requires Shown(written, src, i, stack, space, absolute)
    ensures i <= |src| && AllProper(stack) && written == Render(absolute, stack) && Walking(src, i, stack, space)
    ensures Stop(absolute) <= |written| == Stop(absolute) + |Join(stack)| < Stop(absolute) + space
    ensures i < |src| ==> !IsSlash(src[i])
  {
  }

  lemma ShownDot(written: string, src: string, i: nat, j: nat, stack: seq<string>, space: int, absolute: bool)
    requires Shown(written, src, i, stack, space, absolute) && 1 == NameLength(src[i..]) && i < j <= |src|
    requires src[i] == '.'
    requires (forall k :: i + 1 <= k < j ==> IsSlash(src[k])) && (j < |src| ==> !IsSlash(src[j]))
    ensures Shown(written, src, j, stack, space, absolute)
  {
    hide Components, Walk, Fits, Join, NameLength, AllProper, Render;
    assert src[i..i + 1] == ".";
    WalkingSteps(src, i, 1, j, stack, space);
  }

  lemma ShownDots(written: string, src: string, i: nat, j: nat, stack: seq<string>, space: int, absolute: bool,
                  back: nat)
    requires Shown(written, src, i, stack, space, absolute) && 2 == NameLength(src[i..]) && i + 2 <= j <= |src|
    requires src[i] == '.' && src[i + 1] == '.'
    requires (forall k :: i + 2 <= k < j ==> IsSlash(src[k])) && (j < |src| ==> !IsSlash(src[j]))
    requires BackTo(written, Stop(absolute), |written|, back)
    ensures back <= |written| && Shown(written[..back], src, j, Step(stack, ".."), space, absolute)
  {
    hide Components, Walk, Fits, NameLength, AllProper, BackTo;
    assert src[i..i + 2] == "..";
    WalkingSteps(src, i, 2, j, stack, space);
    Popped(absolute, stack, written, back);
  }

  lemma ShownName(written: string, src: string, i: nat, n: nat, j: nat, stack: seq<string>, space: int, absolute: bool)
    requires Shown(written, src, i, stack, space, absolute) && n == NameLength(src[i..]) > 0 && i + n <= j <= |src|
    requires !(n == 1 && src[i] == '.') && !(n == 2 && src[i] == '.' && src[i + 1] == '.')
    requires (forall k :: i + n <= k < j ==> IsSlash(src[k])) && (j < |src| ==> !IsSlash(src[j]))
    ensures var name := src[i..i + n];
      name != "." && name != ".." &&
      if |Join(Step(stack, name))| < space
      then Shown(Render(absolute, Step(stack, name)), src, j, Step(stack, name), space, absolute)
        else !Fits([], Components(src), space)
  {
    hide Components, Walk, Fits, NameLength, AllProper, Render, Join;
    assert src[i..i + n][0] == src[i];
    if n == 2 { assert src[i..i + n][1] == src[i + 1]; }
    WalkingSteps(src, i, n, j, stack, space);
  }

  lemma ShownEnd(written: string, src: string, i: nat, stack: seq<string>, space: int, absolute: bool)
    requires Shown(written, src, i, stack, space, absolute) && NameLength(src[i..]) == 0
    ensures Fits([], Components(src), space) && written == Render(absolute, Walk([], Components(src)))
  {
    hide Components, Walk, Fits, NameLength, AllProper, Render, Join;
    WalkingEnds(src, i, stack, space);
  }

  /** Write the names from index i on after what is written, with room for max characters. */
  method CopyNames(dst: array<char>, src: string, i0: nat, stop: nat, max: nat, ghost absolute: bool) returns (ok: bool)
    requires stop < max <= dst.Length && stop == Stop(absolute) && i0 <= |src|
    requires Shown(dst[..stop], src, i0, [], max - stop, absolute)
    modifies dst
    ensures dst[max..] == old(dst[max..])
    ensures ok <==> Fits([], Components(src), max - stop)
    ensures ok ==>
      var r := Render(absolute, Walk([], Components(src)));
      |r| < max && dst[..|r|] == r && dst[|r|] == '\0'
  {
    hide Shown, Components, Walk, Fits, NameLength, AllProper, Render, Join, Step, BackTo, Walking, Stop, IsSlash;
    ghost var space, stack: seq<string> := max - stop, [];
    var d, i, room := stop, i0, max - stop;
    ok := true;
    while true
      invariant stop <= d < max && room == max - d && Shown(dst[..d], src, i, stack, space, absolute)
      invariant dst[max..] == old(dst[max..]) && i <= |src|
      decreases |src| - i
    {
      ShownFacts(dst[..d], src, i, stack, space, absolute);
      dst[d] := '\0';
      var len := GetNameLength(src, i);
      if len == 0 {
        ShownEnd(dst[..d], src, i, stack, space, absolute);
        break;
      }
      var name := i;
      i := i + len;
      i := SkipSlash(src, i);
      if len == 1 && src[name] == '.' {
        ShownDot(dst[..d], src, name, i, stack, space, absolute);
        continue;
      } else if len == 2 && src[name] == '.' && src[name + 1] == '.' {
        var back := BackwardSlash(dst, stop, d);
        ShownDots(dst[..d], src, name, i, stack, space, absolute, back);
        assert dst[..d][..back] == dst[..back];
        room := room + (d - back);
        d := back;
        stack := Step(stack, "..");
        continue;
      }
      ShownName(dst[..d], src, name, len, i, stack, space, absolute);
      ok, d, room := Append(dst, d, stop, room, src, name, len, absolute, stack);
      if !ok {
        break;
      }
      stack := Step(stack, src[name..name + len]);
    }
    dst[d] := '\0';
  }

  /** Write the canonical form of src into dst, which has room for max characters; false if it does not fit. */
  method CopyPath(dst: array<char>, src: string, max: int) returns (ok: bool)
    requires max <= dst.Length
    modifies dst
    ensures ok <==> Canonical(src, max).Some?
    ensures ok ==> var r := Canonical(src, max).value; |r| < max && dst[..|r|] == r && dst[|r|] == '\0'
    ensures max > 0 ==> dst[max..] == old(dst[max..])
    ensures max <= 0 ==> dst[..] == old(dst[..])
  {
    hide Components, Walk, Fits, NameLength;
    if max <= 0 {
      return false;
    }
    var d, i, room := 0, 0, max;
    if src != "" && IsSlash(src[0]) {
      dst[d] := '/';
      d, room := 1, room - 1;
      i := SkipSlash(src, 0);
    }
    if room <= 0 {
      return false;
    }
    WalkingStarts(src, i, room);
    assert dst[..d] == Render(Absolute(src), []);
    ok := CopyNames(dst, src, i, d, max, Absolute(src));
  }
}
