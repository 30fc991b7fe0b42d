/** Path canonicalisation as a machine that walks the components of a path with a stack. */
module PathSpec {
  import opened Common

  predicate IsSlash(c: char) { c == '/' || c == '\\' }

  function NameLength(s: string): (n: nat)
    ensures n <= |s| && (n < |s| ==> IsSlash(s[n])) && forall i :: 0 <= i < n ==> !IsSlash(s[i])
  {
    if s == "" || IsSlash(s[0]) then 0 else 1 + NameLength(s[1..])
  }

  /** The names between slashes of either kind. */
  function Components(s: string): seq<string>
    decreases |s|
  {
    if s == "" then []
    else if IsSlash(s[0]) then Components(s[1..])
    else [s[..NameLength(s)]] + Components(s[NameLength(s)..])
  }

  /** One component: '.' stays, '..' leaves the last directory if there is one, a name enters. */
  function Step(stack: seq<string>, name: string): seq<string> {
    if name == "." then stack
    else if name == ".." then if stack == [] then [] else stack[..|stack| - 1]
    else stack + [name]
  }

  function Walk(stack: seq<string>, names: seq<string>): seq<string>
    decreases names
  {
    if names == [] then stack else Walk(Step(stack, names[0]), names[1..])
  }

  function Join(stack: seq<string>): string {
    if stack == [] then ""
    else if |stack| == 1 then stack[0]
    else Join(stack[..|stack| - 1]) + "/" + stack[|stack| - 1]
  }

  function Render(absolute: bool, stack: seq<string>): string {
    (if absolute then "/" else "") + Join(stack)
  }

  /** Every stack on the way fits the room, its terminator included. */
  predicate Fits(stack: seq<string>, names: seq<string>, room: int)
    decreases names
  {
    names == [] || (|Join(Step(stack, names[0]))| < room && Fits(Step(stack, names[0]), names[1..], room))
  }

  predicate Absolute(src: string) { src != "" && IsSlash(src[0]) }

  function Room(src: string, max: int): int { if Absolute(src) then max - 1 else max }

  function Canonical(src: string, max: int): Option<string> {
    if max > 0 && Room(src, max) > 0 && Fits([], Components(src), Room(src, max))
    then Some(Render(Absolute(src), Walk([], Components(src))))
    else None
  }

  // ----- what comes out

  /** A name that stays on the stack. */
  ghost predicate Proper(name: string) {
    name != "" && name != "." && name != ".." && forall i :: 0 <= i < |name| ==> !IsSlash(name[i])
  }

  ghost predicate AllProper(stack: seq<string>) { forall i :: 0 <= i < |stack| ==> Proper(stack[i]) }

  ghost predicate Named(names: seq<string>) {
    forall i :: 0 <= i < |names| ==> names[i] != "" && forall j :: 0 <= j < |names[i]| ==> !IsSlash(names[i][j])
  }

  lemma {:induction false} ComponentsNamed(s: string)
    ensures Named(Components(s))
    decreases |s|
  {
    if s == "" {
    } else if IsSlash(s[0]) {
      ComponentsNamed(s[1..]);
    } else {
      ComponentsNamed(s[NameLength(s)..]);
    }
  }

  lemma StepProper(stack: seq<string>, name: string)
    requires AllProper(stack) && name != "" && forall j :: 0 <= j < |name| ==> !IsSlash(name[j])
    ensures AllProper(Step(stack, name))
  {
  }

  lemma {:induction false} WalkProper(stack: seq<string>, names: seq<string>)
    requires AllProper(stack) && Named(names)
    ensures AllProper(Walk(stack, names))
    decreases names
  {
    if names != [] {
      assert names[0] != "" && forall j :: 0 <= j < |names[0]| ==> !IsSlash(names[0][j]);
      StepProper(stack, names[0]);
      assert forall i :: 0 <= i < |names[1..]| ==> names[1..][i] == names[i + 1];
      WalkProper(Step(stack, names[0]), names[1..]);
    }
  }

  /** A name after a slash is one more component. */
  lemma {:induction false} ComponentsSnoc(s: string, name: string)
    requires Proper(name)
    ensures Components(s + "/" + name) == Components(s) + [name]
    decreases |s|
  {
    var t := s + "/" + name;
    if s == "" {
      assert t[1..] == name;
      OneComponent(name);
    } else if IsSlash(s[0]) {
      assert t[1..] == s[1..] + "/" + name;
      ComponentsSnoc(s[1..], name);
    } else {
      var n := NameLength(s);
      SameLength(s, t);
      assert t[n..] == s[n..] + "/" + name && t[..n] == s[..n];
      ComponentsSnoc(s[n..], name);
    }
  }

  lemma SameLength(s: string, t: string)
    requires |s| < |t| && t[..|s|] == s && IsSlash(t[|s|])
    ensures NameLength(t) == NameLength(s)
  {
    var n := NameLength(s);
    assert forall i :: 0 <= i < |s| ==> t[i] == s[i];
    LengthIs(t, n);
  }

  lemma {:induction false} LengthIs(t: string, n: nat)
    requires n < |t| && IsSlash(t[n]) && forall i :: 0 <= i < n ==> !IsSlash(t[i])
    ensures NameLength(t) == n
  {
  }

  lemma OneComponent(name: string)
    requires Proper(name)
    ensures Components(name) == [name]
  {
    assert NameLength(name) == |name|;
    assert name[|name|..] == "" && name[..|name|] == name;
  }

  /** What is rendered has exactly the components of the stack. */
  lemma {:induction false} JoinBack(stack: seq<string>)
    requires AllProper(stack)
    ensures Components(Join(stack)) == stack
    decreases |stack|
  {
    if stack == [] {
    } else if |stack| == 1 {
      OneComponent(stack[0]);
    } else {
      var n := |stack| - 1;
      JoinBack(stack[..n]);
      ComponentsSnoc(Join(stack[..n]), stack[n]);
    }
  }

  lemma RenderBack(absolute: bool, stack: seq<string>)
    requires AllProper(stack)
    ensures Components(Render(absolute, stack)) == stack
    ensures Absolute(Render(absolute, stack)) == absolute
  {
    JoinBack(stack);
    var j := Join(stack);
    assert ("/" + j)[1..] == j && ("/" + j)[0] == '/' && "" + j == j;
    FirstChar(stack);
    assert Components("/" + j) == Components(j);
  }

  lemma {:induction false} FirstChar(stack: seq<string>)
    requires AllProper(stack)
    ensures stack == [] || (Join(stack) != "" && !IsSlash(Join(stack)[0]))
    decreases |stack|
  {
    if |stack| == 1 {
      assert Proper(stack[0]);
    } else if |stack| > 1 {
      FirstChar(stack[..|stack| - 1]);
    }
  }

  lemma {:induction false} WalkPushes(stack: seq<string>, names: seq<string>, room: int)
    requires AllProper(names) && |Join(stack + names)| < room
    ensures Walk(stack, names) == stack + names && Fits(stack, names, room)
    decreases names
  {
    if names == [] {
      assert stack + [] == stack;
    } else {
      assert Proper(names[0]);
      assert forall i :: 0 <= i < |names[1..]| ==> names[1..][i] == names[i + 1];
      assert stack + names == (stack + [names[0]]) + names[1..];
      JoinGrows(stack + [names[0]], names[1..]);
      WalkPushes(stack + [names[0]], names[1..], room);
    }
  }

  lemma {:induction false} JoinGrows(stack: seq<string>, more: seq<string>)
    ensures |Join(stack)| <= |Join(stack + more)|
    decreases |more|
  {
    var n := |more| - 1;
    if more == [] {
      assert stack + more == stack;
    } else {
      assert (stack + more)[..|stack + more| - 1] == stack + more[..n];
      JoinGrows(stack, more[..n]);
    }
  }

  lemma {:induction false} WalkFits(stack: seq<string>, names: seq<string>, room: int)
    requires Fits(stack, names, room) && |Join(stack)| < room
    ensures |Join(Walk(stack, names))| < room
    decreases names
  {
    if names != [] { WalkFits(Step(stack, names[0]), names[1..], room); }
  }

  /** A canonical path has no empty, '.' or '..' component, is absolute if its source is, fits with its terminator, and
      is canonical already. */
  lemma CanonicalIdempotent(src: string, max: int)
    ensures var r := Canonical(src, max);
      r.Some? ==>
        AllProper(Components(r.value)) && Absolute(r.value) == Absolute(src) && |r.value| < max
        && r.value == Render(Absolute(src), Components(r.value)) && Canonical(r.value, max) == r
  {
    var r := Canonical(src, max);
    if r.Some? {
      var st, room := Walk([], Components(src)), Room(src, max);
      ComponentsNamed(src);
      WalkProper([], Components(src));
      WalkFits([], Components(src), room);
      RenderBack(Absolute(src), st);
      assert [] + st == st;
      WalkPushes([], st, room);
    }
  }

  /** No slash but '/', none next to another, and none at the end. */
  ghost predicate Slashed(s: string) {
    && (forall i :: 0 <= i < |s| ==> s[i] != '\\')
    && (forall i :: 0 <= i < |s| - 1 && s[i] == '/' ==> s[i + 1] != '/')
    && (s != "" ==> s[|s| - 1] != '/')
  }

  lemma {:induction false} JoinSlashed(stack: seq<string>)
    requires AllProper(stack)
    ensures Slashed(Join(stack)) && (stack != [] ==> Join(stack) != "" && Join(stack)[0] != '/')
    decreases |stack|
  {
    if stack != [] {
      var n := |stack| - 1;
      var name := stack[n];
      assert Proper(name) && !IsSlash(name[0]) && !IsSlash(name[|name| - 1]);
      if n > 0 {
        JoinSlashed(stack[..n]);
        var j := Join(stack);
        assert j == Join(stack[..n]) + "/" + name;
      } else {
        assert Join(stack) == name;
      }
    }
  }

  /** What a canonical path looks like: it begins with '/' if its source does with a slash of either kind, and has no
      other slash than one '/' between two names. */
  lemma CanonicalShape(src: string, max: int)
    ensures var r := Canonical(src, max);
      r.Some? ==>
        if Absolute(src) then
          r.value != "" && r.value[0] == '/' && Slashed(r.value[1..]) && (r.value[1..] != "" ==> r.value[1] != '/')
        else Slashed(r.value) && (r.value != "" ==> r.value[0] != '/')
  {
    var st := Walk([], Components(src));
    ComponentsNamed(src);
    WalkProper([], Components(src));
    JoinSlashed(st);
    assert ("/" + Join(st))[1..] == Join(st) && "" + Join(st) == Join(st);
  }

  // ----- where it leads

  /** Where names lead from a place, when '..' leaves it and '.' stays. */
  function Go<D>(enter: (D, string) -> D, leave: D -> D, at: D, names: seq<string>): D
    decreases |names|
  {
    if names == [] then at
    else
      var next := if names[0] == "." then at else if names[0] == ".." then leave(at) else enter(at, names[0]);
      Go(enter, leave, next, names[1..])
  }

  lemma {:induction false} GoOn<D>(enter: (D, string) -> D, leave: D -> D, at: D, names: seq<string>, name: string)
    ensures Go(enter, leave, at, names + [name]) == Go(enter, leave, Go(enter, leave, at, names), [name])
    decreases |names|
  {
    if names == [] {
      assert [] + [name] == [name];
    } else {
      var next := if names[0] == "." then at else if names[0] == ".." then leave(at) else enter(at, names[0]);
      assert (names + [name])[1..] == names[1..] + [name];
      GoOn(enter, leave, next, names[1..], name);
    }
  }

  lemma GoOne<D>(enter: (D, string) -> D, leave: D -> D, at: D, name: string)
    ensures Go(enter, leave, at, [name])
      == if name == "." then at else if name == ".." then leave(at) else enter(at, name)
  {
  }

  /** In any tree: to leave what was entered leads back, and nobody leaves the start. */
  ghost predicate TreeFrom<D(!new)>(enter: (D, string) -> D, leave: D -> D, start: D) {
    leave(start) == start && forall d, name {:trigger enter(d, name)} :: leave(enter(d, name)) == d
  }

  lemma StepLeads<D(!new)>(enter: (D, string) -> D, leave: D -> D, start: D, stack: seq<string>, name: string)
    requires TreeFrom(enter, leave, start) && AllProper(stack)
    ensures Go(enter, leave, start, Step(stack, name)) == Go(enter, leave, Go(enter, leave, start, stack), [name])
  {
    GoOne(enter, leave, Go(enter, leave, start, stack), name);
    if name == ".." {
      if stack != [] {
        var n := |stack| - 1;
        assert stack == stack[..n] + [stack[n]] && Proper(stack[n]);
        GoOn(enter, leave, start, stack[..n], stack[n]);
        GoOne(enter, leave, Go(enter, leave, start, stack[..n]), stack[n]);
      }
    } else if name != "." {
      GoOn(enter, leave, start, stack, name);
    }
  }

  lemma {:induction false} WalkLeads<D(!new)>(enter: (D, string) -> D, leave: D -> D, start: D, stack: seq<string>,
                                             names: seq<string>)
    requires TreeFrom(enter, leave, start) && AllProper(stack) && Named(names)
    ensures Go(enter, leave, start, Walk(stack, names)) == Go(enter, leave, Go(enter, leave, start, stack), names)
    decreases |names|
  {
    if names != [] {
      assert names[0] != "" && forall j :: 0 <= j < |names[0]| ==> !IsSlash(names[0][j]);
      StepProper(stack, names[0]);
      assert forall i :: 0 <= i < |names[1..]| ==> names[1..][i] == names[i + 1];
      WalkLeads(enter, leave, start, Step(stack, names[0]), names[1..]);
      StepLeads(enter, leave, start, stack, names[0]);
      GoOne(enter, leave, Go(enter, leave, start, stack), names[0]);
    }
  }

  /** A canonical path leads where its source does, in whatever tree. */
  lemma CanonicalLeads<D(!new)>(enter: (D, string) -> D, leave: D -> D, start: D, src: string, max: int)
    requires TreeFrom(enter, leave, start) && Canonical(src, max).Some?
    ensures Go(enter, leave, start, Components(Canonical(src, max).value)) == Go(enter, leave, start, Components(src))
  {
    ComponentsNamed(src);
    WalkProper([], Components(src));
    RenderBack(Absolute(src), Walk([], Components(src)));
    WalkLeads(enter, leave, start, [], Components(src));
    assert Go(enter, leave, start, []) == start;
  }

  /** It fails exactly when there is no room at all or some stack on the way, rendered, does not fit. */
  lemma CanonicalFailsExactly(src: string, max: int)
    ensures Canonical(src, max).Some? <==>
      max > 0 && forall i {:trigger Prefix(src, i)} ::
        0 <= i <= |Components(src)| ==> |Render(Absolute(src), Prefix(src, i))| < max
  {
    var names := Components(src);
    if Room(src, max) > 0 {
      FitsIff([], names, Room(src, max));
    } else if max > 0 {
      assert |Render(Absolute(src), Prefix(src, 0))| == 1;
    }
    if max > 0 && Room(src, max) > 0 {
      forall i | 0 <= i <= |names|
        ensures |Render(Absolute(src), Prefix(src, i))| < max <==> |Join(WalkTo([], names, i))| < Room(src, max)
      {
      }
    }
  }

  /** The stack after the first i components. */
  function Prefix(src: string, i: int): seq<string> { WalkTo([], Components(src), i) }

  function WalkTo(stack: seq<string>, names: seq<string>, i: int): seq<string> {
    if 0 <= i <= |names| then Walk(stack, names[..i]) else stack
  }

  lemma {:induction false} FitsIff(stack: seq<string>, names: seq<string>, room: int)
    requires |Join(stack)| < room
    ensures Fits(stack, names, room) <==>
      forall i {:trigger WalkTo(stack, names, i)} :: 0 <= i <= |names| ==> |Join(WalkTo(stack, names, i))| < room
    decreases names
  {
    if names == [] {
      assert WalkTo(stack, names, 0) == stack;
    } else {
      var st := Step(stack, names[0]);
      forall i | 0 < i <= |names| ensures WalkTo(stack, names, i) == WalkTo(st, names[1..], i - 1) {
        assert names[..i][1..] == names[1..][..i - 1];
      }
      assert WalkTo(stack, names, 0) == stack;
      assert WalkTo(st, names[1..], 0) == st;
      if |Join(st)| < room {
        FitsIff(st, names[1..], room);
        forall i | 0 <= i <= |names[1..]| ensures WalkTo(st, names[1..], i) == WalkTo(stack, names, i + 1) {}
      } else {
        assert WalkTo(stack, names, 1) == st;
      }
    }
  }

  // ----- where the code's searches end

  /** The index a search backwards from e for a slash ends at, no lower than s. */
  ghost predicate BackTo(t: string, s: nat, e: nat, r: nat) {
    && s <= r <= e <= |t|
    && (forall j :: r < j < e ==> !IsSlash(t[j]))
    && (r == s || (r < e && IsSlash(t[r])))
    && (s < e ==> r < e)
  }

  /** Going back from the end of a rendered stack takes its last component, and the slash before it, away. */
  lemma BackPops(stack: seq<string>, t: string, s: nat, r: nat)
    requires AllProper(stack) && s <= |t| && t[s..] == Join(stack) && BackTo(t, s, |t|, r)
    ensures t[s..r] == Join(Step(stack, ".."))
  {
    var n := |stack| - 1;
    assert forall j :: s <= j < |t| ==> t[j] == t[s..][j - s];
    if |stack| == 1 {
      assert Proper(stack[0]);
    } else if |stack| > 1 {
      var pre := Join(stack[..n]);
      FirstChar(stack[..n]);
      assert Proper(stack[n]);
      assert Join(stack) == pre + "/" + stack[n];
      var p := s + |pre|;
      assert IsSlash(t[p]);
      assert forall j :: p < j < |t| ==> t[j] == stack[n][j - p - 1];
      assert t[s..p] == t[s..][..|pre|] == pre;
    }
  }

  /** The component that starts at index i, and what follows it. */
  lemma NextComponent(src: string, i: nat, n: nat, j: nat)
    requires i <= |src| && n == NameLength(src[i..]) && i + n <= j <= |src|
    requires forall k :: i + n <= k < j ==> IsSlash(src[k])
    ensures n == 0 && (i < |src| ==> !IsSlash(src[i])) ==> Components(src[i..]) == []
    ensures n > 0 ==> Components(src[i..]) == [src[i..i + n]] + Components(src[j..])
  {
    SlashesSkipped(src, i + n, j);
    FirstComponent(src[i..]);
    assert i < |src| ==> src[i..][0] == src[i];
    if n > 0 { assert src[i..][..n] == src[i..i + n] && src[i..][n..] == src[i + n..]; }
    hide NameLength, Components;
  }

  lemma FirstComponent(t: string)
    ensures NameLength(t) == 0 && (t != "" ==> !IsSlash(t[0])) ==> Components(t) == []
    ensures NameLength(t) > 0 ==> Components(t) == [t[..NameLength(t)]] + Components(t[NameLength(t)..])
  {
  }

  lemma {:induction false} SlashesSkipped(src: string, i: nat, j: nat)
    requires i <= j <= |src| && forall k :: i <= k < j ==> IsSlash(src[k])
    ensures Components(src[i..]) == Components(src[j..])
    decreases j - i
  {
    if i < j {
      assert src[i..][1..] == src[i + 1..];
      SlashesSkipped(src, i + 1, j);
    }
  }

  /** The walk that has reached index i of the source with a stack. */
  ghost predicate Walking(src: string, i: nat, stack: seq<string>, room: int) {
    && i <= |src| && AllProper(stack) && |Join(stack)| < room
    && Fits(stack, Components(src[i..]), room) == Fits([], Components(src), room)
    && Walk(stack, Components(src[i..])) == Walk([], Components(src))
  }

  lemma WalkingStarts(src: string, i: nat, room: int)
    requires i <= |src| && room > 0 && forall k :: 0 <= k < i ==> IsSlash(src[k])
    ensures Walking(src, i, [], room)
  {
    SlashesSkipped(src, 0, i);
    assert src[0..] == src;
  }

  lemma WalkingSteps(src: string, i: nat, n: nat, j: nat, stack: seq<string>, room: int)
    requires Walking(src, i, stack, room) && n == NameLength(src[i..]) > 0 && i + n <= j <= |src|
    requires forall k :: i + n <= k < j ==> IsSlash(src[k])
    ensures var st := Step(stack, src[i..i + n]);
      if |Join(st)| < room then Walking(src, j, st, room) else !Fits([], Components(src), room)
  {
    NextComponent(src, i, n, j);
    var name := src[i..i + n];
    assert forall k :: 0 <= k < n ==> name[k] == src[i..][k];
    StepProper(stack, name);
    hide AllProper, NameLength, Join, Step;
    assert Components(src[i..])[1..] == Components(src[j..]);
  }

  lemma WalkingEnds(src: string, i: nat, stack: seq<string>, room: int)
    requires Walking(src, i, stack, room) && NameLength(src[i..]) == 0 && (i < |src| ==> !IsSlash(src[i]))
    ensures Fits([], Components(src), room) && Walk([], Components(src)) == stack
  {
    NextComponent(src, i, 0, i);
  }

  function Stop(absolute: bool): nat { if absolute then 1 else 0 }

  /** Going back from the end of what is written takes the last component away. */
  lemma Popped(absolute: bool, stack: seq<string>, t: string, r: nat)
    requires AllProper(stack) && t == Render(absolute, stack) && BackTo(t, Stop(absolute), |t|, r)
    ensures r <= |t| && t[..r] == Render(absolute, Step(stack, ".."))
  {
    var s := Stop(absolute);
    assert t[s..] == Join(stack);
    BackPops(stack, t, s, r);
    assert t[..r] == t[..s] + t[s..r];
  }

  lemma Pushed(absolute: bool, stack: seq<string>, name: string)
    requires name != "." && name != ".." && AllProper(stack)
    ensures stack == [] <==> |Render(absolute, stack)| == Stop(absolute)
    ensures Render(absolute, Step(stack, name))
         == if stack == [] then Render(absolute, stack) + name else Render(absolute, stack) + "/" + name
    ensures |Join(stack)| == |Render(absolute, stack)| - Stop(absolute)
    ensures |Join(Step(stack, name))| == |Render(absolute, Step(stack, name))| - Stop(absolute)
  {
    FirstChar(stack);
    assert (stack + [name])[..|stack|] == stack;
  }
}
