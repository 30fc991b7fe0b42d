/** What rendering a display list means: the calls it makes, the context each one gets, and the code it ends with. */
module DisplayMeaning {
  // ----- contexts

  datatype Row = Row(x: real, y: real, z: real, w: real)

  datatype Matrix = Matrix(a: Row, b: Row, c: Row, d: Row)

  datatype Color = Color(a: real, r: real, g: real, b: real)

  datatype Context = Context(trans: Matrix, color: Color)

  /** How a list takes its colour and its transformation from the list that renders it, and what graphic state is put
      back after it. */
  datatype RunContext = RunContext(color: int, trans: int, flags: int)

  const PARENT: int := 0
  const LOCAL: int := 1
  const ADD: int := 2
  const MUL: int := 3

  function TimesRow(r: Row, n: Matrix): Row {
    Row(r.x * n.a.x + r.y * n.b.x + r.z * n.c.x + r.w * n.d.x,
        r.x * n.a.y + r.y * n.b.y + r.z * n.c.y + r.w * n.d.y,
        r.x * n.a.z + r.y * n.b.z + r.z * n.c.z + r.w * n.d.z,
        r.x * n.a.w + r.y * n.b.w + r.z * n.c.w + r.w * n.d.w)
  }

  function Times(m: Matrix, n: Matrix): Matrix {
    Matrix(TimesRow(m.a, n), TimesRow(m.b, n), TimesRow(m.c, n), TimesRow(m.d, n))
  }

  function Clip(x: real): real { if x < 0.0 then 0.0 else if x > 1.0 then 1.0 else x }

  function AddClip(c: Color, d: Color): Color {
    Color(Clip(c.a + d.a), Clip(c.r + d.r), Clip(c.g + d.g), Clip(c.b + d.b))
  }

  function Product(x: real, y: real): real { x * y }

  function MulClip(c: Color, d: Color): Color {
    Color(Clip(Product(c.a, d.a)), Clip(Product(c.r, d.r)), Clip(Product(c.g, d.g)), Clip(Product(c.b, d.b)))
  }

  /** The context of a list's commands, from its own and that of the list that renders it. */
  function Compose(rc: RunContext, parent: Context, own: Context): Context {
    Context(if rc.trans == PARENT then parent.trans
            else if rc.trans == LOCAL then own.trans
            else Times(own.trans, parent.trans),
            if rc.color == PARENT then parent.color
            else if rc.color == LOCAL then own.color
            else if rc.color == ADD then AddClip(parent.color, own.color)
            else MulClip(parent.color, own.color))
  }

  /** What a signed bit field of that many values keeps of a number. */
  function Field(v: int, values: nat): int
    requires values > 0
  {
    (v + values / 2) % values - values / 2
  }

  /** What is left of a run context when it has been put in its two fields of 2 bits and one of 24. */
  function Stored(rc: RunContext): RunContext {
    RunContext(Field(rc.color, 4), Field(rc.trans, 4), Field(rc.flags, 0x100_0000))
  }

  /** Signed fields of 2 bits hold neither 2 nor 3: asking for the sum of colours gives their product. Everything else
      asked for is what happens. */
  lemma StoredComposes(rc: RunContext, parent: Context, own: Context)
    requires rc.color in {PARENT, LOCAL, ADD, MUL} && rc.trans in {PARENT, LOCAL, ADD, MUL}
    ensures Compose(Stored(rc), parent, own) == Compose(if rc.color == ADD then rc.(color := MUL) else rc, parent, own)
    ensures -0x80_0000 <= rc.flags < 0x80_0000 ==> Stored(rc).flags == rc.flags
  {
    assert Field(PARENT, 4) == PARENT && Field(LOCAL, 4) == LOCAL && Field(ADD, 4) == -2 && Field(MUL, 4) == -1;
    if -0x80_0000 <= rc.flags < 0x80_0000 { SmallMod(rc.flags + 0x80_0000); }
  }

  lemma SmallMod(v: int)
    requires 0 <= v < 0x100_0000
    ensures v % 0x100_0000 == v
  {
  }

  // ----- lists

  datatype Code = Ok | Break | Skip | Error

  const NO_CALL: nat := 0

  /** A command either calls back, with its own data, which it may do in one pass only, or renders another list. */
  datatype Item =
    | Draw(inactive: bool, inOpaque: nat, inTransparent: nat, data: seq<int>)
    | Sub(inactive: bool, rc: RunContext, list: Content)

  /** A list with what was inserted in it, and the lists these commands render, which form no circle. */
  datatype Content = Content(active: bool, own: Context, items: seq<Item>)

  /** A callback with what it reads of its command's data, and graphic state that is saved or put back. */
  datatype Event = Call(f: nat, data: seq<int>, context: Context) | Push(flags: int) | Pop(flags: int)

  /** What callbacks answer, and how much of its command each of them reads. */
  datatype Callbacks = Callbacks(answer: Event -> Code, size: nat -> nat)

  function Prefix(data: seq<int>, n: nat): seq<int> { if n <= |data| then data[..n] else data }

  /** Rendering a list in one pass. */
  function Render(cb: Callbacks, rc: RunContext, parent: Context, c: Content, pass: bool): (seq<Event>, Code)
    decreases c
  {
    if !c.active || c.items == [] then ([], Ok)
    else
      var (events, code) := Items(cb, Compose(rc, parent, c.own), c.items, pass, Ok);
      (if rc.flags != 0 then [Push(rc.flags)] + events + [Pop(rc.flags)] else events, code)
  }

  /** The items one after the other. A break ends the list, a skip passes over the next command, whatever it is, and an
      inactive command does not change the code. */
  function Items(cb: Callbacks, ctx: Context, items: seq<Item>, pass: bool, code: Code): (seq<Event>, Code)
    decreases items
  {
    if items == [] then ([], code)
    else if items[0].inactive then Items(cb, ctx, items[1..], pass, code)
    else
      var (events, c) := Execute(cb, ctx, items[0], pass);
      var (more, last) := Items(cb, ctx, items[Advance(c, |items|)..], pass, c);
      (events + more, last)
  }

  /** How many of n commands are done with when the first one has ended with a code. */
  function Advance(c: Code, n: nat): (k: nat)
    requires n > 0
    ensures 0 < k <= n
  {
    match c
    case Break => n
    case Skip => if n > 1 then 2 else 1
    case _ => 1
  }

  function Execute(cb: Callbacks, ctx: Context, item: Item, pass: bool): (seq<Event>, Code)
    decreases item
  {
    match item
    case Draw(_, o, t, data) => Invoke(cb, ctx, if pass then o else t, data)
    case Sub(_, rc, list) => Render(cb, rc, ctx, list, pass)
  }

  function Invoke(cb: Callbacks, ctx: Context, f: nat, data: seq<int>): (seq<Event>, Code) {
    if f == NO_CALL then ([], Ok)
    else
      var e := Call(f, Prefix(data, cb.size(f)), ctx);
      ([e], cb.answer(e))
  }

  // ----- graphic state

  /** The flags of the saves that are still open after some events, the last one first. */
  function Open(stack: seq<int>, events: seq<Event>): (r: seq<int>)
    decreases |events|
  {
    if events == [] then stack
    else match events[0]
      case Call(_, _, _) => Open(stack, events[1..])
      case Push(f) => Open([f] + stack, events[1..])
      case Pop(_) => Open(if stack == [] then [] else stack[1..], events[1..])
  }

  /** Every restore belongs to the last save that is still open, and puts back what that one saved. */
  predicate Matched(stack: seq<int>, events: seq<Event>)
    decreases |events|
  {
    events != [] ==> match events[0]
      case Call(_, _, _) => Matched(stack, events[1..])
      case Push(f) => Matched([f] + stack, events[1..])
      case Pop(f) => stack != [] && stack[0] == f && Matched(stack[1..], events[1..])
  }

  lemma {:induction false} OpenAppend(stack: seq<int>, e: seq<Event>, f: seq<Event>)
    ensures Open(stack, e + f) == Open(Open(stack, e), f)
    ensures Matched(stack, e + f) <==> Matched(stack, e) && Matched(Open(stack, e), f)
    decreases |e|
  {
    if e == [] {
      assert e + f == f;
    } else {
      assert (e + f)[1..] == e[1..] + f;
      match e[0] {
        case Call(_, _, _) => OpenAppend(stack, e[1..], f);
        case Push(g) => OpenAppend([g] + stack, e[1..], f);
        case Pop(_) => OpenAppend(if stack == [] then [] else stack[1..], e[1..], f);
      }
    }
  }

  /** Whatever callbacks answer, rendering a list leaves no save open and restores nothing it has not saved. */
  lemma {:induction false} RenderMatched(cb: Callbacks, rc: RunContext, parent: Context, c: Content, pass: bool,
                                         stack: seq<int>)
    ensures var events := Render(cb, rc, parent, c, pass).0; Matched(stack, events) && Open(stack, events) == stack
    decreases c
  {
    if c.active && c.items != [] {
      var ctx, f := Compose(rc, parent, c.own), rc.flags;
      var events := Items(cb, ctx, c.items, pass, Ok).0;
      ItemsMatched(cb, ctx, c.items, pass, Ok, stack);
      ItemsMatched(cb, ctx, c.items, pass, Ok, [f] + stack);
      hide Items, Matched, Open;
      Bracketed(f, stack, events);
    }
  }

  /** A list that has something to render, and asks for state to be kept, saves it before anything else and puts it back
      after all else. */
  lemma RenderSaves(cb: Callbacks, rc: RunContext, parent: Context, c: Content, pass: bool)
    ensures var events := Render(cb, rc, parent, c, pass).0;
      if !c.active || c.items == [] then events == []
      else if rc.flags == 0 then events == Items(cb, Compose(rc, parent, c.own), c.items, pass, Ok).0
      else |events| >= 2 && events[0] == Push(rc.flags) && events[|events| - 1] == Pop(rc.flags)
  {
    hide Items, Compose;
  }

  lemma Bracketed(f: int, stack: seq<int>, events: seq<Event>)
    requires Matched([f] + stack, events) && Open([f] + stack, events) == [f] + stack
    ensures Matched(stack, [Push(f)] + events + [Pop(f)]) && Open(stack, [Push(f)] + events + [Pop(f)]) == stack
  {
    OpenAppend(stack, [Push(f)], events);
    OpenAppend(stack, [Push(f)] + events, [Pop(f)]);
    assert [Push(f)][1..] == [] && [Pop(f)][1..] == [] && ([f] + stack)[1..] == stack;
  }

  lemma {:induction false} ItemsMatched(cb: Callbacks, ctx: Context, items: seq<Item>, pass: bool, code: Code,
                                        stack: seq<int>)
    ensures var events := Items(cb, ctx, items, pass, code).0; Matched(stack, events) && Open(stack, events) == stack
    decreases items
  {
    if items != [] {
      if items[0].inactive {
        ItemsMatched(cb, ctx, items[1..], pass, code, stack);
      } else {
        var (events, c) := Execute(cb, ctx, items[0], pass);
        ExecuteMatched(cb, ctx, items[0], pass, stack);
        ItemsMatched(cb, ctx, items[Advance(c, |items|)..], pass, c, stack);
        OpenAppend(stack, events, Items(cb, ctx, items[Advance(c, |items|)..], pass, c).0);
      }
    }
  }

  lemma {:induction false} ExecuteMatched(cb: Callbacks, ctx: Context, item: Item, pass: bool, stack: seq<int>)
    ensures var events := Execute(cb, ctx, item, pass).0; Matched(stack, events) && Open(stack, events) == stack
    decreases item
  {
    if item.Sub? { RenderMatched(cb, item.rc, ctx, item.list, pass, stack); }
  }

  // ----- which commands are reached

  function CodeAt(cb: Callbacks, ctx: Context, items: seq<Item>, pass: bool, i: nat): Code
    requires i < |items|
  {
    Execute(cb, ctx, items[i], pass).1
  }

  /** Where the list goes on after the i-th command. */
  function After(cb: Callbacks, ctx: Context, items: seq<Item>, pass: bool, i: nat): (r: nat)
    requires i < |items|
    ensures i < r <= |items|
  {
    i + if items[i].inactive then 1 else Advance(CodeAt(cb, ctx, items, pass, i), |items| - i)
  }

  predicate Within(indices: seq<nat>, n: nat) { forall k :: 0 <= k < |indices| ==> indices[k] < n }

  /** The indices of the commands that are looked at, from the i-th on. */
  function Reached(cb: Callbacks, ctx: Context, items: seq<Item>, pass: bool, i: nat): (r: seq<nat>)
    ensures Within(r, |items|)
    decreases |items| - i
  {
    if i >= |items| then [] else [i] + Reached(cb, ctx, items, pass, After(cb, ctx, items, pass, i))
  }

  /** Those of some commands that are not inactive. */
  function Active(items: seq<Item>, indices: seq<nat>): (r: seq<nat>)
    requires Within(indices, |items|)
    ensures Within(r, |items|)
  {
    if indices == [] then []
    else
      var rest := Active(items, indices[1..]);
      if items[indices[0]].inactive then rest else [indices[0]] + rest
  }

  function EventsAt(cb: Callbacks, ctx: Context, items: seq<Item>, pass: bool, indices: seq<nat>): seq<Event>
    requires Within(indices, |items|)
  {
    if indices == [] then []
    else
      Execute(cb, ctx, items[indices[0]], pass).0 + EventsAt(cb, ctx, items, pass, indices[1..])
  }

  /** The code of the command that was executed last, or the one from before. */
  function LastCode(cb: Callbacks, ctx: Context, items: seq<Item>, pass: bool, indices: seq<nat>, code: Code): Code
    requires Within(indices, |items|)
  {
    if indices == [] then code else CodeAt(cb, ctx, items, pass, indices[|indices| - 1])
  }

  lemma LastCodeLater(cb: Callbacks, ctx: Context, items: seq<Item>, pass: bool, i: nat, rest: seq<nat>, code: Code)
    requires i < |items| && Within(rest, |items|)
    ensures LastCode(cb, ctx, items, pass, [i] + rest, code)
      == LastCode(cb, ctx, items, pass, rest, CodeAt(cb, ctx, items, pass, i))
  {
  }

  lemma ActiveFirst(items: seq<Item>, i: nat, rest: seq<nat>)
    requires i < |items| && Within(rest, |items|)
    ensures Active(items, [i] + rest) == if items[i].inactive then Active(items, rest) else [i] + Active(items, rest)
  {
    assert ([i] + rest)[1..] == rest;
  }

  lemma EventsFirst(cb: Callbacks, ctx: Context, items: seq<Item>, pass: bool, i: nat, rest: seq<nat>)
    requires i < |items| && Within(rest, |items|)
    ensures EventsAt(cb, ctx, items, pass, [i] + rest)
      == Execute(cb, ctx, items[i], pass).0 + EventsAt(cb, ctx, items, pass, rest)
  {
    assert ([i] + rest)[1..] == rest;
  }

  lemma ItemsStep(cb: Callbacks, ctx: Context, items: seq<Item>, pass: bool, i: nat, code: Code)
    requires i < |items|
    ensures items[i].inactive ==> Items(cb, ctx, items[i..], pass, code) == Items(cb, ctx, items[i + 1..], pass, code)
    ensures !items[i].inactive ==>
      var (events, c) := Execute(cb, ctx, items[i], pass);
      var (more, last) := Items(cb, ctx, items[i + Advance(c, |items| - i)..], pass, c);
      Items(cb, ctx, items[i..], pass, code) == (events + more, last)
  {
    assert items[i..][1..] == items[i + 1..];
    var k := Advance(Execute(cb, ctx, items[i], pass).1, |items| - i);
    assert items[i..][k..] == items[i + k..];
  }

  /** The commands that are reached and active are executed in order, and the last one's code is the list's. */
  lemma {:induction false} ItemsAre(cb: Callbacks, ctx: Context, items: seq<Item>, pass: bool, i: nat, code: Code)
    requires i <= |items|
    ensures var done := Active(items, Reached(cb, ctx, items, pass, i));
      Items(cb, ctx, items[i..], pass, code)
      == (EventsAt(cb, ctx, items, pass, done), LastCode(cb, ctx, items, pass, done, code))
    decreases |items| - i
  {
    hide Execute, EventsAt, Active, LastCode, Items;
    if i == |items| {
      NothingDone(cb, ctx, items, pass, code);
    } else {
      ItemsStep(cb, ctx, items, pass, i, code);
      var inactive, c := items[i].inactive, CodeAt(cb, ctx, items, pass, i);
      var next := After(cb, ctx, items, pass, i);
      var rest := Reached(cb, ctx, items, pass, next);
      ActiveFirst(items, i, rest);
      ItemsAre(cb, ctx, items, pass, next, if inactive then code else c);
      if !inactive {
        EventsFirst(cb, ctx, items, pass, i, Active(items, rest));
        LastCodeLater(cb, ctx, items, pass, i, Active(items, rest), code);
      }
    }
  }

  lemma NothingDone(cb: Callbacks, ctx: Context, items: seq<Item>, pass: bool, code: Code)
    ensures Active(items, []) == [] && EventsAt(cb, ctx, items, pass, []) == []
    ensures LastCode(cb, ctx, items, pass, [], code) == code
    ensures Items(cb, ctx, items[|items|..], pass, code) == ([], code)
  {
  }

  // ----- what the codes of sub-lists do to the lists above

  /** A callback answered that its list is to be broken off. */
  predicate Breaks(cb: Callbacks, e: Event) { e.Call? && cb.answer(e) == Break }

  predicate AnyBreaks(cb: Callbacks, events: seq<Event>) {
    exists k :: 0 <= k < |events| && Breaks(cb, events[k])
  }

  /** After such an answer nothing is called any more. */
  predicate BreakIsLast(cb: Callbacks, events: seq<Event>) {
    forall j, k :: 0 <= j < k < |events| && Breaks(cb, events[j]) ==> !events[k].Call?
  }

  lemma BreakAppend(cb: Callbacks, e: seq<Event>, f: seq<Event>)
    ensures AnyBreaks(cb, e + f) <==> AnyBreaks(cb, e) || AnyBreaks(cb, f)
    ensures BreakIsLast(cb, e) && BreakIsLast(cb, f) && (!AnyBreaks(cb, e) || f == []) ==> BreakIsLast(cb, e + f)
  {
    var ef := e + f;
    if k :| 0 <= k < |e| && Breaks(cb, e[k]) { assert ef[k] == e[k]; }
    if k :| 0 <= k < |f| && Breaks(cb, f[k]) { assert ef[|e| + k] == f[k]; }
    if f == [] { assert ef == e; }
  }

  /** A list ends with a break exactly if a callback of it, or of a list below it at any depth, answers with one, and
      then that callback was the last. */
  lemma {:induction false} BreakIff(cb: Callbacks, rc: RunContext, parent: Context, c: Content, pass: bool)
    ensures var (events, code) := Render(cb, rc, parent, c, pass);
      (code == Break <==> AnyBreaks(cb, events)) && BreakIsLast(cb, events)
    decreases c
  {
    if c.active && c.items != [] {
      var (events, _) := Items(cb, Compose(rc, parent, c.own), c.items, pass, Ok);
      ItemsBreakIff(cb, Compose(rc, parent, c.own), c.items, pass, Ok);
      hide Items;
      BracketsBreak(cb, rc.flags, events);
    }
  }

  lemma BracketsBreak(cb: Callbacks, f: int, events: seq<Event>)
    ensures var e := [Push(f)] + events + [Pop(f)];
      (AnyBreaks(cb, e) <==> AnyBreaks(cb, events)) && (BreakIsLast(cb, events) ==> BreakIsLast(cb, e))
  {
    BreakAppend(cb, [Push(f)], events);
    BreakAppend(cb, [Push(f)] + events, [Pop(f)]);
    var e := [Push(f)] + events + [Pop(f)];
    assert forall k {:trigger e[k]} :: 0 < k <= |events| ==> e[k] == events[k - 1];
  }

  lemma {:induction false} ItemsBreakIff(cb: Callbacks, ctx: Context, items: seq<Item>, pass: bool, before: Code)
    requires before != Break
    ensures var (events, code) := Items(cb, ctx, items, pass, before);
      (code == Break <==> AnyBreaks(cb, events)) && BreakIsLast(cb, events)
    decreases items
  {
    if items != [] {
      if items[0].inactive {
        ItemsBreakIff(cb, ctx, items[1..], pass, before);
      } else {
        var (events, c) := Execute(cb, ctx, items[0], pass);
        ExecuteBreakIff(cb, ctx, items[0], pass);
        hide Execute;
        if c != Break { ItemsBreakIff(cb, ctx, items[Advance(c, |items|)..], pass, c); }
        BreakAppend(cb, events, Items(cb, ctx, items[Advance(c, |items|)..], pass, c).0);
      }
    }
  }

  lemma {:induction false} ExecuteBreakIff(cb: Callbacks, ctx: Context, item: Item, pass: bool)
    ensures var (events, code) := Execute(cb, ctx, item, pass);
      (code == Break <==> AnyBreaks(cb, events)) && BreakIsLast(cb, events)
    decreases item
  {
    match item {
      case Sub(_, rc, list) => BreakIff(cb, rc, ctx, list, pass);
      case Draw(_, o, t, data) =>
        var f := if pass then o else t;
        var e := Call(f, Prefix(data, cb.size(f)), ctx);
        assert [e][0] == e;
    }
  }

  /** A list ends with a skip exactly if the command that it executed last did, be it a callback or a list: also when
      the command to be passed over was its own. */
  lemma SkipIff(cb: Callbacks, rc: RunContext, parent: Context, c: Content, pass: bool)
    ensures var ctx := Compose(rc, parent, c.own);
      var done := Active(c.items, Reached(cb, ctx, c.items, pass, 0));
      Render(cb, rc, parent, c, pass).1 == Skip
      <==> c.active && done != [] && CodeAt(cb, ctx, c.items, pass, done[|done| - 1]) == Skip
  {
    var ctx := Compose(rc, parent, c.own);
    assert c.items[0..] == c.items;
    ItemsAre(cb, ctx, c.items, pass, 0, Ok);
    hide Items, Execute, Reached;
  }

  lemma {:induction false} ReachedAbove(cb: Callbacks, ctx: Context, items: seq<Item>, pass: bool, i: nat)
    ensures forall k :: k in Reached(cb, ctx, items, pass, i) ==> i <= k < |items|
    decreases |items| - i
  {
    hide After;
    if i < |items| { ReachedAbove(cb, ctx, items, pass, After(cb, ctx, items, pass, i)); }
  }

  /** The list with a command that does nothing in the i-th place. */
  function Silenced(items: seq<Item>, i: nat): seq<Item>
    requires i < |items|
  {
    items[i := Draw(false, NO_CALL, NO_CALL, [])]
  }

  lemma {:induction false} SilencedAfter(cb: Callbacks, ctx: Context, items: seq<Item>, pass: bool, i: nat, j: nat)
    requires i < |items| && i < j
    ensures Reached(cb, ctx, Silenced(items, i), pass, j) == Reached(cb, ctx, items, pass, j)
    decreases |items| - j
  {
    if j < |items| {
      assert After(cb, ctx, Silenced(items, i), pass, j) == After(cb, ctx, items, pass, j);
      hide After;
      SilencedAfter(cb, ctx, items, pass, i, After(cb, ctx, items, pass, j));
    }
  }

  lemma SilencedThere(cb: Callbacks, ctx: Context, items: seq<Item>, pass: bool, i: nat)
    requires i < |items|
    ensures Reached(cb, ctx, Silenced(items, i), pass, i) == [i] + Reached(cb, ctx, items, pass, i + 1)
  {
    assert CodeAt(cb, ctx, Silenced(items, i), pass, i) == Ok;
    assert After(cb, ctx, Silenced(items, i), pass, i) == i + 1;
    hide CodeAt, After;
    SilencedAfter(cb, ctx, items, pass, i, i + 1);
  }

  /** From the i-th command on the list goes on as if that command did nothing exactly if it ends well or with an
      error. */
  lemma SilencedHere(cb: Callbacks, ctx: Context, items: seq<Item>, pass: bool, i: nat)
    requires i + 1 < |items| && !items[i].inactive
    ensures Reached(cb, ctx, Silenced(items, i), pass, i) == Reached(cb, ctx, items, pass, i)
      <==> CodeAt(cb, ctx, items, pass, i) in {Ok, Error}
  {
    var k := After(cb, ctx, items, pass, i);
    assert k == i + 1 <==> CodeAt(cb, ctx, items, pass, i) in {Ok, Error} by { hide Execute; }
    hide CodeAt, After;
    SilencedThere(cb, ctx, items, pass, i);
    if k > i + 1 {
      ReachedAbove(cb, ctx, items, pass, k);
      var next := After(cb, ctx, items, pass, i + 1);
      NextLeftOut(i, Reached(cb, ctx, items, pass, k), Reached(cb, ctx, items, pass, next));
    }
  }

  lemma NextLeftOut(i: nat, beyond: seq<nat>, more: seq<nat>)
    requires forall k :: k in beyond ==> k > i + 1
    ensures [i] + beyond != [i] + ([i + 1] + more)
  {
    assert ([i] + ([i + 1] + more))[1] == i + 1;
    if beyond != [] { assert beyond[0] in beyond && ([i] + beyond)[1] == beyond[0]; }
  }

  /** A sub-list leaves the list that renders it alone, all its further commands being looked at as if the sub-list did
      nothing, exactly if it does not end with a break or a skip. */
  lemma {:induction false} SubSpreads(cb: Callbacks, ctx: Context, items: seq<Item>, pass: bool, i: nat, from: nat)
    requires from <= i && i + 1 < |items| && items[i].Sub? && !items[i].inactive
    requires i in Reached(cb, ctx, items, pass, from)
    ensures Reached(cb, ctx, Silenced(items, i), pass, from) == Reached(cb, ctx, items, pass, from)
      <==> Render(cb, items[i].rc, ctx, items[i].list, pass).1 in {Ok, Error}
    decreases i - from
  {
    if from == i {
      SilencedHere(cb, ctx, items, pass, i);
    } else {
      var next := After(cb, ctx, items, pass, from);
      assert After(cb, ctx, Silenced(items, i), pass, from) == next;
      hide After, Render, Silenced;
      assert i in Reached(cb, ctx, items, pass, next);
      ReachedAbove(cb, ctx, items, pass, next);
      SubSpreads(cb, ctx, items, pass, i, next);
      SameFirst(from, Reached(cb, ctx, Silenced(items, i), pass, next), Reached(cb, ctx, items, pass, next));
    }
  }

  lemma SameFirst(x: nat, a: seq<nat>, b: seq<nat>)
    ensures [x] + a == [x] + b <==> a == b
  {
    assert ([x] + a)[1..] == a && ([x] + b)[1..] == b;
  }

  /** Callback 1 answers with a code, all others with no more than that they are done. */
  function Answering(code: Code): Callbacks {
    Callbacks((e: Event) => if e.Call? && e.f == 1 then code else Ok, _ => 0)
  }

  /** A list that renders another one of given commands, then calls back with 2. */
  function Above(own: Context, below: seq<Item>): Content {
    Content(true, own, [Sub(false, RunContext(LOCAL, LOCAL, 0), Content(true, own, below)), Draw(false, 2, 2, [])])
  }

  const LOCALLY := RunContext(LOCAL, LOCAL, 0)

  lemma DrawnAlone(own: Context, f: nat, code: Code, before: Code, pass: bool)
    requires f != NO_CALL
    ensures Items(Answering(code), own, [Draw(false, f, f, [])], pass, before)
      == ([Call(f, [], own)], if f == 1 then code else Ok)
  {
    var items := [Draw(false, f, f, [])];
    var c := if f == 1 then code else Ok;
    assert Execute(Answering(code), own, items[0], pass) == ([Call(f, [], own)], c);
    assert items[1..] == [];
    hide Execute;
    assert Items(Answering(code), own, [], pass, c) == ([], c);
    var call := [Call(f, [], own)];
    assert call + [] == call && items[Advance(c, 1)..] == [];
  }

  /** What the list above does next. */
  lemma AboveIs(own: Context, parent: Context, below: seq<Item>, code: Code, pass: bool)
    requires below != []
    ensures var (events, c) := Items(Answering(code), own, below, pass, Ok);
      Render(Answering(code), LOCALLY, parent, Above(own, below), pass)
      == if c in {Ok, Error} then (events + [Call(2, [], own)], Ok) else (events, c)
  {
    var cb, items := Answering(code), Above(own, below).items;
    var (events, c) := Items(cb, own, below, pass, Ok);
    assert Execute(cb, own, items[0], pass) == (events, c) by { hide Items; }
    AboveItems(cb, own, items, pass);
    DrawnAlone(own, 2, code, c, pass);
    hide Items, Execute, Answering;
  }

  lemma AboveItems(cb: Callbacks, own: Context, items: seq<Item>, pass: bool)
    requires |items| == 2 && !items[0].inactive && items[1] == Draw(false, 2, 2, [])
    ensures var (events, c) := Execute(cb, own, items[0], pass);
      var (more, last) := Items(cb, own, [items[1]], pass, c);
      Items(cb, own, items, pass, Ok) == if c in {Ok, Error} then (events + more, last) else (events, c)
  {
    hide Execute;
    var (events, c) := Execute(cb, own, items[0], pass);
    assert items[1..] == [items[1]] && items[2..] == [] && events + [] == events;
    assert Items(cb, own, [], pass, c) == ([], c);
  }

  /** A sub-list of one callback, then another one: a break or a skip of the first costs the list above the second. */
  lemma OneSpreads(own: Context, parent: Context, pass: bool)
    ensures var list := Above(own, [Draw(false, 1, 1, [])]);
      && Render(Answering(Ok), LOCALLY, parent, list, pass) == ([Call(1, [], own), Call(2, [], own)], Ok)
      && Render(Answering(Break), LOCALLY, parent, list, pass) == ([Call(1, [], own)], Break)
      && Render(Answering(Skip), LOCALLY, parent, list, pass) == ([Call(1, [], own)], Skip)
  {
    hide Render, Items, Above, Answering;
    var below := [Draw(false, 1, 1, [])];
    assert [Call(1, [], own)] + [Call(2, [], own)] == [Call(1, [], own), Call(2, [], own)];
    DrawnAlone(own, 1, Ok, Ok, pass);
    AboveIs(own, parent, below, Ok, pass);
    DrawnAlone(own, 1, Break, Ok, pass);
    AboveIs(own, parent, below, Break, pass);
    DrawnAlone(own, 1, Skip, Ok, pass);
    AboveIs(own, parent, below, Skip, pass);
  }

  /** A sub-list whose first callback makes it pass over its own second one: the list above loses its next command,
      too. */
  lemma SkipSpreads(own: Context, parent: Context, pass: bool)
    ensures var list := Above(own, [Draw(false, 1, 1, []), Draw(false, 3, 3, [])]);
      Render(Answering(Skip), LOCALLY, parent, list, pass) == ([Call(1, [], own)], Skip)
  {
    var cb, below := Answering(Skip), [Draw(false, 1, 1, []), Draw(false, 3, 3, [])];
    assert Execute(cb, own, below[0], pass) == ([Call(1, [], own)], Skip);
    hide Execute, Render;
    assert below[2..] == [] && Items(cb, own, [], pass, Skip) == ([], Skip);
    var call := [Call(1, [], own)];
    assert call + [] == call && Items(cb, own, below, pass, Ok) == (call, Skip);
    AboveIs(own, parent, below, Skip, pass);
  }

  // ----- a sub-list is its commands

  /** The last command is executed and answers that the next one, of the list above, is to be passed over. */
  predicate Dangles(cb: Callbacks, ctx: Context, items: seq<Item>, pass: bool)
    decreases |items|
  {
    items != [] &&
    if items[0].inactive then Dangles(cb, ctx, items[1..], pass)
    else
      var c := Execute(cb, ctx, items[0], pass).1;
      (|items| == 1 && c == Skip) || Dangles(cb, ctx, items[Advance(c, |items|)..], pass)
  }

  /** What comes after commands that ended as told. */
  function Then(cb: Callbacks, ctx: Context, head: (seq<Event>, Code), dangles: bool, b: seq<Item>,
                pass: bool): (seq<Event>, Code)
  {
    var rest := if head.1 == Break then [] else if dangles && b != [] then b[1..] else b;
    var (more, last) := Items(cb, ctx, rest, pass, head.1);
    (head.0 + more, last)
  }

  lemma ThenAppends(cb: Callbacks, ctx: Context, first: seq<Event>, head: (seq<Event>, Code), dangles: bool,
                    b: seq<Item>, pass: bool)
    ensures var t := Then(cb, ctx, head, dangles, b, pass);
      Then(cb, ctx, (first + head.0, head.1), dangles, b, pass) == (first + t.0, t.1)
  {
    hide Items;
    var rest := if head.1 == Break then [] else if dangles && b != [] then b[1..] else b;
    var more := Items(cb, ctx, rest, pass, head.1).0;
    assert first + head.0 + more == first + (head.0 + more);
  }

  /** Commands in front of others: a break ends both, and a skip at their end reaches over to the others. */
  lemma {:induction false} ItemsAppend(cb: Callbacks, ctx: Context, a: seq<Item>, b: seq<Item>, pass: bool,
                                       before: Code)
    requires before != Break
    ensures Items(cb, ctx, a + b, pass, before)
      == Then(cb, ctx, Items(cb, ctx, a, pass, before), Dangles(cb, ctx, a, pass), b, pass)
    decreases a
  {
    if a == [] {
      assert a + b == b;
      assert [] + Items(cb, ctx, b, pass, before).0 == Items(cb, ctx, b, pass, before).0;
    } else if a[0].inactive {
      assert (a + b)[1..] == a[1..] + b;
      ItemsAppend(cb, ctx, a[1..], b, pass, before);
    } else {
      var (events, c) := Execute(cb, ctx, a[0], pass);
      var k, n := Advance(c, |a|), Advance(c, |a + b|);
      AppendFirst(cb, ctx, a, b, pass, before);
      if c != Break && !(c == Skip && |a| == 1) {
        assert (a + b)[n..] == a[k..] + b;
        ItemsAppend(cb, ctx, a[k..], b, pass, c);
        ThenAppends(cb, ctx, events, Items(cb, ctx, a[k..], pass, c), Dangles(cb, ctx, a[k..], pass), b, pass);
      }
    }
  }

  /** The first command, when it does not go on to the other ones in front. */
  lemma AppendFirst(cb: Callbacks, ctx: Context, a: seq<Item>, b: seq<Item>, pass: bool, before: Code)
    requires a != [] && !a[0].inactive
    ensures var (events, c) := Execute(cb, ctx, a[0], pass); c == Break || (c == Skip && |a| == 1) ==>
      Items(cb, ctx, a + b, pass, before)
      == Then(cb, ctx, Items(cb, ctx, a, pass, before), Dangles(cb, ctx, a, pass), b, pass)
  {
    hide Execute;
    var (events, c) := Execute(cb, ctx, a[0], pass);
    var ab := a + b;
    if c == Break {
      assert a[|a|..] == [] && ab[|ab|..] == [];
      assert events + [] == events;
    } else if c == Skip && |a| == 1 {
      assert a[1..] == [] && ab[Advance(c, |ab|)..] == if b != [] then b[1..] else [];
      assert events + [] == events;
    }
  }

  /** If what the commands execute last passes over a command, it is not one of their own. */
  predicate Transparent(cb: Callbacks, ctx: Context, items: seq<Item>, pass: bool) {
    Items(cb, ctx, items, pass, Ok).1 == Skip ==> Dangles(cb, ctx, items, pass)
  }

  lemma {:induction false} DanglesSkips(cb: Callbacks, ctx: Context, items: seq<Item>, pass: bool, before: Code)
    ensures Dangles(cb, ctx, items, pass) ==> Items(cb, ctx, items, pass, before).1 == Skip
    decreases items
  {
    if items != [] {
      if items[0].inactive {
        DanglesSkips(cb, ctx, items[1..], pass, before);
      } else {
        var c := Execute(cb, ctx, items[0], pass).1;
        hide Execute;
        if |items| == 1 { assert items[1..] == []; }
        DanglesSkips(cb, ctx, items[Advance(c, |items|)..], pass, c);
      }
    }
  }

  /** The code from before makes no difference to the calls, nor to the code if something is executed. */
  lemma BeforeForgotten(cb: Callbacks, ctx: Context, items: seq<Item>, pass: bool, before: Code, other: Code)
    ensures Items(cb, ctx, items, pass, before).0 == Items(cb, ctx, items, pass, other).0
    ensures Items(cb, ctx, items, pass, before).1 == Items(cb, ctx, items, pass, other).1
      || (Items(cb, ctx, items, pass, before).1 == before && Items(cb, ctx, items, pass, other).1 == other)
  {
    assert items[0..] == items;
    ItemsAre(cb, ctx, items, pass, 0, before);
    ItemsAre(cb, ctx, items, pass, 0, other);
    hide Items, Execute, Reached, Active, EventsAt;
  }

  lemma Single(cb: Callbacks, ctx: Context, item: Item, pass: bool, before: Code)
    requires !item.inactive
    ensures Items(cb, ctx, [item], pass, before) == Execute(cb, ctx, item, pass)
    ensures Dangles(cb, ctx, [item], pass) <==> Execute(cb, ctx, item, pass).1 == Skip
  {
    hide Execute;
    var (events, c) := Execute(cb, ctx, item, pass);
    assert [item][Advance(c, 1)..] == [] && events + [] == events;
  }

  const INHERITING := RunContext(PARENT, PARENT, 0)

  lemma InheritingIs(cb: Callbacks, ctx: Context, sub: Content, pass: bool)
    requires sub.active
    ensures Execute(cb, ctx, Sub(false, INHERITING, sub), pass) == Items(cb, ctx, sub.items, pass, Ok)
  {
    assert Compose(INHERITING, ctx, sub.own) == ctx;
  }

  /** The calls of a sub-list that inherits everything and of what comes after it, and those of its commands in its
      place. */
  lemma NestedAndInline(cb: Callbacks, ctx: Context, sub: Content, after: seq<Item>, pass: bool, before: Code)
    requires sub.active && before != Break
    ensures var (events, c) := Items(cb, ctx, sub.items, pass, Ok);
      Items(cb, ctx, [Sub(false, INHERITING, sub)] + after, pass, before).0
      == Then(cb, ctx, (events, c), c == Skip, after, pass).0
      && Items(cb, ctx, sub.items + after, pass, before).0
      == Then(cb, ctx, (events, c), Dangles(cb, ctx, sub.items, pass), after, pass).0
  {
    var item := Sub(false, INHERITING, sub);
    InheritingIs(cb, ctx, sub, pass);
    Single(cb, ctx, item, pass, before);
    ItemsAppend(cb, ctx, [item], after, pass, before);
    ItemsAppend(cb, ctx, sub.items, after, pass, before);
    BeforeForgotten(cb, ctx, sub.items, pass, before, Ok);
    DanglesSkips(cb, ctx, sub.items, pass, before);
    DanglesSkips(cb, ctx, sub.items, pass, Ok);
    BeforeForgotten(cb, ctx, after, pass, before, Ok);
  }

  /** Since its code is passed on, a sub-list that inherits everything makes the same calls as its commands in its
      place, whatever comes after it, exactly if it is transparent. */
  lemma InlinedIff(cb: Callbacks, ctx: Context, front: seq<Item>, sub: Content, pass: bool)
    requires sub.active && !Dangles(cb, ctx, front, pass) && Items(cb, ctx, front, pass, Ok).1 != Break
    ensures (forall after :: Items(cb, ctx, front + [Sub(false, INHERITING, sub)] + after, pass, Ok).0
                          == Items(cb, ctx, front + sub.items + after, pass, Ok).0)
      <==> Transparent(cb, ctx, sub.items, pass)
  {
    if Transparent(cb, ctx, sub.items, pass) {
      forall after ensures Items(cb, ctx, front + [Sub(false, INHERITING, sub)] + after, pass, Ok).0
                        == Items(cb, ctx, front + sub.items + after, pass, Ok).0
      {
        InlinedSame(cb, ctx, front, sub, after, pass);
      }
    } else {
      var after := [Draw(false, 1, 1, [])];
      InlinedDiffers(cb, ctx, front, sub, pass);
      assert Items(cb, ctx, front + [Sub(false, INHERITING, sub)] + after, pass, Ok).0
        != Items(cb, ctx, front + sub.items + after, pass, Ok).0;
    }
  }

  lemma BehindFront(cb: Callbacks, ctx: Context, front: seq<Item>, sub: Content, after: seq<Item>, pass: bool)
    requires !Dangles(cb, ctx, front, pass) && Items(cb, ctx, front, pass, Ok).1 != Break
    ensures var (events, c) := Items(cb, ctx, front, pass, Ok);
      Items(cb, ctx, front + [Sub(false, INHERITING, sub)] + after, pass, Ok).0
      == events + Items(cb, ctx, [Sub(false, INHERITING, sub)] + after, pass, c).0
      && Items(cb, ctx, front + sub.items + after, pass, Ok).0 == events + Items(cb, ctx, sub.items + after, pass, c).0
  {
    var nested, inline := [Sub(false, INHERITING, sub)] + after, sub.items + after;
    assert front + [Sub(false, INHERITING, sub)] + after == front + nested;
    assert front + sub.items + after == front + inline;
    ItemsAppend(cb, ctx, front, nested, pass, Ok);
    ItemsAppend(cb, ctx, front, inline, pass, Ok);
    hide Items, Dangles;
  }

  lemma InlinedSame(cb: Callbacks, ctx: Context, front: seq<Item>, sub: Content, after: seq<Item>, pass: bool)
    requires sub.active && !Dangles(cb, ctx, front, pass) && Items(cb, ctx, front, pass, Ok).1 != Break
    requires Transparent(cb, ctx, sub.items, pass)
    ensures Items(cb, ctx, front + [Sub(false, INHERITING, sub)] + after, pass, Ok).0
      == Items(cb, ctx, front + sub.items + after, pass, Ok).0
  {
    BehindFront(cb, ctx, front, sub, after, pass);
    NestedAndInline(cb, ctx, sub, after, pass, Items(cb, ctx, front, pass, Ok).1);
    DanglesSkips(cb, ctx, sub.items, pass, Ok);
    hide Items, Dangles;
  }

  lemma InlinedDiffers(cb: Callbacks, ctx: Context, front: seq<Item>, sub: Content, pass: bool)
    requires sub.active && !Dangles(cb, ctx, front, pass) && Items(cb, ctx, front, pass, Ok).1 != Break
    requires !Transparent(cb, ctx, sub.items, pass)
    ensures var after := [Draw(false, 1, 1, [])];
      |Items(cb, ctx, front + [Sub(false, INHERITING, sub)] + after, pass, Ok).0|
      < |Items(cb, ctx, front + sub.items + after, pass, Ok).0|
  {
    var draw := Draw(false, 1, 1, []);
    BehindFront(cb, ctx, front, sub, [draw], pass);
    NestedAndInline(cb, ctx, sub, [draw], pass, Items(cb, ctx, front, pass, Ok).1);
    Single(cb, ctx, draw, pass, Skip);
    assert |Execute(cb, ctx, draw, pass).0| == 1;
    assert [draw][1..] == [];
    assert Items(cb, ctx, [], pass, Skip).0 == [];
    hide Items, Dangles, Execute;
  }

  // ----- where a call comes from

  /** The event is the call that the command at the end of the path makes; a path goes through active commands and
      active lists, whose contexts are composed on the way. */
  predicate From(ctx: Context, cb: Callbacks, items: seq<Item>, pass: bool, e: Event, path: seq<nat>)
    decreases |path|
  {
    path != [] && path[0] < |items| && !items[path[0]].inactive &&
    match items[path[0]]
    case Draw(_, o, t, data) =>
      var f := if pass then o else t;
      |path| == 1 && f != NO_CALL && e == Call(f, Prefix(data, cb.size(f)), ctx)
    case Sub(_, rc, list) => list.active && From(Compose(rc, ctx, list.own), cb, list.items, pass, e, path[1..])
  }

  lemma FromLater(ctx: Context, cb: Callbacks, items: seq<Item>, pass: bool, e: Event, path: seq<nat>, k: nat)
    requires k <= |items| && From(ctx, cb, items[k..], pass, e, path)
    ensures From(ctx, cb, items, pass, e, [path[0] + k] + path[1..])
  {
    assert ([path[0] + k] + path[1..])[1..] == path[1..];
    assert items[k..][path[0]] == items[path[0] + k];
  }

  /** Every call is some active command's, with its own data and in the context that the lists on the way to it
      compose. */
  lemma {:induction false} CallFrom(cb: Callbacks, ctx: Context, items: seq<Item>, pass: bool, before: Code, e: Event)
    returns (path: seq<nat>)
    requires e.Call? && e in Items(cb, ctx, items, pass, before).0
    ensures From(ctx, cb, items, pass, e, path)
    decreases items
  {
    if items[0].inactive {
      path := CallFrom(cb, ctx, items[1..], pass, before, e);
      FromLater(ctx, cb, items, pass, e, path, 1);
      path := [path[0] + 1] + path[1..];
    } else {
      var (events, c) := Execute(cb, ctx, items[0], pass);
      if e in events {
        path := ExecutedFrom(cb, ctx, items[0], pass, e);
        FromFirst(ctx, cb, items, pass, e, path);
      } else {
        var k := Advance(c, |items|);
        path := CallFrom(cb, ctx, items[k..], pass, c, e);
        FromLater(ctx, cb, items, pass, e, path, k);
        path := [path[0] + k] + path[1..];
      }
    }
  }

  lemma FromFirst(ctx: Context, cb: Callbacks, items: seq<Item>, pass: bool, e: Event, path: seq<nat>)
    requires items != [] && From(ctx, cb, [items[0]], pass, e, path)
    ensures From(ctx, cb, items, pass, e, path)
  {
  }

  lemma {:induction false} ExecutedFrom(cb: Callbacks, ctx: Context, item: Item, pass: bool, e: Event)
    returns (path: seq<nat>)
    requires e.Call? && e in Execute(cb, ctx, item, pass).0 && !item.inactive
    ensures From(ctx, cb, [item], pass, e, path)
    decreases item
  {
    match item {
      case Draw(_, o, t, data) =>
        path := [0];
      case Sub(_, rc, list) =>
        var rest := CallFrom(cb, Compose(rc, ctx, list.own), list.items, pass, Ok, e);
        path := [0] + rest;
        assert path[1..] == rest;
    }
  }
}
