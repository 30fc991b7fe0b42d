/** The loop that renders display lists, along the offsets in their heaps. */
module DisplayList {
  import opened DisplayMeaning
  import opened DisplayWords

  /** A list as it is rendered: its flag, its transformation and colour, and its heap. */
  datatype HeapList = HeapList(active: bool, own: Context, n: nat, first: int, words: seq<int>)

  /** The list at an address is what the contents say, and so are the lists it renders. */
  predicate Shows(hs: map<int, HeapList>, cb: Callbacks, l: int, c: Content)
    decreases c
  {
    && l in hs && hs[l].active == c.active && hs[l].own == c.own && hs[l].n == |c.items|
    && Follows(hs, cb, hs[l].words, hs[l].first, c.items)
  }

  /** The commands from an offset on, each linked to the one after it. */
  predicate Follows(hs: map<int, HeapList>, cb: Callbacks, words: seq<int>, id: int, items: seq<Item>)
    decreases items
  {
    items != [] ==>
      && 0 <= id && id / 4 + 4 <= |words| && Holds(hs, cb, words, id / 4, items[0])
      && Follows(hs, cb, words, words[id / 4], items[1..])
  }

  predicate Holds(hs: map<int, HeapList>, cb: Callbacks, words: seq<int>, p: nat, item: Item)
    requires p + 4 <= |words|
    decreases item
  {
    && (item.inactive <==> words[p + 1] % 2 == 1)
    && match item
       case Draw(_, o, t, data) =>
         && words[p + 2] == o && words[p + 3] == t && p + 4 + |data| <= |words| && words[p + 4..p + 4 + |data|] == data
         && (o != NO_CALL ==> cb.size(o) <= |data|) && (t != NO_CALL ==> cb.size(t) <= |data|)
       case Sub(_, rc, list) =>
         && words[p + 2] == SUB_OPAQUE && words[p + 3] == SUB_TRANSPARENT && p + 6 <= |words|
         && rc == RcOf(words[p + 5]) && Shows(hs, cb, words[p + 4], list)
  }

  lemma SliceOfSlice(words: seq<int>, p: nat, n: nat, m: nat)
    requires p + n <= |words| && m <= n
    ensures words[p..p + n][..m] == words[p..p + m]
  {
  }

  /** One command: its callback for the pass, or the list it renders. */
  method RunCommand(hs: map<int, HeapList>, cb: Callbacks, words: seq<int>, p: nat, ctx: Context, pass: bool,
                    ghost item: Item)
    returns (events: seq<Event>, code: Code)
    requires p + 4 <= |words| && Holds(hs, cb, words, p, item)
    ensures (events, code) == Execute(cb, ctx, item, pass)
    decreases item, 1
  {
    var f := if pass then words[p + 2] else words[p + 3];
    if f == NO_CALL {
      return [], Ok;
    }
    if f == SUB_OPAQUE || f == SUB_TRANSPARENT {
      events, code := Render(hs, cb, RcOf(words[p + 5]), ctx, words[p + 4], f == SUB_OPAQUE, item.list);
    } else {
      SliceOfSlice(words, p + 4, |item.data|, cb.size(f));
      var e := Call(f, words[p + 4..p + 4 + cb.size(f)], ctx);
      events, code := [e], cb.answer(e);
    }
  }

  /** The items from an index on; behind the end there are none. */
  function Tail(items: seq<Item>, i: nat): seq<Item> { if i <= |items| then items[i..] else [] }

  /** The events so far, followed by those of what comes from index i on, are those of the whole list. */
  predicate Upto(cb: Callbacks, ctx: Context, items: seq<Item>, pass: bool, events: seq<Event>, i: nat, code: Code) {
    var (more, last) := Items(cb, ctx, Tail(items, i), pass, code);
    Items(cb, ctx, items, pass, Ok) == (events + more, last)
  }

  lemma UptoStart(cb: Callbacks, ctx: Context, items: seq<Item>, pass: bool)
    ensures Upto(cb, ctx, items, pass, [], 0, Ok)
  {
    assert items[0..] == items;
    hide Items;
    assert [] + Items(cb, ctx, items, pass, Ok).0 == Items(cb, ctx, items, pass, Ok).0;
  }

  lemma UptoEnd(cb: Callbacks, ctx: Context, items: seq<Item>, pass: bool, events: seq<Event>, i: nat, code: Code)
    requires Upto(cb, ctx, items, pass, events, i, code) && i >= |items|
    ensures Items(cb, ctx, items, pass, Ok) == (events, code)
  {
    assert events + [] == events;
  }

  lemma PassOver(cb: Callbacks, ctx: Context, items: seq<Item>, pass: bool, events: seq<Event>, i: nat, code: Code)
    requires Upto(cb, ctx, items, pass, events, i, code) && i < |items| && items[i].inactive
    ensures Upto(cb, ctx, items, pass, events, i + 1, code)
  {
    ItemsStep(cb, ctx, items, pass, i, code);
    hide Items;
  }

  /** The index the loop goes on from after the i-th command has ended with a code. */
  function NextIndex(n: nat, i: nat, code: Code): nat {
    match code
    case Break => n + 1
    case Skip => i + 2
    case _ => i + 1
  }

  lemma Proceed(cb: Callbacks, ctx: Context, items: seq<Item>, pass: bool, had: seq<Event>, i: nat, was: Code,
                events: seq<Event>, code: Code)
    requires Upto(cb, ctx, items, pass, had, i, was) && i < |items| && !items[i].inactive
    requires (events, code) == Execute(cb, ctx, items[i], pass)
    ensures Upto(cb, ctx, items, pass, had + events, NextIndex(|items|, i, code), code)
  {
    hide Items, Execute;
    ItemsStep(cb, ctx, items, pass, i, was);
    NextTail(items, i, code);
    hide NextIndex, Advance;
    var more := Items(cb, ctx, Tail(items, NextIndex(|items|, i, code)), pass, code).0;
    assert had + (events + more) == had + events + more;
    hide Tail;
  }

  lemma NextTail(items: seq<Item>, i: nat, code: Code)
    requires i < |items|
    ensures Tail(items, NextIndex(|items|, i, code)) == items[i + Advance(code, |items| - i)..]
  {
  }

  lemma FollowsAt(hs: map<int, HeapList>, cb: Callbacks, words: seq<int>, id: int, items: seq<Item>, i: nat)
    requires i < |items| && Follows(hs, cb, words, id, items[i..])
    ensures 0 <= id && id / 4 + 4 <= |words| && Holds(hs, cb, words, id / 4, items[i])
    ensures Follows(hs, cb, words, words[id / 4], items[i + 1..])
  {
    assert items[i..][1..] == items[i + 1..];
  }

  /** Where the loop stands: what it has done, and at which offset it goes on. */
  predicate Stands(hs: map<int, HeapList>, cb: Callbacks, words: seq<int>, ctx: Context, items: seq<Item>, pass: bool,
                   events: seq<Event>, code: Code, i: nat, id: int)
  {
    Upto(cb, ctx, items, pass, events, i, code) && (i < |items| ==> Follows(hs, cb, words, id, items[i..]))
  }

  lemma StandsAt(hs: map<int, HeapList>, cb: Callbacks, words: seq<int>, ctx: Context, items: seq<Item>, pass: bool,
                 events: seq<Event>, code: Code, i: nat, id: int)
    requires Stands(hs, cb, words, ctx, items, pass, events, code, i, id) && i < |items|
    ensures 0 <= id && id / 4 + 4 <= |words| && Holds(hs, cb, words, id / 4, items[i])
    ensures items[i].inactive <==> words[id / 4 + 1] % 2 == 1
    ensures items[i].inactive ==> Stands(hs, cb, words, ctx, items, pass, events, code, i + 1, words[id / 4])
  {
    FollowsAt(hs, cb, words, id, items, i);
    if items[i].inactive { PassOver(cb, ctx, items, pass, events, i, code); }
    hide Upto, Follows;
  }

  lemma StandsAfter(hs: map<int, HeapList>, cb: Callbacks, words: seq<int>, ctx: Context, items: seq<Item>, pass: bool,
                    had: seq<Event>, was: Code, i: nat, id: int, events: seq<Event>, code: Code)
    requires Stands(hs, cb, words, ctx, items, pass, had, was, i, id) && i < |items| && !items[i].inactive
    requires 0 <= id && id / 4 + 4 <= |words| && (events, code) == Execute(cb, ctx, items[i], pass)
    ensures code == Ok || code == Error ==>
      Stands(hs, cb, words, ctx, items, pass, had + events, code, i + 1, words[id / 4])
    ensures code == Break ==> Stands(hs, cb, words, ctx, items, pass, had + events, code, |items| + 1, words[id / 4])
    ensures code == Skip ==>
      if i + 1 < |items| then
        var next := words[id / 4] / 4;
        0 <= next < |words| && Stands(hs, cb, words, ctx, items, pass, had + events, code, i + 2, words[next])
      else Stands(hs, cb, words, ctx, items, pass, had + events, code, i + 2, words[id / 4])
  {
    FollowsAt(hs, cb, words, id, items, i);
    Proceed(cb, ctx, items, pass, had, i, was, events, code);
    if i + 1 < |items| { FollowsAt(hs, cb, words, words[id / 4], items, i + 1); }
    hide Upto, Follows, Execute, Holds;
  }

  /** The loop over the commands, along their offsets. */
  method RenderLoop(hs: map<int, HeapList>, cb: Callbacks, ctx: Context, l: int, pass: bool, ghost c: Content)
    returns (events: seq<Event>, code: Code)
    requires Shows(hs, cb, l, c)
    ensures (events, code) == Items(cb, ctx, c.items, pass, Ok)
    decreases c, 0
  {
    var words, i, end, id := hs[l].words, 0, hs[l].n, hs[l].first;
    ghost var items := c.items;
    assert items[0..] == items;
    UptoStart(cb, ctx, items, pass);
    assert Stands(hs, cb, words, ctx, items, pass, [], Ok, i, id);
    assert end == |items|;
    hide *;
    events, code := [], Ok;
    while i < end
      invariant Stands(hs, cb, words, ctx, items, pass, events, code, i, id)
      decreases end - i
    {
      StandsAt(hs, cb, words, ctx, items, pass, events, code, i, id);
      var command := id / 4;
      if words[command + 1] % 2 == 1 {
        i, id := i + 1, words[command];
        continue;
      }
      ghost var had, was := events, code;
      var more: seq<Event>;
      more, code := RunCommand(hs, cb, words, command, ctx, pass, items[i]);
      events := events + more;
      StandsAfter(hs, cb, words, ctx, items, pass, had, was, i, id, more, code);
      match code {
        case Ok =>
        case Error =>
        case Break => i := end;
        case Skip =>
          i := i + 1;
          if i < end {
            command := words[command] / 4;
          }
      }
      i, id := i + 1, words[command];
    }
    StandsUpto(hs, cb, words, ctx, items, pass, events, code, i, id);
    UptoEnd(cb, ctx, items, pass, events, i, code);
  }

  lemma StandsUpto(hs: map<int, HeapList>, cb: Callbacks, words: seq<int>, ctx: Context, items: seq<Item>, pass: bool,
                   events: seq<Event>, code: Code, i: nat, id: int)
    requires Stands(hs, cb, words, ctx, items, pass, events, code, i, id)
    ensures Upto(cb, ctx, items, pass, events, i, code)
  {
  }

  /** dl_render_list: rendering by following offsets is what the contents mean. */
  method Render(hs: map<int, HeapList>, cb: Callbacks, rc: RunContext, parent: Context, l: int, pass: bool,
                ghost c: Content)
    returns (events: seq<Event>, code: Code)
    requires Shows(hs, cb, l, c)
    ensures (events, code) == DisplayMeaning.Render(cb, rc, parent, c, pass)
    decreases c, 1
  {
    hide Follows, Items;
    if !hs[l].active {
      return [], Ok;
    }
    if 0 >= hs[l].n {
      return [], Ok;
    }
    events := [];
    if rc.flags != 0 {
      events := [Push(rc.flags)];
    }
    var own, trans, color := hs[l].own, parent.trans, parent.color;
    if rc.trans == LOCAL {
      trans := own.trans;
    } else if rc.trans != PARENT {
      trans := Times(own.trans, parent.trans);
    }
    if rc.color == LOCAL {
      color := own.color;
    } else if rc.color == ADD {
      color := AddClip(parent.color, own.color);
    } else if rc.color != PARENT {
      color := MulClip(parent.color, own.color);
    }
    var more: seq<Event>;
    more, code := RenderLoop(hs, cb, Context(trans, color), l, pass, c);
    assert [] + more == more;
    events := events + more;
    if rc.flags != 0 {
      events := events + [Pop(rc.flags)];
    }
  }

  // ----- what was inserted is what is rendered

  /** What an inserted command means: its callbacks with its data, or the list at the address in its data. */
  predicate Means(hs: map<int, HeapList>, cb: Callbacks, c: Command, item: Item) {
    && c.inactive == item.inactive
    && match item
       case Draw(_, o, t, data) =>
         && c.inOpaque == o && c.inTransparent == t && c.data == data
         && (o != NO_CALL ==> cb.size(o) <= |data|) && (t != NO_CALL ==> cb.size(t) <= |data|)
       case Sub(_, rc, list) =>
         && c.inOpaque == SUB_OPAQUE && c.inTransparent == SUB_TRANSPARENT && |c.data| >= 2
         && rc == RcOf(c.data[1]) && Shows(hs, cb, c.data[0], list)
  }

  lemma AtHolds(hs: map<int, HeapList>, cb: Callbacks, words: seq<int>, p: nat, next: int, c: Command, item: Item)
    requires At(words, p, next, c) && Means(hs, cb, c, item)
    ensures Holds(hs, cb, words, p, item)
  {
    hide Shows;
    if item.Sub? {
      assert c.data[0] == words[p + 4..p + 4 + |c.data|][0] == words[p + 4];
      assert c.data[1] == words[p + 4..p + 4 + |c.data|][1] == words[p + 5];
    }
  }

  lemma {:induction false} LaidFollows(hs: map<int, HeapList>, cb: Callbacks, h: Heap, cs: seq<Command>, ids: seq<int>,
                                       items: seq<Item>, i: nat)
    requires Laid(h, cs, ids) && |items| == |cs| && i <= |items|
    requires forall k :: 0 <= k < |items| ==> Means(hs, cb, cs[k], items[k])
    ensures Follows(hs, cb, h.words, IdAt(ids, i), items[i..])
    decreases |items| - i
  {
    hide Means;
    if i < |items| {
      Below(h, cs, ids, i);
      AtHolds(hs, cb, h.words, ids[i] / 4, IdAt(ids, i + 1), cs[i], items[i]);
      LaidFollows(hs, cb, h, cs, ids, items, i + 1);
      assert items[i..][1..] == items[i + 1..];
      hide Laid, Holds;
    }
  }

  /** A list whose heap holds inserted commands shows what they mean, whatever was allocated in between. */
  lemma LaidShows(hs: map<int, HeapList>, cb: Callbacks, l: int, h: Heap, cs: seq<Command>, ids: seq<int>, c: Content)
    requires Laid(h, cs, ids) && |c.items| == |cs| && forall k :: 0 <= k < |cs| ==> Means(hs, cb, cs[k], c.items[k])
    requires l in hs && hs[l] == HeapList(c.active, c.own, h.n, h.first, h.words)
    ensures Shows(hs, cb, l, c)
  {
    LaidFollows(hs, cb, h, cs, ids, c.items, 0);
    assert c.items[0..] == c.items;
    hide Follows, Means;
  }
}
