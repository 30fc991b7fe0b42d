/** What composed contexts do: to points, and to each channel of a colour. */
module DisplayContexts {
  import opened DisplayMeaning

  // ----- points

  function Scaled(x: real, r: Row): Row { Row(x * r.x, x * r.y, x * r.z, x * r.w) }

  function Plus(r: Row, s: Row): Row { Row(r.x + s.x, r.y + s.y, r.z + s.z, r.w + s.w) }

  /** A point is transformed to the sum of the rows of the matrix, each as often as the coordinate says. */
  function Through(v: Row, m: Matrix): Row {
    Plus(Plus(Scaled(v.x, m.a), Scaled(v.y, m.b)), Plus(Scaled(v.z, m.c), Scaled(v.w, m.d)))
  }

  function Dot(r: Row, a: real, b: real, c: real, d: real): real { r.x * a + r.y * b + (r.z * c + r.w * d) }

  lemma ThroughIs(v: Row, m: Matrix)
    ensures Through(v, m) == Row(Dot(v, m.a.x, m.b.x, m.c.x, m.d.x), Dot(v, m.a.y, m.b.y, m.c.y, m.d.y),
                                 Dot(v, m.a.z, m.b.z, m.c.z, m.d.z), Dot(v, m.a.w, m.b.w, m.c.w, m.d.w))
  {
  }

  lemma DotScaled(x: real, r: Row, a: real, b: real, c: real, d: real)
    ensures Dot(Scaled(x, r), a, b, c, d) == x * Dot(r, a, b, c, d)
  {
    var p, q, s, t := r.x * a, r.y * b, r.z * c, r.w * d;
    assert x * r.x * a == x * p && x * r.y * b == x * q && x * r.z * c == x * s && x * r.w * d == x * t;
    assert x * (p + q + (s + t)) == x * p + x * q + (x * s + x * t);
  }

  lemma DotPlus(r: Row, s: Row, a: real, b: real, c: real, d: real)
    ensures Dot(Plus(r, s), a, b, c, d) == Dot(r, a, b, c, d) + Dot(s, a, b, c, d)
  {
    assert (r.x + s.x) * a == r.x * a + s.x * a && (r.y + s.y) * b == r.y * b + s.y * b;
    assert (r.z + s.z) * c == r.z * c + s.z * c && (r.w + s.w) * d == r.w * d + s.w * d;
  }

  lemma ScaledThrough(x: real, r: Row, n: Matrix)
    ensures Through(Scaled(x, r), n) == Scaled(x, Through(r, n))
  {
    DotScaled(x, r, n.a.x, n.b.x, n.c.x, n.d.x);
    DotScaled(x, r, n.a.y, n.b.y, n.c.y, n.d.y);
    DotScaled(x, r, n.a.z, n.b.z, n.c.z, n.d.z);
    DotScaled(x, r, n.a.w, n.b.w, n.c.w, n.d.w);
    ThroughIs(r, n);
    ThroughIs(Scaled(x, r), n);
    hide Through, Dot;
  }

  lemma PlusThrough(r: Row, s: Row, n: Matrix)
    ensures Through(Plus(r, s), n) == Plus(Through(r, n), Through(s, n))
  {
    DotPlus(r, s, n.a.x, n.b.x, n.c.x, n.d.x);
    DotPlus(r, s, n.a.y, n.b.y, n.c.y, n.d.y);
    DotPlus(r, s, n.a.z, n.b.z, n.c.z, n.d.z);
    DotPlus(r, s, n.a.w, n.b.w, n.c.w, n.d.w);
    ThroughIs(r, n);
    ThroughIs(s, n);
    ThroughIs(Plus(r, s), n);
    hide Through, Dot;
  }

  lemma RowThrough(r: Row, n: Matrix)
    ensures TimesRow(r, n) == Through(r, n)
  {
  }

  /** A product does to a point what its first matrix does, and then what the second does. */
  lemma ThroughBoth(v: Row, m: Matrix, n: Matrix)
    ensures Through(v, Times(m, n)) == Through(Through(v, m), n)
  {
    var p, q, r, s := Scaled(v.x, m.a), Scaled(v.y, m.b), Scaled(v.z, m.c), Scaled(v.w, m.d);
    RowThrough(m.a, n);
    RowThrough(m.b, n);
    RowThrough(m.c, n);
    RowThrough(m.d, n);
    ScaledThrough(v.x, m.a, n);
    ScaledThrough(v.y, m.b, n);
    ScaledThrough(v.z, m.c, n);
    ScaledThrough(v.w, m.d, n);
    assert Through(Through(v, m), n) == Through(Plus(Plus(p, q), Plus(r, s)), n);
    ProductThrough(p, q, r, s, n);
  }

  lemma ProductThrough(p: Row, q: Row, r: Row, s: Row, n: Matrix)
    ensures Through(Plus(Plus(p, q), Plus(r, s)), n)
      == Plus(Plus(Through(p, n), Through(q, n)), Plus(Through(r, n), Through(s, n)))
  {
    PlusThrough(Plus(p, q), Plus(r, s), n);
    PlusThrough(p, q, n);
    PlusThrough(r, s, n);
  }

  /** What becomes of a point on the way from a list to the one that renders it. */
  lemma ComposedPoint(rc: RunContext, parent: Context, own: Context, v: Row)
    ensures Through(v, Compose(rc, parent, own).trans)
      == if rc.trans == PARENT then Through(v, parent.trans)
         else if rc.trans == LOCAL then Through(v, own.trans)
         else Through(Through(v, own.trans), parent.trans)
  {
    ThroughBoth(v, own.trans, parent.trans);
    hide Through, Times;
  }

  /** A point of the command at the end of a path goes through the lists' own matrices, the innermost first, up to a
      list that inherits nothing; and whether there was none. */
  function Outwards(items: seq<Item>, path: seq<nat>, v: Row): (Row, bool)
    decreases |path|
  {
    if path == [] || path[0] >= |items| then (v, true)
    else
      match items[path[0]]
      case Draw(_, _, _, _) => (v, true)
      case Sub(_, rc, list) =>
        var (w, inherits) := Outwards(list.items, path[1..], v);
        if !inherits then (w, false)
        else if rc.trans == PARENT then (w, true)
        else (Through(w, list.own.trans), rc.trans != LOCAL)
  }

  /** Where a point of a call goes. */
  lemma {:induction false} CallPoint(ctx: Context, cb: Callbacks, items: seq<Item>, pass: bool, e: Event,
                                     path: seq<nat>, v: Row)
    requires From(ctx, cb, items, pass, e, path)
    ensures e.Call? && var (w, inherits) := Outwards(items, path, v);
      Through(v, e.context.trans) == if inherits then Through(w, ctx.trans) else w
    decreases |path|
  {
    hide Through, Compose;
    if items[path[0]].Sub? {
      var rc, list := items[path[0]].rc, items[path[0]].list;
      CallPoint(Compose(rc, ctx, list.own), cb, list.items, pass, e, path[1..], v);
      ComposedPoint(rc, ctx, list.own, Outwards(list.items, path[1..], v).0);
    }
  }

  // ----- colours

  datatype Channel = Alpha | Red | Green | Blue

  function Of(c: Color, h: Channel): real {
    match h case Alpha => c.a case Red => c.r case Green => c.g case Blue => c.b
  }

  /** y is x, or the nearer end of the range of a channel. */
  predicate Bounded(y: real, x: real) {
    0.0 <= y <= 1.0 && (0.0 <= x <= 1.0 ==> y == x) && (x < 0.0 ==> y == 0.0) && (x > 1.0 ==> y == 1.0)
  }

  /** One channel below a list, from that channel above it and that of the list's own colour. */
  predicate Tints(rc: RunContext, above: real, own: real, below: real) {
    if rc.color == PARENT then below == above
    else if rc.color == LOCAL then below == own
    else if rc.color == ADD then Bounded(below, above + own)
    else Bounded(below, above * own)
  }

  lemma ClipBounds(x: real)
    ensures Bounded(Clip(x), x)
  {
  }

  lemma AddedOf(c: Color, d: Color, h: Channel)
    ensures Of(AddClip(c, d), h) == Clip(Of(c, h) + Of(d, h))
  {
    hide Clip;
  }

  lemma MultipliedOf(c: Color, d: Color, h: Channel)
    ensures Of(MulClip(c, d), h) == Clip(Product(Of(c, h), Of(d, h)))
  {
    hide Clip, Product;
  }

  lemma ComposedIs(rc: RunContext, parent: Context, own: Context)
    ensures Compose(rc, parent, own).color
      == if rc.color == PARENT then parent.color
         else if rc.color == LOCAL then own.color
         else if rc.color == ADD then AddClip(parent.color, own.color)
         else MulClip(parent.color, own.color)
  {
    hide Times, AddClip, MulClip;
  }

  lemma ComposedColor(rc: RunContext, parent: Context, own: Context, h: Channel)
    ensures Tints(rc, Of(parent.color, h), Of(own.color, h), Of(Compose(rc, parent, own).color, h))
  {
    hide Compose, Times, AddClip, MulClip, Clip, Of, Bounded;
    var x, y := Of(parent.color, h), Of(own.color, h);
    ComposedIs(rc, parent, own);
    AddedOf(parent.color, own.color, h);
    MultipliedOf(parent.color, own.color, h);
    ClipBounds(x + y);
    ClipBounds(Product(x, y));
    assert Product(x, y) == x * y;
  }

  /** A channel on its way from outside to the command at the end of a path: tinted by one list after the other. */
  ghost predicate Inwards(items: seq<Item>, path: seq<nat>, h: Channel, x: real, y: real)
    decreases |path|
  {
    path != [] && path[0] < |items| &&
    match items[path[0]]
    case Draw(_, _, _, _) => y == x
    case Sub(_, rc, list) =>
      exists z :: Tints(rc, x, Of(list.own.color, h), z) && Inwards(list.items, path[1..], h, z, y)
  }

  lemma {:induction false} CallColor(ctx: Context, cb: Callbacks, items: seq<Item>, pass: bool, e: Event,
                                     path: seq<nat>, h: Channel)
    requires From(ctx, cb, items, pass, e, path)
    ensures e.Call? && Inwards(items, path, h, Of(ctx.color, h), Of(e.context.color, h))
    decreases |path|
  {
    hide Compose, Tints, Of;
    if items[path[0]].Sub? {
      var rc, list := items[path[0]].rc, items[path[0]].list;
      var below := Compose(rc, ctx, list.own);
      CallColor(below, cb, list.items, pass, e, path[1..], h);
      ComposedColor(rc, ctx, list.own, h);
      assert Tints(rc, Of(ctx.color, h), Of(list.own.color, h), Of(below.color, h))
        && Inwards(list.items, path[1..], h, Of(below.color, h), Of(e.context.color, h));
    }
  }

  // ----- whole lists

  /** Every call that rendering a list makes has a path to its command from the list itself, along which its points and
      its colour go. */
  lemma RenderedCall(cb: Callbacks, rc: RunContext, parent: Context, c: Content, pass: bool, e: Event)
    returns (path: seq<nat>)
    requires e.Call? && e in Render(cb, rc, parent, c, pass).0
    ensures From(parent, cb, [Sub(false, rc, c)], pass, e, path)
    ensures forall v ::
      var (w, inherits) := Outwards([Sub(false, rc, c)], path, v);
      Through(v, e.context.trans) == if inherits then Through(w, parent.trans) else w
    ensures forall h :: Inwards([Sub(false, rc, c)], path, h, Of(parent.color, h), Of(e.context.color, h))
  {
    path := ExecutedFrom(cb, parent, Sub(false, rc, c), pass, e);
    hide From, Through, Outwards, Inwards, Of;
    forall v ensures var (w, inherits) := Outwards([Sub(false, rc, c)], path, v);
      Through(v, e.context.trans) == if inherits then Through(w, parent.trans) else w
    {
      CallPoint(parent, cb, [Sub(false, rc, c)], pass, e, path, v);
    }
    forall h ensures Inwards([Sub(false, rc, c)], path, h, Of(parent.color, h), Of(e.context.color, h)) {
      CallColor(parent, cb, [Sub(false, rc, c)], pass, e, path, h);
    }
  }

  const HERE := Row(0.0, 0.0, 0.0, 1.0)

  function Moving(x: real): Matrix {
    Matrix(Row(1.0, 0.0, 0.0, 0.0), Row(0.0, 1.0, 0.0, 0.0), Row(0.0, 0.0, 1.0, 0.0), Row(x, 0.0, 0.0, 1.0))
  }

  function Scaling(x: real): Matrix {
    Matrix(Row(x, 0.0, 0.0, 0.0), Row(0.0, x, 0.0, 0.0), Row(0.0, 0.0, x, 0.0), Row(0.0, 0.0, 0.0, 1.0))
  }

  lemma MovedHere()
    ensures Through(HERE, Moving(5.0)) == Row(5.0, 0.0, 0.0, 1.0)
  {
    ThroughIs(HERE, Moving(5.0));
    hide Through;
  }

  lemma ScaledThere()
    ensures Through(Row(5.0, 0.0, 0.0, 1.0), Scaling(2.0)) == Row(10.0, 0.0, 0.0, 1.0)
  {
    ThroughIs(Row(5.0, 0.0, 0.0, 1.0), Scaling(2.0));
    hide Through;
  }

  /** A list that moves by 5, rendered by one that scales by 2: its origin comes to lie at 10. */
  lemma MovedThenScaled(color: Color)
    ensures var own, parent := Context(Moving(5.0), color), Context(Scaling(2.0), color);
      Through(HERE, Compose(RunContext(MUL, MUL, 0), parent, own).trans) == Row(10.0, 0.0, 0.0, 1.0)
  {
    hide Compose, Through, Moving, Scaling;
    ComposedPoint(RunContext(MUL, MUL, 0), Context(Scaling(2.0), color), Context(Moving(5.0), color), HERE);
    MovedHere();
    ScaledThere();
  }
}
