/** Clipping a box with a colour at each corner, over exact reals: what is left keeps the colours it had. */
module Box {
  import opened Common

  datatype Colour = Colour(a: real, r: real, g: real, b: real)

  datatype Clip = Clip(x1: real, y1: real, x2: real, y2: real)

  /** Corners 1 and 2 are the upper ones, 3 and 4 the lower ones. */
  datatype Quad = Quad(x1: real, y1: real, x2: real, y2: real, c1: Colour, c2: Colour, c3: Colour, c4: Colour)

  /** No box narrower or lower than this is drawn. */
  const TINY := 0.00001

  function Mix(p: real, q: real, t: real): real { p + (q - p) * t }

  function MixColour(p: Colour, q: Colour, t: real): Colour {
    Colour(Mix(p.a, q.a, t), Mix(p.r, q.r, t), Mix(p.g, q.g, t), Mix(p.b, q.b, t))
  }

  /** How far x is on the way from a to b. */
  function Share(a: real, b: real, x: real): real
    requires a != b
  {
    (x - a) / (b - a)
  }

  /** How far m is on the way back from b to a. */
  function ShareBack(a: real, b: real, m: real): real
    requires a != b
  {
    (b - m) / (b - a)
  }

  /** The colour at a point, by bilinear interpolation between the corners. */
  function At(q: Quad, x: real, y: real): Colour
    requires q.x1 != q.x2 && q.y1 != q.y2
  {
    var u, v := Share(q.x1, q.x2, x), Share(q.y1, q.y2, y);
    MixColour(MixColour(q.c1, q.c2, u), MixColour(q.c3, q.c4, u), v)
  }

  function Max(a: real, b: real): real { if a < b then b else a }

  function Min(a: real, b: real): real { if b < a then b else a }

  /** Is nothing drawn? The box is outside, or it is too small, or what the left and upper edges leave is. */
  predicate Rejected(q: Quad, clip: Clip) {
    || q.x1 >= clip.x2 || q.y1 >= clip.y2 || q.x2 <= clip.x1 || q.y2 <= clip.y1
    || q.x2 - q.x1 < TINY || q.y2 - q.y1 < TINY
    || q.x2 - Max(q.x1, clip.x1) < TINY || q.y2 - Max(q.y1, clip.y1) < TINY
  }

  // ----- interpolation

  function Join(f: real, t: real): real { f + t - f * t }

  function Cut(f: real, t: real): real { t - f * t }

  /** Mixing from a mixed end is mixing from the end itself. */
  lemma MixFrom(p: real, q: real, f: real, t: real)
    ensures Mix(Mix(p, q, f), q, t) == Mix(p, q, Join(f, t))
  {
  }

  lemma MixTo(p: real, q: real, f: real, t: real)
    ensures Mix(p, Mix(q, p, f), t) == Mix(p, q, Cut(f, t))
  {
  }

  /** Mixing in both directions may be done in either order. */
  lemma MixSwap(p: real, q: real, r: real, s: real, u: real, v: real)
    ensures Mix(Mix(p, q, u), Mix(r, s, u), v) == Mix(Mix(p, r, v), Mix(q, s, v), u)
  {
    assert (q - p) * u * v == (q - p) * v * u;
  }

  lemma SwapColour(p: Colour, q: Colour, r: Colour, s: Colour, u: real, v: real)
    ensures MixColour(MixColour(p, q, u), MixColour(r, s, u), v) == MixColour(MixColour(p, r, v), MixColour(q, s, v), u)
  {
    hide Mix;
    MixSwap(p.a, q.a, r.a, s.a, u, v);
    MixSwap(p.r, q.r, r.r, s.r, u, v);
    MixSwap(p.g, q.g, r.g, s.g, u, v);
    MixSwap(p.b, q.b, r.b, s.b, u, v);
  }

  lemma FromColour(p: Colour, q: Colour, f: real, t: real)
    ensures MixColour(MixColour(p, q, f), q, t) == MixColour(p, q, Join(f, t))
    ensures MixColour(p, MixColour(q, p, f), t) == MixColour(p, q, Cut(f, t))
  {
    hide Mix, Join, Cut;
    MixFrom(p.a, q.a, f, t); MixTo(p.a, q.a, f, t);
    MixFrom(p.r, q.r, f, t); MixTo(p.r, q.r, f, t);
    MixFrom(p.g, q.g, f, t); MixTo(p.g, q.g, f, t);
    MixFrom(p.b, q.b, f, t); MixTo(p.b, q.b, f, t);
  }

  /** The shares along an edge whose start has been moved to m. */
  lemma Fractions(a: real, m: real, b: real, x: real)
    requires a < b && m < b
    ensures Join(Share(a, b, m), Share(m, b, x)) == Share(a, b, x)
  {
    var f, t := (m - a) / (b - a), (x - m) / (b - m);
    assert f * (b - a) == m - a && t * (b - m) == x - m;
    assert (1.0 - f) * (b - a) == b - m;
    assert (f + t - f * t) * (b - a) == f * (b - a) + t * ((1.0 - f) * (b - a));
  }

  /** And of one whose end has been moved to m. */
  lemma FractionsEnd(a: real, m: real, b: real, x: real)
    requires a < b && a < m
    ensures Cut(ShareBack(a, b, m), Share(a, m, x)) == Share(a, b, x)
  {
    var f, t := (b - m) / (b - a), (x - a) / (m - a);
    assert f * (b - a) == b - m && t * (m - a) == x - a;
    assert (1.0 - f) * (b - a) == m - a;
    assert (t - f * t) * (b - a) == t * ((1.0 - f) * (b - a));
  }

  // ----- the four clips

  function ClipMe(x: Colour, y: Colour, f1: real, f2: real): Colour {
    Colour(y.a * f1 + x.a * f2, y.r * f1 + x.r * f2, y.g * f1 + x.g * f2, y.b * f1 + x.b * f2)
  }

  lemma ClipMeMixes(x: Colour, y: Colour, f: real)
    ensures ClipMe(x, y, f, 1.0 - f) == MixColour(x, y, f)
  {
    ClipOne(x.a, y.a, f);
    ClipOne(x.r, y.r, f);
    ClipOne(x.g, y.g, f);
    ClipOne(x.b, y.b, f);
  }

  lemma ClipOne(x: real, y: real, f: real)
    ensures y * f + x * (1.0 - f) == Mix(x, y, f)
  {
  }

  function ClipLeft(q: Quad, m: real): Quad
    requires q.x1 < q.x2
  {
    var f := Share(q.x1, q.x2, m);
    q.(x1 := m, c1 := MixColour(q.c1, q.c2, f), c3 := MixColour(q.c3, q.c4, f))
  }

  function ClipTop(q: Quad, m: real): Quad
    requires q.y1 < q.y2
  {
    var f := Share(q.y1, q.y2, m);
    q.(y1 := m, c1 := MixColour(q.c1, q.c3, f), c2 := MixColour(q.c2, q.c4, f))
  }

  function ClipRight(q: Quad, m: real): Quad
    requires q.x1 < q.x2
  {
    var f := ShareBack(q.x1, q.x2, m);
    q.(x2 := m, c2 := MixColour(q.c2, q.c1, f), c4 := MixColour(q.c4, q.c3, f))
  }

  function ClipBottom(q: Quad, m: real): Quad
    requires q.y1 < q.y2
  {
    var f := ShareBack(q.y1, q.y2, m);
    q.(y2 := m, c3 := MixColour(q.c3, q.c1, f), c4 := MixColour(q.c4, q.c2, f))
  }

  /** Cutting off the left keeps the colour at every point. */
  lemma LeftKeeps(q: Quad, m: real, x: real, y: real)
    requires q.x1 < q.x2 && m < q.x2 && q.y1 < q.y2
    ensures At(ClipLeft(q, m), x, y) == At(q, x, y)
  {
    hide MixColour, Share, Join;
    var f, t := Share(q.x1, q.x2, m), Share(m, q.x2, x);
    Fractions(q.x1, m, q.x2, x);
    FromColour(q.c1, q.c2, f, t);
    FromColour(q.c3, q.c4, f, t);
  }

  lemma RightKeeps(q: Quad, m: real, x: real, y: real)
    requires q.x1 < q.x2 && q.x1 < m && q.y1 < q.y2
    ensures At(ClipRight(q, m), x, y) == At(q, x, y)
  {
    hide MixColour, Share, ShareBack, Cut;
    var f, t := ShareBack(q.x1, q.x2, m), Share(q.x1, m, x);
    FractionsEnd(q.x1, m, q.x2, x);
    FromColour(q.c1, q.c2, f, t);
    FromColour(q.c3, q.c4, f, t);
  }

  /** The box with its two directions exchanged. */
  function Turned(q: Quad): Quad { Quad(q.y1, q.x1, q.y2, q.x2, q.c1, q.c3, q.c2, q.c4) }

  lemma TurnedAt(q: Quad, x: real, y: real)
    requires q.x1 != q.x2 && q.y1 != q.y2
    ensures At(Turned(q), y, x) == At(q, x, y)
  {
    hide MixColour, Share;
    SwapColour(q.c1, q.c2, q.c3, q.c4, Share(q.x1, q.x2, x), Share(q.y1, q.y2, y));
  }

  lemma TopKeeps(q: Quad, m: real, x: real, y: real)
    requires q.x1 < q.x2 && m < q.y2 && q.y1 < q.y2
    ensures At(ClipTop(q, m), x, y) == At(q, x, y)
  {
    TurnedAt(q, x, y);
    TurnedAt(ClipTop(q, m), x, y);
    assert Turned(ClipTop(q, m)) == ClipLeft(Turned(q), m);
    LeftKeeps(Turned(q), m, y, x);
  }

  lemma BottomKeeps(q: Quad, m: real, x: real, y: real)
    requires q.x1 < q.x2 && q.y1 < m && q.y1 < q.y2
    ensures At(ClipBottom(q, m), x, y) == At(q, x, y)
  {
    TurnedAt(q, x, y);
    TurnedAt(ClipBottom(q, m), x, y);
    assert Turned(ClipBottom(q, m)) == ClipRight(Turned(q), m);
    RightKeeps(Turned(q), m, y, x);
  }

  predicate Proper(q: Quad) { q.x1 < q.x2 && q.y1 < q.y2 }

  /** Two boxes have the same colour at every point. */
  ghost predicate Keeps(p: Quad, q: Quad) { Proper(p) && Proper(q) && forall x, y :: At(p, x, y) == At(q, x, y) }

  lemma ClipsKeep(q: Quad, o: Quad, m: real)
    requires Keeps(q, o)
    ensures m < q.x2 ==> Keeps(ClipLeft(q, m), o)
    ensures m < q.y2 ==> Keeps(ClipTop(q, m), o)
    ensures q.x1 < m ==> Keeps(ClipRight(q, m), o)
    ensures q.y1 < m ==> Keeps(ClipBottom(q, m), o)
  {
    hide At;
    if m < q.x2 {
      forall x, y ensures At(ClipLeft(q, m), x, y) == At(o, x, y) { LeftKeeps(q, m, x, y); }
    }
    if m < q.y2 {
      forall x, y ensures At(ClipTop(q, m), x, y) == At(o, x, y) { TopKeeps(q, m, x, y); }
    }
    if q.x1 < m {
      forall x, y ensures At(ClipRight(q, m), x, y) == At(o, x, y) { RightKeeps(q, m, x, y); }
    }
    if q.y1 < m {
      forall x, y ensures At(ClipBottom(q, m), x, y) == At(o, x, y) { BottomKeeps(q, m, x, y); }
    }
  }

  // ----- what the answer means

  lemma Ends(a: real, b: real)
    requires a != b
    ensures Share(a, b, a) == 0.0 && Share(a, b, b) == 1.0
  {
    var w := b - a;
    assert w != 0.0 && w / w == 1.0;
  }

  lemma MixEnds(p: Colour, q: Colour)
    ensures MixColour(p, q, 0.0) == p && MixColour(p, q, 1.0) == q
  {
  }

  /** The corners have their own colours. */
  lemma AtCorners(q: Quad)
    requires Proper(q)
    ensures At(q, q.x1, q.y1) == q.c1 && At(q, q.x2, q.y1) == q.c2
    ensures At(q, q.x1, q.y2) == q.c3 && At(q, q.x2, q.y2) == q.c4
  {
    Ends(q.x1, q.x2);
    Ends(q.y1, q.y2);
    MixEnds(q.c1, q.c2);
    MixEnds(q.c3, q.c4);
    MixEnds(q.c1, q.c3);
    MixEnds(q.c2, q.c3);
    MixEnds(q.c1, q.c4);
    MixEnds(q.c2, q.c4);
    hide Share, MixColour;
  }

  /** A box is drawn exactly if it and the clipping box overlap in both directions, and at least 0.00001 of it are
      left to the right of the left edge and below the upper one. */
  lemma DrawnIff(q: Quad, clip: Clip)
    ensures !Rejected(q, clip) <==>
      && q.x1 < clip.x2 && clip.x1 < q.x2 && q.x1 + 0.00001 <= q.x2 && clip.x1 + 0.00001 <= q.x2
      && q.y1 < clip.y2 && clip.y1 < q.y2 && q.y1 + 0.00001 <= q.y2 && clip.y1 + 0.00001 <= q.y2
  {
  }

  /** The points between the edges of what is drawn are those of the box that are in the clipping box. */
  lemma DrawnPoints(q: Quad, clip: Clip, x: real, y: real)
    ensures Max(q.x1, clip.x1) <= x <= Min(q.x2, clip.x2) <==> q.x1 <= x <= q.x2 && clip.x1 <= x <= clip.x2
    ensures Max(q.y1, clip.y1) <= y <= Min(q.y2, clip.y2) <==> q.y1 <= y <= q.y2 && clip.y1 <= y <= clip.y2
  {
  }

  /** What is drawn of a box: nothing, or its part inside the clipping box with the colours it had there. */
  method DrawBox4(q: Quad, clip: Clip) returns (drawn: Option<Quad>)
    ensures drawn.None? <==> Rejected(q, clip)
    ensures drawn.Some? ==>
      drawn.value.x1 == Max(q.x1, clip.x1) && drawn.value.y1 == Max(q.y1, clip.y1)
      && drawn.value.x2 == Min(q.x2, clip.x2) && drawn.value.y2 == Min(q.y2, clip.y2)
    ensures drawn.Some? && clip.x1 < clip.x2 && clip.y1 < clip.y2 ==> Keeps(drawn.value, q)
  {
    var x1, y1, x2, y2 := q.x1, q.y1, q.x2, q.y2;
    var c1, c2, c3, c4 := q.c1, q.c2, q.c3, q.c4;
    if x1 >= clip.x2 || y1 >= clip.y2 || x2 <= clip.x1 || y2 <= clip.y1 {
      return None;
    }
    var w, h := x2 - x1, y2 - y1;
    if w < TINY || h < TINY {
      return None;
    }
    assert Keeps(q, q);
    hide At, MixColour, ClipMe, Keeps;
    if x1 < clip.x1 {
      var f1 := (clip.x1 - x1) / w;
      var f2 := 1.0 - f1;
      x1 := clip.x1;
      w := x2 - x1;
      if w < TINY {
        return None;
      }
      ClipMeMixes(c1, c2, f1);
      ClipMeMixes(c3, c4, f1);
      c1 := ClipMe(c1, c2, f1, f2);
      c3 := ClipMe(c3, c4, f1, f2);
      ClipsKeep(q, q, clip.x1);
    }
    ghost var q1 := Quad(x1, y1, x2, y2, c1, c2, c3, c4);
    assert Keeps(q1, q);
    if y1 < clip.y1 {
      var f1 := (clip.y1 - y1) / h;
      var f2 := 1.0 - f1;
      y1 := clip.y1;
      h := y2 - y1;
      if h < TINY {
        return None;
      }
      ClipMeMixes(c1, c3, f1);
      ClipMeMixes(c2, c4, f1);
      c1 := ClipMe(c1, c3, f1, f2);
      c2 := ClipMe(c2, c4, f1, f2);
      ClipsKeep(q1, q, clip.y1);
    }
    var q2 := Quad(x1, y1, x2, y2, c1, c2, c3, c4);
    assert Keeps(q2, q);
    drawn := ClipFar(q2, clip, w, h, q);
  }

  /** The right and the lower clip, with the width and height that the first two have left. */
  method ClipFar(q: Quad, clip: Clip, w: real, h: real, ghost o: Quad) returns (drawn: Option<Quad>)
    requires Proper(q) && Keeps(q, o) && w == q.x2 - q.x1 && h == q.y2 - q.y1
    ensures drawn.Some? && drawn.value.x1 == q.x1 && drawn.value.y1 == q.y1
    ensures drawn.value.x2 == Min(q.x2, clip.x2) && drawn.value.y2 == Min(q.y2, clip.y2)
    ensures q.x1 < clip.x2 && q.y1 < clip.y2 ==> Keeps(drawn.value, o)
  {
    hide At, MixColour, ClipMe, Keeps;
    var x2, y2, c2, c3, c4 := q.x2, q.y2, q.c2, q.c3, q.c4;
    if x2 > clip.x2 {
      var f1 := (x2 - clip.x2) / w;
      var f2 := 1.0 - f1;
      x2 := clip.x2;
      ClipMeMixes(c2, q.c1, f1);
      ClipMeMixes(c4, c3, f1);
      c2 := ClipMe(c2, q.c1, f1, f2);
      c4 := ClipMe(c4, c3, f1, f2);
      ClipsKeep(q, o, clip.x2);
    }
    ghost var q3 := Quad(q.x1, q.y1, x2, y2, q.c1, c2, c3, c4);
    assert q.x1 < clip.x2 ==> Keeps(q3, o);
    if y2 > clip.y2 {
      var f1 := (y2 - clip.y2) / h;
      var f2 := 1.0 - f1;
      y2 := clip.y2;
      ClipMeMixes(c3, q.c1, f1);
      ClipMeMixes(c4, c2, f1);
      c3 := ClipMe(c3, q.c1, f1, f2);
      c4 := ClipMe(c4, c2, f1, f2);
      if q.x1 < clip.x2 { ClipsKeep(q3, o, clip.y2); }
    }
    drawn := Some(Quad(q.x1, q.y1, x2, y2, q.c1, c2, c3, c4));
  }
}
