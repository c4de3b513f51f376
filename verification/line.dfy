/** The Bresenham walk shared by `drawLine` and `drawThickLine`: the points
    the loop visits from `(x1, y1)` to `(x2, y2)`, and the two ways of
    painting them (one pixel, or a square brush per point). */
module Line {
  import opened Canvas

  function Abs(v: int): nat
  {
    if v < 0 then -v else v
  }

  /** `v` lies between the two ends, in either order. */
  predicate Between(v: int, a: int, b: int)
  {
    (a <= v <= b) || (b <= v <= a)
  }

  /** `k` unit steps from `from` in the direction of `to`. */
  function Toward(from: int, to: int, k: int): int
  {
    if from < to then from + k else from - k
  }

  /** Successive points of a walk: distinct, and each coordinate moves by at
      most one. */
  predicate Adjacent(p: Point, q: Point)
  {
    p != q && Abs(q.0 - p.0) <= 1 && Abs(q.1 - p.1) <= 1
  }

  lemma TowardBetween(from: int, to: int, k: int)
    requires 0 <= k <= Abs(to - from)
    ensures Between(Toward(from, to, k), from, to)
  {
  }

  /** One iteration of the walk in terms of the steps taken so far: some
      coordinate moves, neither passes its end, and the error keeps its
      closed form. */
  lemma StepArithmetic(dx: int, dy: int, a: int, b: int, err: int)
    requires 0 <= a <= dx && 0 <= b <= dy && !(a == dx && b == dy)
    requires err == dx * (b + 1) - dy * (a + 1)
    ensures 2 * err > -dy || 2 * err < dx
    ensures 2 * err > -dy ==> a < dx
    ensures 2 * err < dx ==> b < dy
    ensures err - dy == dx * (b + 1) - dy * (a + 2)
    ensures err + dx == dx * (b + 2) - dy * (a + 1)
    ensures err - dy + dx == dx * (b + 2) - dy * (a + 2)
  {
    assert dy * (a + 2) == dy * (a + 1) + dy;
    assert dx * (b + 2) == dx * (b + 1) + dx;
    if a == dx {
      MulMono(b + 1, dy, dx);
      assert dy * (dx + 1) == dy * dx + dy;
    }
    if b == dy {
      MulMono(a + 1, dx, dy);
      assert dx * (dy + 1) == dx * dy + dx;
    }
  }

  /** A walk prefix: it starts at `(x1, y1)`, moves between adjacent points
      and stays within the bounding box of the two ends. */
  predicate Walked(pts: seq<Point>, x1: int, y1: int, x2: int, y2: int)
  {
    && |pts| >= 1 && pts[0] == (x1, y1)
    && (forall k :: 0 <= k < |pts| - 1 ==> Adjacent(pts[k], pts[k + 1]))
    && (forall k :: 0 <= k < |pts| ==> Between(pts[k].0, x1, x2) && Between(pts[k].1, y1, y2))
  }

  lemma ExtendWalked(pts: seq<Point>, x1: int, y1: int, x2: int, y2: int, p: Point)
    requires Walked(pts, x1, y1, x2, y2)
    requires Adjacent(pts[|pts| - 1], p) && Between(p.0, x1, x2) && Between(p.1, y1, y2)
    ensures Walked(pts + [p], x1, y1, x2, y2)
  {
  }

  /** A walk whose steps move each coordinate by at most one passes every
      intermediate value of a coordinate: the discrete intermediate value
      property, here for the y coordinate. */
  lemma {:induction false} PassesEveryRow(pts: seq<Point>, v: int)
    requires |pts| >= 1 && forall k :: 0 <= k < |pts| - 1 ==> Adjacent(pts[k], pts[k + 1])
    requires Between(v, pts[0].1, pts[|pts| - 1].1)
    ensures exists k :: 0 <= k < |pts| && pts[k].1 == v
    decreases |pts|
  {
    if pts[0].1 != v {
      assert Adjacent(pts[0], pts[1]);
      PassesEveryRow(pts[1..], v);
      var k :| 0 <= k < |pts[1..]| && pts[1..][k].1 == v;
      assert pts[k + 1].1 == v;
    }
  }

  /** The same property for the x coordinate. */
  lemma {:induction false} PassesEveryColumn(pts: seq<Point>, u: int)
    requires |pts| >= 1 && forall k :: 0 <= k < |pts| - 1 ==> Adjacent(pts[k], pts[k + 1])
    requires Between(u, pts[0].0, pts[|pts| - 1].0)
    ensures exists k :: 0 <= k < |pts| && pts[k].0 == u
    decreases |pts|
  {
    if pts[0].0 != u {
      assert Adjacent(pts[0], pts[1]);
      PassesEveryColumn(pts[1..], u);
      var k :| 0 <= k < |pts[1..]| && pts[1..][k].0 == u;
      assert pts[k + 1].0 == u;
    }
  }

  /** The loop of `drawLine`: the error term starts at `dx - dy`; a step in x
      subtracts `dy` when twice the error exceeds `-dy`, a step in y adds `dx`
      when twice the error is below `dx`, and the loop stops after visiting
      the end point. */
  method Walk(x1: int, y1: int, x2: int, y2: int) returns (pts: seq<Point>)
    ensures |pts| >= 1 && pts[0] == (x1, y1) && pts[|pts| - 1] == (x2, y2)
    ensures |pts| <= Abs(x2 - x1) + Abs(y2 - y1) + 1
    ensures forall k :: 0 <= k < |pts| - 1 ==> Adjacent(pts[k], pts[k + 1])
    ensures forall k :: 0 <= k < |pts| ==> Between(pts[k].0, x1, x2) && Between(pts[k].1, y1, y2)
    ensures x1 == x2 ==> forall y :: Between(y, y1, y2) ==> (x1, y) in pts
    ensures y1 == y2 ==> forall x :: Between(x, x1, x2) ==> (x, y1) in pts
  {
    var dx: int := Abs(x2 - x1);
    var dy: int := Abs(y2 - y1);
    var sx := if x1 < x2 then 1 else -1;
    var sy := if y1 < y2 then 1 else -1;
    var err: int := dx - dy;
    var x, y := x1, y1;
    ghost var a, b := 0, 0;
    pts := [(x, y)];
    while !(x == x2 && y == y2)
      invariant 0 <= a <= dx && 0 <= b <= dy
      invariant x == Toward(x1, x2, a) && y == Toward(y1, y2, b)
      invariant err == dx * (b + 1) - dy * (a + 1)
      invariant Walked(pts, x1, y1, x2, y2) && pts[|pts| - 1] == (x, y)
      invariant |pts| <= a + b + 1
      decreases dx - a + dy - b
    {
      var e2 := 2 * err;
      StepArithmetic(dx, dy, a, b, err);
      var stepX, stepY := e2 > -dy, e2 < dx;
      err := err - (if stepX then dy else 0) + (if stepY then dx else 0);
      x := if stepX then x + sx else x;
      y := if stepY then y + sy else y;
      a := if stepX then a + 1 else a;
      b := if stepY then b + 1 else b;
      TowardBetween(x1, x2, a);
      TowardBetween(y1, y2, b);
      ExtendWalked(pts, x1, y1, x2, y2, (x, y));
      pts := pts + [(x, y)];
    }
    if x1 == x2 {
      forall v | Between(v, y1, y2)
        ensures (x1, v) in pts
      {
        PassesEveryRow(pts, v);
      }
    }
    if y1 == y2 {
      forall u | Between(u, x1, x2)
        ensures (u, y1) in pts
      {
        PassesEveryColumn(pts, u);
      }
    }
  }

  /** `drawLine`: the walk's points painted one pixel each. Every pixel the
      walk visits gets the colour and no other pixel changes. */
  method DrawLine(c: seq<byte>, size: nat, x1: int, y1: int, x2: int, y2: int, col: Rgba)
    returns (r: seq<byte>, pts: seq<Point>)
    requires IsCanvas(c, size)
    ensures IsCanvas(r, size)
    ensures |pts| >= 1 && pts[0] == (x1, y1) && pts[|pts| - 1] == (x2, y2)
    ensures forall k :: 0 <= k < |pts| ==> Between(pts[k].0, x1, x2) && Between(pts[k].1, y1, y2)
    ensures x1 == x2 ==> forall y :: Between(y, y1, y2) ==> (x1, y) in pts
    ensures PaintedOver(c, r, size, pts, col)
  {
    pts := Walk(x1, y1, x2, y2);
    r := Plot(c, size, pts, col);
    PlotPaints(c, size, pts, col);
  }

  /** The brush of `drawThickLine` at one point: every offset whose
      coordinates lie in `[-h, h]`. The source paints it column by column;
      with a single colour the order makes no difference (`PlotEffect`). */
  function Brush(p: Point, h: int): seq<Point>
  {
    Scan(Lo(p.0, h), Hi(p.0, h), Lo(p.1, h), Hi(p.1, h), Everywhere)
  }

  /** The brushes of all walk points, in walk order. */
  function Stamps(pts: seq<Point>, h: int): seq<Point>
    decreases |pts|
  {
    if pts == [] then [] else Brush(pts[0], h) + Stamps(pts[1..], h)
  }

  /** Within `h` of `p` in both coordinates. */
  predicate Near(p: Point, x: int, y: int, h: int)
  {
    Abs(x - p.0) <= h && Abs(y - p.1) <= h
  }

  /** Some walk point is within `h` of `(x, y)`. */
  predicate NearSome(pts: seq<Point>, x: int, y: int, h: int)
  {
    exists k :: 0 <= k < |pts| && Near(pts[k], x, y, h)
  }

  lemma NearSomeCons(pts: seq<Point>, x: int, y: int, h: int)
    requires pts != []
    ensures NearSome(pts, x, y, h) <==> Near(pts[0], x, y, h) || NearSome(pts[1..], x, y, h)
  {
    if NearSome(pts[1..], x, y, h) {
      var k :| 0 <= k < |pts[1..]| && Near(pts[1..][k], x, y, h);
      assert Near(pts[k + 1], x, y, h);
    }
    if NearSome(pts, x, y, h) {
      var k :| 0 <= k < |pts| && Near(pts[k], x, y, h);
      if k > 0 {
        assert Near(pts[1..][k - 1], x, y, h);
      }
    }
  }

  /** A brush covers exactly the points near its centre. */
  lemma BrushMembers(p: Point, h: int, x: int, y: int)
    ensures (x, y) in Brush(p, h) <==> Near(p, x, y, h)
  {
    ScanAll(Lo(p.0, h), Hi(p.0, h), Lo(p.1, h), Hi(p.1, h), (x, y));
    AbsWithin(x - p.0, h);
    AbsWithin(y - p.1, h);
  }

  lemma AbsWithin(d: int, h: int)
    ensures Abs(d) <= h <==> -h <= d <= h
  {
  }

  lemma InConcat(a: seq<Point>, b: seq<Point>, q: Point)
    ensures q in a + b <==> q in a || q in b
  {
  }

  lemma {:induction false} StampsMembers(pts: seq<Point>, h: int, x: int, y: int)
    ensures (x, y) in Stamps(pts, h) <==> NearSome(pts, x, y, h)
    decreases |pts|
  {
    if pts != [] {
      var front, rest := Brush(pts[0], h), Stamps(pts[1..], h);
      assert Stamps(pts, h) == front + rest;
      InConcat(front, rest, (x, y));
      BrushMembers(pts[0], h, x, y);
      StampsMembers(pts[1..], h, x, y);
      NearSomeCons(pts, x, y, h);
    }
  }

  /** `drawThickLine`: the same walk, painting at each point the square
      brush of half-width `floor(thickness / 2)`. A pixel gets the colour
      exactly when it is within that distance of some walk point in both
      coordinates; every other pixel keeps its value. */
  method DrawThickLine(c: seq<byte>, size: nat, x1: int, y1: int, x2: int, y2: int, col: Rgba, thickness: int)
    returns (r: seq<byte>, pts: seq<Point>)
    requires IsCanvas(c, size)
    ensures IsCanvas(r, size)
    ensures |pts| >= 1 && pts[0] == (x1, y1) && pts[|pts| - 1] == (x2, y2)
    ensures forall k :: 0 <= k < |pts| - 1 ==> Adjacent(pts[k], pts[k + 1])
    ensures forall x, y :: InBounds(size, x, y) ==>
      PixelAt(r, size, x, y)
      == if exists k :: 0 <= k < |pts| && Near(pts[k], x, y, thickness / 2) then col else PixelAt(c, size, x, y)
  {
    // For an integer thickness, Dafny's division by 2 is the floor.
    var h := thickness / 2;
    pts := Walk(x1, y1, x2, y2);
    r := Plot(c, size, Stamps(pts, h), col);
    forall x, y | InBounds(size, x, y)
      ensures PixelAt(r, size, x, y)
           == if exists k :: 0 <= k < |pts| && Near(pts[k], x, y, h) then col else PixelAt(c, size, x, y)
    {
      PlotEffect(c, size, Stamps(pts, h), col, x, y);
      StampsMembers(pts, h, x, y);
    }
  }
}
