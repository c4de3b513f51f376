/** The filled shapes of the application icon: the particle discs and the
    rounded rectangle. The gradient, the particle placement and the large
    "K" use floating-point geometry and are not modelled. */
module AppIcon {
  import opened Canvas
  import opened Line

  function Sq(v: int): nat
  {
    v * v
  }

  lemma SqAbs(v: int)
    ensures Sq(v) == Sq(Abs(v)) && Sq(-v) == Sq(v)
  {
  }

  /** `Sq` grows with the absolute value. */
  lemma SqMono(a: int, b: int)
    requires Abs(a) <= Abs(b)
    ensures Sq(a) <= Sq(b)
  {
    SqAbs(a);
    SqAbs(b);
    MulMono(Abs(a), Abs(b), Abs(a));
    MulMono(Abs(a), Abs(b), Abs(b));
  }

  /** The offsets `drawFilledCircle` keeps: within `[-radius, radius]` in
      both coordinates (its loop bounds) and at distance at most `radius`
      from the centre. For a non-negative integer radius, `sqrt(d) <= radius`
      is `d <= radius * radius`. */
  predicate InDisc(cx: int, cy: int, radius: int, x: int, y: int)
  {
    Abs(x - cx) <= radius && Abs(y - cy) <= radius && Sq(x - cx) + Sq(y - cy) <= Sq(radius)
  }

  lemma SqGrows(a: int, b: int)
    requires 0 <= a < Abs(b)
    ensures Sq(a) < Sq(b)
  {
    SqMono(a + 1, b);
    assert Sq(a + 1) == Sq(a) + 2 * a + 1;
  }

  /** The loop bounds add nothing to the distance test when the radius is
      non-negative: the disc lies inside its bounding square. */
  lemma DiscInsideSquare(cx: int, cy: int, radius: int, x: int, y: int)
    requires radius >= 0 && Sq(x - cx) + Sq(y - cy) <= Sq(radius)
    ensures InDisc(cx, cy, radius, x, y)
  {
    if Abs(x - cx) > radius {
      SqGrows(radius, x - cx);
    }
    if Abs(y - cy) > radius {
      SqGrows(radius, y - cy);
    }
  }

  /** The disc is symmetric under both mirrors and the diagonal swap. */
  lemma DiscSymmetric(cx: int, cy: int, radius: int, dx: int, dy: int)
    ensures InDisc(cx, cy, radius, cx + dx, cy + dy) == InDisc(cx, cy, radius, cx - dx, cy + dy)
    ensures InDisc(cx, cy, radius, cx + dx, cy + dy) == InDisc(cx, cy, radius, cx + dx, cy - dy)
    ensures InDisc(cx, cy, radius, cx + dx, cy + dy) == InDisc(cx, cy, radius, cx + dy, cy + dx)
  {
    SqAbs(dx);
    SqAbs(dy);
  }

  /** `drawFilledCircle`: the kept offsets around the centre, row by row,
      painted through `setPixel`, which clips them to the canvas. */
  method DrawFilledCircle(c: seq<byte>, size: nat, cx: int, cy: int, radius: int, col: Rgba) returns (r: seq<byte>)
    requires IsCanvas(c, size)
    ensures IsCanvas(r, size)
    ensures forall x, y :: InBounds(size, x, y) ==>
      PixelAt(r, size, x, y) == if InDisc(cx, cy, radius, x, y) then col else PixelAt(c, size, x, y)
  {
    var keep := (x, y) => Sq(x - cx) + Sq(y - cy) <= Sq(radius);
    r := Plot(c, size, Scan(Lo(cx, radius), Hi(cx, radius), Lo(cy, radius), Hi(cy, radius), keep), col);
    forall x, y | InBounds(size, x, y)
      ensures PixelAt(r, size, x, y) == if InDisc(cx, cy, radius, x, y) then col else PixelAt(c, size, x, y)
    {
      PlotScan(c, size, Lo(cx, radius), Hi(cx, radius), Lo(cy, radius), Hi(cy, radius), keep, col, x, y);
    }
  }

  /** The corner test of `drawFilledRoundedRect` as written. The left and
      top corners are centred `radius` pixels inside the first column and
      row, but the right and bottom ones `radius` pixels inside the column
      and row just past the rectangle, one pixel further out. */
  predicate KeepAsWritten(x: int, y: int, w: int, h: int, radius: int, px: int, py: int)
  {
    if px < x + radius && py < y + radius then
      Sq(x + radius - px) + Sq(y + radius - py) <= Sq(radius)
    else if px >= x + w - radius && py < y + radius then
      Sq(px - (x + w - radius)) + Sq(y + radius - py) <= Sq(radius)
    else if px < x + radius && py >= y + h - radius then
      Sq(x + radius - px) + Sq(py - (y + h - radius)) <= Sq(radius)
    else if px >= x + w - radius && py >= y + h - radius then
      Sq(px - (x + w - radius)) + Sq(py - (y + h - radius)) <= Sq(radius)
    else
      true
  }

  /** `drawFilledRoundedRect`: the rows of `[x, x + w) x [y, y + h)`, keeping
      the points the corner test accepts. */
  method DrawFilledRoundedRect(c: seq<byte>, size: nat, x: int, y: int, w: int, h: int, radius: int, col: Rgba)
    returns (r: seq<byte>)
    requires IsCanvas(c, size)
    ensures IsCanvas(r, size)
    ensures forall px, py :: InBounds(size, px, py) ==>
      PixelAt(r, size, px, py)
      == if x <= px < x + w && y <= py < y + h && KeepAsWritten(x, y, w, h, radius, px, py) then col
         else PixelAt(c, size, px, py)
  {
    var keep := (px, py) => KeepAsWritten(x, y, w, h, radius, px, py);
    r := Plot(c, size, Scan(x, x + w - 1, y, y + h - 1, keep), col);
    forall px, py | InBounds(size, px, py)
      ensures PixelAt(r, size, px, py)
           == if x <= px < x + w && y <= py < y + h && KeepAsWritten(x, y, w, h, radius, px, py) then col
              else PixelAt(c, size, px, py)
    {
      PlotScan(c, size, x, x + w - 1, y, y + h - 1, keep, col, px, py);
    }
  }

  /** Outside the four corner squares every pixel of the rectangle is
      painted; inside the top-left square exactly those within the quarter
      circle about `(x + radius, y + radius)` are. */
  lemma RoundedRectShape(x: int, y: int, w: int, h: int, radius: int, px: int, py: int)
    requires w >= 2 * radius && h >= 2 * radius
    ensures (x + radius <= px < x + w - radius || y + radius <= py < y + h - radius) ==>
      KeepAsWritten(x, y, w, h, radius, px, py)
    ensures px < x + radius && py < y + radius ==>
      (KeepAsWritten(x, y, w, h, radius, px, py) <==> Sq(px - (x + radius)) + Sq(py - (y + radius)) <= Sq(radius))
  {
    SqAbs(px - (x + radius));
    SqAbs(py - (y + radius));
  }

  /** With `x = y = 0`, `w = h = 10` and radius 3, the top row loses three
      pixels on the left (columns 0 to 2) but only two on the right
      (columns 8 and 9): column 2 is dropped while its mirror image,
      column 7, is kept. */
  lemma AsWrittenAsymmetric()
    ensures !KeepAsWritten(0, 0, 10, 10, 3, 2, 0)
    ensures KeepAsWritten(0, 0, 10, 10, 3, 2 * 0 + 10 - 1 - 2, 0)
  {
  }

  /** The corner test with the right and bottom corners centred `radius`
      pixels inside the last column and row, mirroring the left and top. */
  predicate Keep(x: int, y: int, w: int, h: int, radius: int, px: int, py: int)
  {
    var right := x + w - 1 - radius;
    var bottom := y + h - 1 - radius;
    if px < x + radius && py < y + radius then
      Sq(x + radius - px) + Sq(y + radius - py) <= Sq(radius)
    else if px > right && py < y + radius then
      Sq(px - right) + Sq(y + radius - py) <= Sq(radius)
    else if px < x + radius && py > bottom then
      Sq(x + radius - px) + Sq(py - bottom) <= Sq(radius)
    else if px > right && py > bottom then
      Sq(px - right) + Sq(py - bottom) <= Sq(radius)
    else
      true
  }

  /** The corrected shape is symmetric under the left-right and the
      top-bottom mirror of the rectangle, whenever the rectangle is at least
      two radii wide and high. */
  lemma KeepSymmetric(x: int, y: int, w: int, h: int, radius: int, px: int, py: int)
    requires w >= 2 * radius && h >= 2 * radius
    ensures Keep(x, y, w, h, radius, px, py) == Keep(x, y, w, h, radius, 2 * x + w - 1 - px, py)
    ensures Keep(x, y, w, h, radius, px, py) == Keep(x, y, w, h, radius, px, 2 * y + h - 1 - py)
  {
  }
}
