/** The RGBA canvases the icon code draws on: a buffer of `size * size * 4`
    bytes, row by row, four bytes (red, green, blue, alpha) per pixel. The
    icon files each carry an identical bounds-checked `setPixel`; it is
    defined once here, together with the rectangle scans their nested loops
    perform. */
module Canvas {
  /** One byte of a buffer. */
  type byte = b: int | 0 <= b < 256

  datatype Rgba = Rgba(r: byte, g: byte, b: byte, a: byte)

  const Transparent := Rgba(0, 0, 0, 0)
  const Black := Rgba(0, 0, 0, 255)
  const White := Rgba(255, 255, 255, 255)

  type Point = (int, int)

  predicate IsCanvas(c: seq<byte>, size: nat)
  {
    |c| == size * size * 4
  }

  predicate InBounds(size: nat, x: int, y: int)
  {
    0 <= x < size && 0 <= y < size
  }

  /** Index of the red byte of pixel `(x, y)`. */
  function Offset(size: nat, x: int, y: int): int
  {
    (y * size + x) * 4
  }

  lemma MulMono(a: int, b: int, c: nat)
    requires a <= b
    ensures a * c <= b * c
  {
    assert b * c - a * c == (b - a) * c;
  }

  /** The four bytes of an in-bounds pixel lie inside the buffer. */
  lemma OffsetInRange(size: nat, x: int, y: int)
    requires InBounds(size, x, y)
    ensures 0 <= Offset(size, x, y) && Offset(size, x, y) + 4 <= size * size * 4
  {
    MulMono(y, size - 1, size);
    assert (size - 1) * size == size * size - size;
  }

  /** Distinct pixels own disjoint groups of four bytes. */
  lemma OffsetsDisjoint(size: nat, x1: int, y1: int, x2: int, y2: int)
    requires InBounds(size, x1, y1) && InBounds(size, x2, y2)
    requires (x1, y1) != (x2, y2)
    ensures Offset(size, x1, y1) + 4 <= Offset(size, x2, y2) || Offset(size, x2, y2) + 4 <= Offset(size, x1, y1)
  {
    if y1 < y2 {
      MulMono(y1 + 1, y2, size);
      assert (y1 + 1) * size == y1 * size + size;
    } else if y2 < y1 {
      MulMono(y2 + 1, y1, size);
      assert (y2 + 1) * size == y2 * size + size;
    }
  }

  function PixelAt(c: seq<byte>, size: nat, x: int, y: int): Rgba
    requires IsCanvas(c, size) && InBounds(size, x, y)
  {
    OffsetInRange(size, x, y);
    var o := Offset(size, x, y);
    Rgba(c[o], c[o + 1], c[o + 2], c[o + 3])
  }

  /** `setPixel`: an in-bounds pixel gets the colour, written as exactly four
      bytes; any other coordinate leaves the buffer as it was. */
  function SetPixel(c: seq<byte>, size: nat, x: int, y: int, col: Rgba): (r: seq<byte>)
    requires IsCanvas(c, size)
    ensures IsCanvas(r, size)
    ensures !InBounds(size, x, y) ==> r == c
    ensures InBounds(size, x, y) ==>
      && PixelAt(r, size, x, y) == col
      && forall i :: 0 <= i < |c| && !(Offset(size, x, y) <= i < Offset(size, x, y) + 4) ==> r[i] == c[i]
  {
    if InBounds(size, x, y) then
      OffsetInRange(size, x, y);
      var o := Offset(size, x, y);
      c[o := col.r][o + 1 := col.g][o + 2 := col.b][o + 3 := col.a]
    else
      c
  }

  /** Seen pixel by pixel: only the target pixel changes. */
  lemma SetPixelEffect(c: seq<byte>, size: nat, x: int, y: int, col: Rgba, u: int, v: int)
    requires IsCanvas(c, size) && InBounds(size, u, v)
    ensures PixelAt(SetPixel(c, size, x, y, col), size, u, v)
         == if (u, v) == (x, y) then col else PixelAt(c, size, u, v)
  {
    if (u, v) != (x, y) && InBounds(size, x, y) {
      OffsetsDisjoint(size, x, y, u, v);
      OffsetInRange(size, u, v);
    }
  }

  /** Paints the points in order with one colour. */
  function Plot(c: seq<byte>, size: nat, pts: seq<Point>, col: Rgba): (r: seq<byte>)
    requires IsCanvas(c, size)
    ensures IsCanvas(r, size)
    decreases |pts|
  {
    if pts == [] then c
    else
      var p := pts[|pts| - 1];
      SetPixel(Plot(c, size, pts[..|pts| - 1], col), size, p.0, p.1, col)
  }

  /** After plotting, a pixel has the colour exactly when it is one of the
      points, and is untouched otherwise. */
  lemma {:induction false} PlotEffect(c: seq<byte>, size: nat, pts: seq<Point>, col: Rgba, x: int, y: int)
    requires IsCanvas(c, size) && InBounds(size, x, y)
    ensures PixelAt(Plot(c, size, pts, col), size, x, y)
         == if (x, y) in pts then col else PixelAt(c, size, x, y)
    decreases |pts|
  {
    if pts != [] {
      var init := pts[..|pts| - 1];
      var p := pts[|pts| - 1];
      assert pts == init + [p];
      PlotEffect(c, size, init, col, x, y);
      SetPixelEffect(Plot(c, size, init, col), size, p.0, p.1, col, x, y);
    }
  }

  /** The pixels of `r` are those of `c`, except the points, which have the
      colour. */
  ghost predicate PaintedOver(c: seq<byte>, r: seq<byte>, size: nat, pts: seq<Point>, col: Rgba)
    requires IsCanvas(c, size) && IsCanvas(r, size)
  {
    forall x, y :: InBounds(size, x, y) ==>
      PixelAt(r, size, x, y) == if (x, y) in pts then col else PixelAt(c, size, x, y)
  }

  lemma PlotPaints(c: seq<byte>, size: nat, pts: seq<Point>, col: Rgba)
    requires IsCanvas(c, size)
    ensures PaintedOver(c, Plot(c, size, pts, col), size, pts, col)
  {
    forall x, y | InBounds(size, x, y)
      ensures PixelAt(Plot(c, size, pts, col), size, x, y) == if (x, y) in pts then col else PixelAt(c, size, x, y)
    {
      PlotEffect(c, size, pts, col, x, y);
    }
  }

  /** Painting `p1` and then `p2` paints their concatenation. */
  lemma PaintedOverTrans(c: seq<byte>, r1: seq<byte>, r2: seq<byte>, size: nat, p1: seq<Point>, p2: seq<Point>, col: Rgba)
    requires IsCanvas(c, size) && IsCanvas(r1, size) && IsCanvas(r2, size)
    requires PaintedOver(c, r1, size, p1, col) && PaintedOver(r1, r2, size, p2, col)
    ensures PaintedOver(c, r2, size, p1 + p2, col)
  {
    forall x, y | InBounds(size, x, y)
      ensures PixelAt(r2, size, x, y) == if (x, y) in p1 + p2 then col else PixelAt(c, size, x, y)
    {
      assert (x, y) in p1 + p2 <==> (x, y) in p1 || (x, y) in p2;
    }
  }

  /** The all-zero buffer `Buffer.alloc` returns. */
  function Blank(n: nat): (c: seq<byte>)
    ensures |c| == n
  {
    seq(n, _ => 0)
  }

  /** Every pixel of an all-zero canvas is transparent black. */
  lemma BlankTransparent(size: nat, x: int, y: int)
    requires InBounds(size, x, y)
    ensures IsCanvas(Blank(size * size * 4), size)
    ensures PixelAt(Blank(size * size * 4), size, x, y) == Transparent
  {
    var c := Blank(size * size * 4);
    OffsetInRange(size, x, y);
    var o := Offset(size, x, y);
    assert c[o] == 0 && c[o + 1] == 0 && c[o + 2] == 0 && c[o + 3] == 0;
  }

  /** A buffer store: an index past the end is ignored. */
  function Put(c: seq<byte>, i: nat, v: byte): (r: seq<byte>)
    ensures |r| == |c|
  {
    if i < |c| then c[i := v] else c
  }

  /** The clearing loop: four zero stores per step of four. */
  method Clear(canvas: seq<byte>) returns (c: seq<byte>)
    ensures c == Blank(|canvas|)
  {
    c := canvas;
    var i := 0;
    while i < |c|
      invariant |c| == |canvas| && 0 <= i
      invariant forall k :: 0 <= k < i && k < |c| ==> c[k] == 0
      invariant forall k :: i <= k < |c| ==> c[k] == canvas[k]
    {
      c := Put(c, i, 0);
      c := Put(c, i + 1, 0);
      c := Put(c, i + 2, 0);
      c := Put(c, i + 3, 0);
      i := i + 4;
    }
  }

  /** The filter of a plain rectangle: every point is kept. */
  const Everywhere: (int, int) -> bool := (_, _) => true

  /** The bounds `v - h` and `v + h` of a square around `v`. Scans take them
      through these names: a scan whose bounds are written as sums is
      expensive for the solver to unfold. */
  function Lo(v: int, h: int): int { v - h }

  function Hi(v: int, h: int): int { v + h }

  /** The kept points of row `y` from `x0` to `x1`, left to right. */
  function ScanRow(x0: int, x1: int, y: int, keep: (int, int) -> bool): seq<Point>
    decreases x1 - x0
  {
    if x0 > x1 then []
    else (if keep(x0, y) then [(x0, y)] else []) + ScanRow(x0 + 1, x1, y, keep)
  }

  /** Two nested loops over a rectangle, rows outside, keeping the points the
      filter accepts. */
  function Scan(x0: int, x1: int, y0: int, y1: int, keep: (int, int) -> bool): seq<Point>
    decreases y1 - y0
  {
    if y0 > y1 then []
    else ScanRow(x0, x1, y0, keep) + Scan(x0, x1, y0 + 1, y1, keep)
  }

  lemma {:induction false} ScanRowMembers(x0: int, x1: int, y: int, keep: (int, int) -> bool, p: Point)
    ensures p in ScanRow(x0, x1, y, keep) <==> x0 <= p.0 <= x1 && p.1 == y && keep(p.0, p.1)
    decreases x1 - x0
  {
    if x0 <= x1 {
      ScanRowMembers(x0 + 1, x1, y, keep, p);
    }
  }

  /** A scan visits exactly the accepted points of the rectangle. */
  lemma {:induction false} ScanMembers(x0: int, x1: int, y0: int, y1: int, keep: (int, int) -> bool, p: Point)
    ensures p in Scan(x0, x1, y0, y1, keep) <==> x0 <= p.0 <= x1 && y0 <= p.1 <= y1 && keep(p.0, p.1)
    decreases y1 - y0
  {
    if y0 <= y1 {
      ScanRowMembers(x0, x1, y0, keep, p);
      ScanMembers(x0, x1, y0 + 1, y1, keep, p);
    }
  }

  /** A scan of a plain rectangle visits exactly its points. */
  lemma ScanAll(x0: int, x1: int, y0: int, y1: int, p: Point)
    ensures p in Scan(x0, x1, y0, y1, Everywhere) <==> x0 <= p.0 <= x1 && y0 <= p.1 <= y1
  {
    ScanMembers(x0, x1, y0, y1, Everywhere, p);
  }

  /** Painting every point of the rectangle `[x0, x1] x [y0, y1]` with one
      colour, rows outside. */
  method FillRect(c: seq<byte>, size: nat, x0: int, x1: int, y0: int, y1: int, col: Rgba) returns (r: seq<byte>)
    requires IsCanvas(c, size)
    ensures IsCanvas(r, size)
    ensures forall x, y :: InBounds(size, x, y) ==>
      PixelAt(r, size, x, y) == if x0 <= x <= x1 && y0 <= y <= y1 then col else PixelAt(c, size, x, y)
  {
    r := Plot(c, size, Scan(x0, x1, y0, y1, Everywhere), col);
    forall x, y | InBounds(size, x, y)
      ensures PixelAt(r, size, x, y) == if x0 <= x <= x1 && y0 <= y <= y1 then col else PixelAt(c, size, x, y)
    {
      PlotScan(c, size, x0, x1, y0, y1, Everywhere, col, x, y);
    }
  }

  /** Painting a scan with one colour: a pixel has the colour exactly when it
      is an accepted point of the rectangle. */
  lemma PlotScan(c: seq<byte>, size: nat, x0: int, x1: int, y0: int, y1: int, keep: (int, int) -> bool, col: Rgba, x: int, y: int)
    requires IsCanvas(c, size) && InBounds(size, x, y)
    ensures PixelAt(Plot(c, size, Scan(x0, x1, y0, y1, keep), col), size, x, y)
         == if x0 <= x <= x1 && y0 <= y <= y1 && keep(x, y) then col else PixelAt(c, size, x, y)
  {
    PlotEffect(c, size, Scan(x0, x1, y0, y1, keep), col, x, y);
    ScanMembers(x0, x1, y0, y1, keep, (x, y));
  }
}
