/** The tray icons drawn by hand: the bold "K" made of Bresenham strokes,
    the framed-box fallback icon and the dot test icon. Each starts from a
    cleared canvas; the conversion to a native image is not modelled. */
module IconHelper {
  import opened Canvas
  import opened Line

  /** The geometry of a "K": the left column, the rows the two diagonals
      start from, the right column they end at, and the stroke count. The
      source draws `thickness` parallel one-pixel lines per stroke. */
  datatype KShape = KShape(
    left: int, top: int, bottom: int,
    upperJoin: int, lowerJoin: int, right: int,
    thickness: nat)

  /** `drawBoldK` on the 18-pixel tray icon. */
  const BoldK := KShape(4, 2, 16, 8, 10, 14, 2)
  /** `drawBoldKHighRes` on the 32-pixel icon. */
  const HighResK := KShape(6, 4, 28, 16, 16, 26, 3)
  /** `drawBoldKSmall` on the 16-pixel icon. */
  const SmallK := KShape(3, 2, 14, 8, 8, 13, 2)

  /** Every stroke of the shape starts and ends inside its box. */
  predicate WellFormed(k: KShape)
  {
    && k.left + k.thickness <= k.right + 1
    && k.top + k.thickness <= k.bottom + 1
    && k.top <= k.upperJoin <= k.bottom
    && k.top <= k.lowerJoin <= k.bottom
  }

  predicate InBox(k: KShape, x: int, y: int)
  {
    k.left <= x <= k.right && k.top <= y <= k.bottom
  }

  /** The first loop of `drawBoldK`: one vertical line per stroke, from the
      top row to the bottom row. */
  method VerticalStrokes(c: seq<byte>, size: nat, k: KShape, col: Rgba) returns (r: seq<byte>, pts: seq<Point>)
    requires IsCanvas(c, size) && WellFormed(k)
    ensures IsCanvas(r, size) && PaintedOver(c, r, size, pts, col)
    ensures forall p :: p in pts ==> InBox(k, p.0, p.1)
    ensures forall x, y :: k.left <= x < k.left + k.thickness && k.top <= y <= k.bottom ==> (x, y) in pts
  {
    r, pts := c, [];
    var i := 0;
    while i < k.thickness
      invariant 0 <= i <= k.thickness
      invariant IsCanvas(r, size) && PaintedOver(c, r, size, pts, col)
      invariant forall p :: p in pts ==> InBox(k, p.0, p.1)
      invariant forall x, y :: k.left <= x < k.left + i && k.top <= y <= k.bottom ==> (x, y) in pts
    {
      var r', line := DrawLine(r, size, k.left + i, k.top, k.left + i, k.bottom, col);
      PaintedOverTrans(c, r, r', size, pts, line, col);
      forall x, y | k.left <= x < k.left + i + 1 && k.top <= y <= k.bottom
        ensures (x, y) in pts + line
      {
        if x == k.left + i {
          assert Between(y, k.top, k.bottom);
          assert (x, y) in line;
        }
      }
      r, pts := r', pts + line;
      i := i + 1;
    }
  }

  /** The second loop: stroke `i` runs from the left column at the upper
      join row to the right column at row `top + i`. */
  method UpperStrokes(c: seq<byte>, size: nat, k: KShape, col: Rgba) returns (r: seq<byte>, pts: seq<Point>)
    requires IsCanvas(c, size) && WellFormed(k)
    ensures IsCanvas(r, size) && PaintedOver(c, r, size, pts, col)
    ensures forall p :: p in pts ==> InBox(k, p.0, p.1)
    ensures forall x :: k.left <= x < k.left + k.thickness ==> (x, k.upperJoin) in pts
    ensures forall y :: k.top <= y < k.top + k.thickness ==> (k.right, y) in pts
  {
    r, pts := c, [];
    var i := 0;
    while i < k.thickness
      invariant 0 <= i <= k.thickness
      invariant IsCanvas(r, size) && PaintedOver(c, r, size, pts, col)
      invariant forall p :: p in pts ==> InBox(k, p.0, p.1)
      invariant forall x :: k.left <= x < k.left + i ==> (x, k.upperJoin) in pts
      invariant forall y :: k.top <= y < k.top + i ==> (k.right, y) in pts
    {
      var r', line := DrawLine(r, size, k.left + i, k.upperJoin, k.right, k.top + i, col);
      PaintedOverTrans(c, r, r', size, pts, line, col);
      assert line[0] in pts + line && line[|line| - 1] in pts + line;
      r, pts := r', pts + line;
      i := i + 1;
    }
  }

  /** The third loop: stroke `i` runs from the left column at the lower
      join row to the right column at row `bottom - i`. */
  method LowerStrokes(c: seq<byte>, size: nat, k: KShape, col: Rgba) returns (r: seq<byte>, pts: seq<Point>)
    requires IsCanvas(c, size) && WellFormed(k)
    ensures IsCanvas(r, size) && PaintedOver(c, r, size, pts, col)
    ensures forall p :: p in pts ==> InBox(k, p.0, p.1)
    ensures forall x :: k.left <= x < k.left + k.thickness ==> (x, k.lowerJoin) in pts
    ensures forall y :: k.bottom - k.thickness < y <= k.bottom ==> (k.right, y) in pts
  {
    r, pts := c, [];
    var i := 0;
    while i < k.thickness
      invariant 0 <= i <= k.thickness
      invariant IsCanvas(r, size) && PaintedOver(c, r, size, pts, col)
      invariant forall p :: p in pts ==> InBox(k, p.0, p.1)
      invariant forall x :: k.left <= x < k.left + i ==> (x, k.lowerJoin) in pts
      invariant forall y :: k.bottom - i < y <= k.bottom ==> (k.right, y) in pts
    {
      var r', line := DrawLine(r, size, k.left + i, k.lowerJoin, k.right, k.bottom - i, col);
      PaintedOverTrans(c, r, r', size, pts, line, col);
      assert line[0] in pts + line && line[|line| - 1] in pts + line;
      r, pts := r', pts + line;
      i := i + 1;
    }
  }

  /** `drawBoldK`: the three stroke families in order. All painted points lie
      in the shape's box; the whole left band is painted, and so are the
      diagonals' ends. */
  method DrawK(c: seq<byte>, size: nat, k: KShape, col: Rgba) returns (r: seq<byte>, pts: seq<Point>)
    requires IsCanvas(c, size) && WellFormed(k)
    ensures IsCanvas(r, size) && PaintedOver(c, r, size, pts, col)
    ensures forall p :: p in pts ==> InBox(k, p.0, p.1)
    ensures forall x, y :: k.left <= x < k.left + k.thickness && k.top <= y <= k.bottom ==> (x, y) in pts
    ensures forall x :: k.left <= x < k.left + k.thickness ==> (x, k.upperJoin) in pts && (x, k.lowerJoin) in pts
    ensures forall y :: k.top <= y < k.top + k.thickness ==> (k.right, y) in pts
    ensures forall y :: k.bottom - k.thickness < y <= k.bottom ==> (k.right, y) in pts
  {
    var r1, p1 := VerticalStrokes(c, size, k, col);
    var r2, p2 := UpperStrokes(r1, size, k, col);
    var r3, p3 := LowerStrokes(r2, size, k, col);
    PaintedOverTrans(c, r1, r2, size, p1, p2, col);
    PaintedOverTrans(c, r2, r3, size, p1 + p2, p3, col);
    r, pts := r3, p1 + p2 + p3;
  }

  /** The cleared canvas every icon starts from: `Buffer.alloc` followed by
      the clearing loop. */
  method ClearedCanvas(size: nat) returns (c: seq<byte>)
    ensures IsCanvas(c, size)
    ensures forall x, y :: InBounds(size, x, y) ==> PixelAt(c, size, x, y) == Transparent
  {
    c := Clear(Blank(size * size * 4));
    forall x, y | InBounds(size, x, y)
      ensures PixelAt(c, size, x, y) == Transparent
    {
      BlankTransparent(size, x, y);
    }
  }

  /** `createCanvasBasedPackageIcon` (and its 32- and 16-pixel variants with
      `HighResK` and `SmallK`): a black "K" on a transparent canvas. Every
      pixel is black or transparent, nothing outside the K's box is painted,
      and the left band and the diagonals' ends are black. */
  method KIcon(size: nat, k: KShape) returns (c: seq<byte>)
    requires WellFormed(k)
    ensures IsCanvas(c, size)
    ensures forall x, y :: InBounds(size, x, y) ==> PixelAt(c, size, x, y) == Black || PixelAt(c, size, x, y) == Transparent
    ensures forall x, y :: InBounds(size, x, y) && !InBox(k, x, y) ==> PixelAt(c, size, x, y) == Transparent
    ensures forall x, y :: InBounds(size, x, y) && k.left <= x < k.left + k.thickness && k.top <= y <= k.bottom ==>
      PixelAt(c, size, x, y) == Black
    ensures forall y :: k.top <= y < k.top + k.thickness && InBounds(size, k.right, y) ==> PixelAt(c, size, k.right, y) == Black
    ensures forall y :: k.bottom - k.thickness < y <= k.bottom && InBounds(size, k.right, y) ==> PixelAt(c, size, k.right, y) == Black
  {
    var blank := ClearedCanvas(size);
    var pts;
    c, pts := DrawK(blank, size, k, Black);
  }

  /** `createCanvasBasedPackageIcon`: the 18-pixel tray "K", two pixels wide,
      inside columns 4 to 14 and rows 2 to 16. */
  method PackageIcon() returns (c: seq<byte>)
    ensures IsCanvas(c, 18)
    ensures forall x, y :: InBounds(18, x, y) ==> PixelAt(c, 18, x, y) == Black || PixelAt(c, 18, x, y) == Transparent
    ensures forall x, y :: InBounds(18, x, y) && !(4 <= x <= 14 && 2 <= y <= 16) ==> PixelAt(c, 18, x, y) == Transparent
    ensures forall y :: 2 <= y <= 16 ==> PixelAt(c, 18, 4, y) == Black && PixelAt(c, 18, 5, y) == Black
  {
    c := KIcon(18, BoldK);
  }

  /** `createHighResSVGIcon`: the 32-pixel "K", three pixels wide, inside
      columns 6 to 26 and rows 4 to 28. */
  method HighResIcon() returns (c: seq<byte>)
    ensures IsCanvas(c, 32)
    ensures forall x, y :: InBounds(32, x, y) ==> PixelAt(c, 32, x, y) == Black || PixelAt(c, 32, x, y) == Transparent
    ensures forall x, y :: InBounds(32, x, y) && !(6 <= x <= 26 && 4 <= y <= 28) ==> PixelAt(c, 32, x, y) == Transparent
    ensures forall x, y :: 6 <= x <= 8 && 4 <= y <= 28 ==> PixelAt(c, 32, x, y) == Black
  {
    c := KIcon(32, HighResK);
  }

  /** `createSmallSVGIcon`: the 16-pixel "K", two pixels wide, inside columns
      3 to 13 and rows 2 to 14. */
  method SmallIcon() returns (c: seq<byte>)
    ensures IsCanvas(c, 16)
    ensures forall x, y :: InBounds(16, x, y) ==> PixelAt(c, 16, x, y) == Black || PixelAt(c, 16, x, y) == Transparent
    ensures forall x, y :: InBounds(16, x, y) && !(3 <= x <= 13 && 2 <= y <= 14) ==> PixelAt(c, 16, x, y) == Transparent
    ensures forall y :: 2 <= y <= 14 ==> PixelAt(c, 16, 3, y) == Black && PixelAt(c, 16, 4, y) == Black
  {
    c := KIcon(16, SmallK);
  }

  /** Whether `createFallbackIcon` paints `(x, y)`: the frame rows and columns
      4 and 14 over `[4, 14]`, and the cross at row and column 9 over
      `[5, 13]`. */
  predicate FallbackPixel(x: int, y: int)
  {
    || (4 <= x <= 14 && (y == 4 || y == 14))
    || (4 <= y <= 14 && (x == 4 || x == 14))
    || (5 <= x <= 13 && y == 9)
    || (5 <= y <= 13 && x == 9)
  }

  /** The points `createFallbackIcon` paints, in the order of its three loops. */
  method FallbackPoints() returns (pts: seq<Point>)
    ensures forall p :: p in pts <==> FallbackPixel(p.0, p.1)
  {
    pts := [];
    var x := 4;
    while x <= 14
      invariant 4 <= x <= 15
      invariant forall p :: p in pts <==> 4 <= p.0 < x && (p.1 == 4 || p.1 == 14)
    {
      pts := pts + [(x, 4), (x, 14)];
      x := x + 1;
    }
    var frameRows := pts;
    var y := 4;
    while y <= 14
      invariant 4 <= y <= 15
      invariant forall p :: p in pts <==> p in frameRows || (4 <= p.1 < y && (p.0 == 4 || p.0 == 14))
    {
      pts := pts + [(4, y), (14, y)];
      y := y + 1;
    }
    var frame := pts;
    var i := 5;
    while i <= 13
      invariant 5 <= i <= 14
      invariant forall p :: p in pts <==> p in frame || (5 <= p.0 < i && p.1 == 9) || (5 <= p.1 < i && p.0 == 9)
    {
      pts := pts + [(i, 9), (9, i)];
      i := i + 1;
    }
  }

  /** `createFallbackIcon`: exactly the frame and cross pixels are black. */
  method FallbackIcon() returns (c: seq<byte>)
    ensures IsCanvas(c, 18)
    ensures forall x, y :: InBounds(18, x, y) ==>
      PixelAt(c, 18, x, y) == if FallbackPixel(x, y) then Black else Transparent
  {
    var blank := ClearedCanvas(18);
    var pts := FallbackPoints();
    c := Plot(blank, 18, pts, Black);
    PlotPaints(blank, 18, pts, Black);
  }

  /** The pixel rule of `createSimpleVisibleIcon`. */
  function VisiblePixel(x: int, y: int): Rgba
  {
    if (x, y) == (9, 9) then White
    else if 6 <= x <= 12 && 6 <= y <= 12 then Black
    else Transparent
  }

  /** `createSimpleVisibleIcon`: a black 7 by 7 block over `[6, 12]` with a
      white centre pixel at `(9, 9)`; every other pixel stays transparent. */
  method SimpleVisibleIcon() returns (c: seq<byte>)
    ensures IsCanvas(c, 18)
    ensures forall x, y :: InBounds(18, x, y) ==> PixelAt(c, 18, x, y) == VisiblePixel(x, y)
  {
    var blank := ClearedCanvas(18);
    var block := FillRect(blank, 18, 6, 12, 6, 12, Black);
    c := SetPixel(block, 18, 9, 9, White);
    forall x, y | InBounds(18, x, y)
      ensures PixelAt(c, 18, x, y) == VisiblePixel(x, y)
    {
      SetPixelEffect(block, 18, 9, 9, White, x, y);
    }
  }
}
