/** The icon generator script: the left stroke of its "K" and the
    hand-rolled PNG writer. The writer emits the 8-byte signature (section
    5.2 of the PNG specification, ISO/IEC 15948), an IHDR chunk, one IDAT
    chunk holding the filtered scanlines uncompressed, and a fixed IEND
    chunk. The IHDR and IDAT CRC fields are written as zero rather than the
    CRC-32 section 5.3 requires; the model follows the script. */
module SimplePng {
  import opened Wrappers
  import opened Canvas

  const TwoTo32 := 0x1_0000_0000

  /** `writeUInt32BE`: four bytes, most significant first. */
  function U32BE(n: nat): (r: seq<byte>)
    requires n < TwoTo32
    ensures |r| == 4
  {
    [n / 0x100_0000, (n / 0x1_0000) % 0x100, (n / 0x100) % 0x100, n % 0x100]
  }

  /** Reads a big-endian 32-bit field. */
  function FromU32BE(s: seq<byte>): nat
    requires |s| == 4
  {
    (s[0] as int) * 0x100_0000 + (s[1] as int) * 0x1_0000 + (s[2] as int) * 0x100 + s[3]
  }

  lemma U32RoundTrip(n: nat)
    requires n < TwoTo32
    ensures FromU32BE(U32BE(n)) == n
  {
    var hi, mid, lo, low := n / 0x100_0000, (n / 0x1_0000) % 0x100, (n / 0x100) % 0x100, n % 0x100;
    assert n / 0x1_0000 == hi * 0x100 + mid;
    assert n / 0x100 == (n / 0x1_0000) * 0x100 + lo;
    assert n == (n / 0x100) * 0x100 + low;
  }

  const Signature: seq<byte> := [137, 80, 78, 71, 13, 10, 26, 10]
  const IhdrType: seq<byte> := [73, 72, 68, 82]
  const IdatType: seq<byte> := [73, 68, 65, 84]
  /** The IEND chunk, with its CRC-32 in place. */
  const Iend: seq<byte> := [0, 0, 0, 0, 73, 69, 78, 68, 174, 66, 96, 130]

  /** The IHDR chunk: length 13, the type, width and height both `size`,
      bit depth 8, colour type 6 (RGBA), the three zero method bytes, and a
      zero CRC. */
  function Ihdr(size: nat): (r: seq<byte>)
    requires size < TwoTo32
    ensures |r| == 25
    ensures FromU32BE(r[0..4]) == 13 && r[4..8] == IhdrType
    ensures FromU32BE(r[8..12]) == size && FromU32BE(r[12..16]) == size
    ensures r[16] == 8 && r[17] == 6 && r[18..21] == [0, 0, 0]
    ensures r[21..25] == [0, 0, 0, 0]
  {
    U32RoundTrip(13);
    U32RoundTrip(size);
    var r := U32BE(13) + IhdrType + U32BE(size) + U32BE(size) + [8, 6, 0, 0, 0] + U32BE(0);
    assert r[0..4] == U32BE(13) && r[8..12] == U32BE(size) && r[12..16] == U32BE(size);
    r
  }

  /** Bytes per scanline: the filter byte and four bytes per pixel. */
  function Stride(size: nat): nat
  {
    4 * size + 1
  }

  /** The IDAT payload length the script computes: the canvas length plus
      one filter byte per row. */
  function IdatSize(size: nat): nat
  {
    size * size * 4 + size
  }

  lemma IdatSizeRows(size: nat)
    ensures IdatSize(size) == size * Stride(size)
  {
  }

  lemma RowInCanvas(size: nat, y: nat)
    requires y < size
    ensures (y + 1) * (4 * size) <= size * size * 4
    ensures (y + 1) * (4 * size) == y * (4 * size) + 4 * size
  {
    MulMono(y + 1, size, 4 * size);
  }

  /** The first `y` filtered scanlines, row after row: filter type 0 and the
      row's bytes unchanged. */
  function Rows(c: seq<byte>, size: nat, y: nat): (r: seq<byte>)
    requires IsCanvas(c, size) && y <= size
    ensures |r| == y * Stride(size)
  {
    if y == 0 then []
    else
      RowInCanvas(size, y - 1);
      assert (y - 1) * Stride(size) + Stride(size) == y * Stride(size);
      Rows(c, size, y - 1) + [0] + c[(y - 1) * (4 * size) .. y * (4 * size)]
  }

  /** One more scanline: its filter byte, then its canvas row. */
  lemma RowsStep(c: seq<byte>, size: nat, y: nat)
    requires IsCanvas(c, size) && y < size
    ensures y * (4 * size) + 4 * size <= |c|
    ensures Rows(c, size, y + 1) == Rows(c, size, y) + [0] + c[y * (4 * size) .. y * (4 * size) + 4 * size]
  {
    RowInCanvas(size, y);
  }

  /** The last scanline of `Rows(c, size, row + 1)`. */
  lemma RowsLast(c: seq<byte>, size: nat, row: nat, j: nat)
    requires IsCanvas(c, size) && row < size && j < 4 * size
    ensures row * Stride(size) + 1 + j < |Rows(c, size, row + 1)| && row * (4 * size) + j < |c|
    ensures Rows(c, size, row + 1)[row * Stride(size)] == 0
    ensures Rows(c, size, row + 1)[row * Stride(size) + 1 + j] == c[row * (4 * size) + j]
  {
    RowsStep(c, size, row);
    var prefix := Rows(c, size, row);
    var start := row * (4 * size);
    assert |prefix| == row * Stride(size);
    assert Rows(c, size, row + 1) == prefix + [0] + c[start .. start + 4 * size];
  }

  /** Appending scanlines leaves the earlier ones in place. */
  lemma RowsPrefix(c: seq<byte>, size: nat, y: nat, i: nat)
    requires IsCanvas(c, size) && 0 < y <= size && i < (y - 1) * Stride(size)
    ensures i < |Rows(c, size, y - 1)| && Rows(c, size, y)[i] == Rows(c, size, y - 1)[i]
  {
  }

  /** A byte of an earlier scanline lies before a later scanline. */
  lemma RowBound(size: nat, row: nat, y: nat, j: nat)
    requires row < y && j < 4 * size
    ensures row * Stride(size) + 1 + j < y * Stride(size)
  {
    MulMono(row + 1, y, Stride(size));
    assert (row + 1) * Stride(size) == row * Stride(size) + Stride(size);
  }

  /** Scanline `row` starts with the filter byte 0 and then holds the
      canvas bytes of that row. */
  lemma {:induction false} RowsIndex(c: seq<byte>, size: nat, y: nat, row: nat, j: nat)
    requires IsCanvas(c, size) && y <= size && row < y && j < 4 * size
    ensures row * Stride(size) + 1 + j < |Rows(c, size, y)|
    ensures Rows(c, size, y)[row * Stride(size)] == 0
    ensures row * (4 * size) + j < |c|
    ensures Rows(c, size, y)[row * Stride(size) + 1 + j] == c[row * (4 * size) + j]
  {
    if row < y - 1 {
      RowsIndex(c, size, y - 1, row, j);
      RowBound(size, row, y - 1, j);
      RowsPrefix(c, size, y, row * Stride(size));
      RowsPrefix(c, size, y, row * Stride(size) + 1 + j);
    } else {
      RowsLast(c, size, row, j);
    }
  }

  /** Pixel `(x, y)` starts `4 * x` bytes into row `y`. */
  lemma RowOffset(size: nat, x: int, y: int)
    ensures Offset(size, x, y) == y * (4 * size) + 4 * x
  {
    assert (y * size + x) * 4 == y * size * 4 + 4 * x;
    assert y * (4 * size) == y * size * 4;
  }

  lemma SliceExtend4(s: seq<byte>, a: nat, i: nat)
    requires a <= i && i + 4 <= |s|
    ensures s[a .. i + 4] == s[a .. i] + [s[i], s[i + 1], s[i + 2], s[i + 3]]
  {
  }

  /** The inner loop of `createSimplePNG`: the four bytes of each pixel of
      row `y`, left to right. */
  method RowBytes(canvas: seq<byte>, size: nat, y: nat) returns (bytes: seq<byte>)
    requires IsCanvas(canvas, size) && y < size
    ensures y * (4 * size) + 4 * size <= |canvas|
    ensures bytes == canvas[y * (4 * size) .. y * (4 * size) + 4 * size]
  {
    RowInCanvas(size, y);
    var start := y * (4 * size);
    bytes := [];
    var x := 0;
    while x < size
      invariant 0 <= x <= size
      invariant bytes == canvas[start .. start + 4 * x]
    {
      OffsetInRange(size, x, y);
      RowOffset(size, x, y);
      var p := Offset(size, x, y);
      SliceExtend4(canvas, start, p);
      bytes := bytes + [canvas[p], canvas[p + 1], canvas[p + 2], canvas[p + 3]];
      x := x + 1;
    }
  }

  /** The row loop of `createSimplePNG`: per row a zero filter byte, then
      the row's pixel bytes. The write offset starts after the chunk's
      length and type and ends exactly at `8 + idatSize`, where the CRC
      goes. */
  method FilteredRows(canvas: seq<byte>, size: nat) returns (data: seq<byte>, offset: nat)
    requires IsCanvas(canvas, size)
    ensures data == Rows(canvas, size, size)
    ensures |data| == IdatSize(size) && offset == 8 + IdatSize(size)
  {
    data, offset := [], 8;
    var y := 0;
    while y < size
      invariant 0 <= y <= size && data == Rows(canvas, size, y) && offset == 8 + |data|
    {
      var bytes := RowBytes(canvas, size, y);
      RowsStep(canvas, size, y);
      data := data + [0] + bytes;
      offset := offset + 1 + |bytes|;
      y := y + 1;
    }
    IdatSizeRows(size);
  }

  /** Where the IDAT payload starts in the output. */
  const DataStart := 8 + 25 + 8

  /** Reads pixel `(x, y)` back from the scanlines of an output. */
  function PixelOf(png: seq<byte>, size: nat, x: nat, y: nat): Rgba
    requires x < size && y < size
    requires DataStart + y * Stride(size) + 1 + 4 * x + 4 <= |png|
  {
    var o := DataStart + y * Stride(size) + 1 + 4 * x;
    Rgba(png[o], png[o + 1], png[o + 2], png[o + 3])
  }

  /** The fixed parts of the output around an IDAT payload of `IdatSize`
      bytes: signature, IHDR, the IDAT length and type, the zero IDAT CRC and
      the IEND chunk. */
  predicate HeaderLaidOut(png: seq<byte>, size: nat)
  {
    && |png| == DataStart + IdatSize(size) + 4 + 12
    && png[..8] == Signature
    && FromU32BE(png[8..12]) == 13 && png[12..16] == IhdrType
    && FromU32BE(png[16..20]) == size && FromU32BE(png[20..24]) == size
    && png[24] == 8 && png[25] == 6 && png[26..29] == [0, 0, 0] && png[29..33] == [0, 0, 0, 0]
    && FromU32BE(png[33..37]) == IdatSize(size) && png[37..41] == IdatType
    && png[DataStart + IdatSize(size) .. DataStart + IdatSize(size) + 4] == [0, 0, 0, 0]
    && png[DataStart + IdatSize(size) + 4 ..] == Iend
  }

  /** Scanline `y` of the output starts with filter byte 0, and pixel
      `(x, y)` reads back as the canvas pixel. */
  predicate PixelReadsBack(png: seq<byte>, canvas: seq<byte>, size: nat, x: nat, y: nat)
    requires IsCanvas(canvas, size) && x < size && y < size
  {
    var row := DataStart + y * Stride(size);
    && row + 1 + 4 * x + 4 <= |png|
    && png[row] == 0
    && PixelOf(png, size, x, y) == PixelAt(canvas, size, x, y)
  }

  /** The output layout, and the payload read back pixel by pixel. */
  ghost predicate WellLaidOut(png: seq<byte>, canvas: seq<byte>, size: nat)
    requires IsCanvas(canvas, size)
  {
    && HeaderLaidOut(png, size)
    && forall x: nat, y: nat :: x < size && y < size ==> PixelReadsBack(png, canvas, size, x, y)
  }

  /** The concatenation `createSimplePNG` returns. */
  function Assemble(size: nat, data: seq<byte>): (r: seq<byte>)
    requires size < TwoTo32 && |data| < TwoTo32
    ensures |r| == DataStart + |data| + 4 + 12
  {
    Signature + Ihdr(size) + (U32BE(|data|) + IdatType + data + U32BE(0)) + Iend
  }

  /** A slice of a slice. */
  lemma SubSlice(s: seq<byte>, i: nat, j: nat, t: seq<byte>, a: nat, b: nat)
    requires i <= j <= |s| && s[i..j] == t && a <= b <= |t|
    ensures s[i + a .. i + b] == t[a..b]
  {
    forall k | 0 <= k < b - a
      ensures s[i + a .. i + b][k] == t[a..b][k]
    {
      assert t[a + k] == s[i..j][a + k];
    }
  }

  /** Where each chunk of the assembled output sits. */
  lemma AssembleChunks(size: nat, data: seq<byte>)
    requires size < TwoTo32 && |data| < TwoTo32
    ensures var out := Assemble(size, data);
      && out[..8] == Signature && out[8..33] == Ihdr(size)
      && out[33..37] == U32BE(|data|) && out[37..41] == IdatType
      && out[DataStart .. DataStart + |data|] == data
      && out[DataStart + |data| .. DataStart + |data| + 4] == U32BE(0)
      && out[DataStart + |data| + 4 ..] == Iend
  {
    var out := Assemble(size, data);
    var head := Signature + Ihdr(size);
    var lenType := U32BE(|data|) + IdatType;
    assert out == head + lenType + data + U32BE(0) + Iend;
  }

  lemma AssembleHeader(size: nat, data: seq<byte>)
    requires size < TwoTo32 && |data| == IdatSize(size) < TwoTo32
    ensures HeaderLaidOut(Assemble(size, data), size)
    ensures Assemble(size, data)[DataStart .. DataStart + |data|] == data
  {
    var out := Assemble(size, data);
    var ih := Ihdr(size);
    AssembleChunks(size, data);
    SubSlice(out, 8, 33, ih, 0, 4);
    SubSlice(out, 8, 33, ih, 4, 8);
    SubSlice(out, 8, 33, ih, 8, 12);
    SubSlice(out, 8, 33, ih, 12, 16);
    SubSlice(out, 8, 33, ih, 18, 21);
    SubSlice(out, 8, 33, ih, 21, 25);
    assert out[24] == out[8..33][16] && out[25] == out[8..33][17];
    U32RoundTrip(|data|);
  }

  lemma AllPixelsReadBack(png: seq<byte>, data: seq<byte>, canvas: seq<byte>, size: nat)
    requires IsCanvas(canvas, size)
    requires data == Rows(canvas, size, size)
    requires |png| >= DataStart + |data| && png[DataStart .. DataStart + |data|] == data
    ensures forall x: nat, y: nat :: x < size && y < size ==> PixelReadsBack(png, canvas, size, x, y)
  {
    forall x: nat, y: nat | x < size && y < size
      ensures PixelReadsBack(png, canvas, size, x, y)
    {
      ScanlinesReadBack(png, data, canvas, size, x, y);
    }
  }

  /** The bytes of pixel `(x, y)` within the scanlines, after the row's
      filter byte. */
  lemma PixelInRows(c: seq<byte>, size: nat, x: nat, y: nat)
    requires IsCanvas(c, size) && x < size && y < size
    ensures y * Stride(size) + 1 + 4 * x + 4 <= |Rows(c, size, size)|
    ensures Rows(c, size, size)[y * Stride(size)] == 0
    ensures 0 <= Offset(size, x, y) && Offset(size, x, y) + 4 <= |c|
    ensures Rows(c, size, size)[y * Stride(size) + 1 + 4 * x .. y * Stride(size) + 1 + 4 * x + 4]
         == c[Offset(size, x, y) .. Offset(size, x, y) + 4]
  {
    OffsetInRange(size, x, y);
    RowOffset(size, x, y);
    var data := Rows(c, size, size);
    var b, o := y * Stride(size) + 1 + 4 * x, Offset(size, x, y);
    RowsIndex(c, size, size, y, 4 * x);
    RowsIndex(c, size, size, y, 4 * x + 1);
    RowsIndex(c, size, size, y, 4 * x + 2);
    RowsIndex(c, size, size, y, 4 * x + 3);
    assert data[b .. b + 4] == [data[b], data[b + 1], data[b + 2], data[b + 3]];
  }

  /** Bytes of the payload read back at their place in the output. */
  lemma Transfer(png: seq<byte>, data: seq<byte>, canvas: seq<byte>, row: nat, b: nat, o: nat)
    requires DataStart + |data| <= |png| && png[DataStart .. DataStart + |data|] == data
    requires row < |data| && data[row] == 0
    requires b + 4 <= |data| && o + 4 <= |canvas| && data[b .. b + 4] == canvas[o .. o + 4]
    ensures png[DataStart + row] == 0 && DataStart + b + 4 <= |png|
    ensures png[DataStart + b] == canvas[o] && png[DataStart + b + 1] == canvas[o + 1]
    ensures png[DataStart + b + 2] == canvas[o + 2] && png[DataStart + b + 3] == canvas[o + 3]
  {
    assert png[DataStart + row] == data[row];
    SubSlice(png, DataStart, DataStart + |data|, data, b, b + 4);
    assert canvas[o .. o + 4][1] == canvas[o + 1] && canvas[o .. o + 4][2] == canvas[o + 2];
    assert canvas[o .. o + 4][0] == canvas[o] && canvas[o .. o + 4][3] == canvas[o + 3];
    assert png[DataStart + b .. DataStart + b + 4][1] == png[DataStart + b + 1];
    assert png[DataStart + b .. DataStart + b + 4][2] == png[DataStart + b + 2];
    assert png[DataStart + b .. DataStart + b + 4][3] == png[DataStart + b + 3];
  }

  /** Scanline bytes read back through the layout. */
  lemma ScanlinesReadBack(png: seq<byte>, data: seq<byte>, canvas: seq<byte>, size: nat, x: nat, y: nat)
    requires IsCanvas(canvas, size) && x < size && y < size
    requires data == Rows(canvas, size, size)
    requires |png| >= DataStart + |data| && png[DataStart .. DataStart + |data|] == data
    ensures DataStart + y * Stride(size) + 1 + 4 * x + 4 <= |png|
    ensures png[DataStart + y * Stride(size)] == 0
    ensures PixelOf(png, size, x, y) == PixelAt(canvas, size, x, y)
  {
    PixelInRows(canvas, size, x, y);
    Transfer(png, data, canvas, y * Stride(size), y * Stride(size) + 1 + 4 * x, Offset(size, x, y));
  }

  /** `createSimplePNG`. A size whose width or IDAT length does not fit the
      32-bit fields makes `writeUInt32BE` throw, modelled as `None`. */
  method CreateSimplePng(canvas: seq<byte>, size: nat) returns (png: Option<seq<byte>>)
    requires IsCanvas(canvas, size)
    ensures png.None? <==> IdatSize(size) >= TwoTo32
    ensures png.Some? ==> WellLaidOut(png.value, canvas, size)
  {
    if IdatSize(size) >= TwoTo32 {
      return None;
    }
    var data, offset := FilteredRows(canvas, size);
    var out := Assemble(size, data);
    AssembleHeader(size, data);
    AllPixelsReadBack(out, data, canvas, size);
    png := Some(out);
  }

  // ---------------------------------------------------------------------------
  // The left stroke of `createSimpleBMPIcon`

  /** `Math.max(2, Math.floor(size / 8))`. */
  function Thickness(size: nat): nat
  {
    if size / 8 > 2 then size / 8 else 2
  }

  /** The stroke's column and rows: `floor(size * 0.25)`, `floor(size * 0.2)`
      and `floor(size * 0.8)`, computed exactly as integer quotients. */
  function LeftX(size: nat): nat { size / 4 }
  function TopY(size: nat): nat { size / 5 }
  function BottomY(size: nat): nat { 4 * size / 5 }

  /** The last column of the stroke. */
  function RightX(size: nat): int { LeftX(size) + Thickness(size) - 1 }

  /** The points of the left stroke, row by row. */
  function StrokePoints(size: nat): seq<Point>
  {
    Scan(LeftX(size), RightX(size), TopY(size), BottomY(size), Everywhere)
  }

  lemma StrokePixel(size: nat, x: int, y: int)
    requires InBounds(size, x, y)
    ensures IsCanvas(Blank(size * size * 4), size)
    ensures PixelAt(Plot(Blank(size * size * 4), size, StrokePoints(size), Black), size, x, y)
         == if LeftX(size) <= x < LeftX(size) + Thickness(size) && TopY(size) <= y <= BottomY(size) then Black
            else Transparent
  {
    BlankTransparent(size, x, y);
    PlotScan(Blank(size * size * 4), size, LeftX(size), RightX(size), TopY(size), BottomY(size), Everywhere, Black, x, y);
  }

  /** The zeroed canvas and the left stroke of the "K": rows `TopY` to
      `BottomY`, columns `LeftX` up to `LeftX + Thickness`, painted black;
      every other pixel stays transparent. */
  method LeftStroke(size: nat) returns (c: seq<byte>)
    ensures IsCanvas(c, size)
    ensures forall x, y :: InBounds(size, x, y) ==>
      PixelAt(c, size, x, y)
      == if LeftX(size) <= x < LeftX(size) + Thickness(size) && TopY(size) <= y <= BottomY(size) then Black
         else Transparent
  {
    c := Plot(Blank(size * size * 4), size, StrokePoints(size), Black);
    forall x, y | InBounds(size, x, y)
      ensures PixelAt(c, size, x, y)
           == if LeftX(size) <= x < LeftX(size) + Thickness(size) && TopY(size) <= y <= BottomY(size) then Black
              else Transparent
    {
      StrokePixel(size, x, y);
    }
  }
}
