/** The framebuffer as a drawing surface (src/graphics.rs): which byte and bit a pixel lives in,
    what drawing one pixel does to the buffer, and what drawing a sequence of pixels does. */
module Graphics {

  import opened Wrappers
  import opened Instructions
  import opened Geometry

  datatype BinaryColor = Off | On

  /** A point of the drawing surface; coordinates may be negative or beyond the panel. */
  datatype Point = Point(x: int, y: int)

  datatype Pixel = Pixel(point: Point, color: BinaryColor)

  /** The dimensions the surface reports: the panel's width and height. */
  datatype Dimensions = Dimensions(width: nat, height: nat)

  /** The points on the panel. */
  predicate InBounds(size: DisplaySize, p: Point)
  {
    0 <= p.x < size.Width() && 0 <= p.y < size.Height()
  }

  lemma {:induction false} MulAtLeast(d: nat, w: nat)
    requires d >= 1
    ensures d * w >= w
    decreases d
  {
    if d > 1 {
      MulAtLeast(d - 1, w);
      assert d * w == (d - 1) * w + w;
    }
  }

  /** Splitting a row-major index into a column below `w` and a row is unique. */
  lemma RowMajorUnique(w: nat, a: nat, p: nat, b: nat, q: nat)
    requires a < w && b < w && a + p * w == b + q * w
    ensures p == q && a == b
  {
    if p < q {
      assert q * w == p * w + (q - p) * w;
      MulAtLeast(q - p, w);
    } else if q < p {
      assert p * w == q * w + (p - q) * w;
      MulAtLeast(p - q, w);
    }
  }

  /** The byte that holds a pixel: column x of page y / 8. It always lies inside the buffer. */
  function ByteIndex(size: DisplaySize, p: Point): (i: nat)
    requires InBounds(size, p)
    ensures i < size.BufferSize()
    ensures i % size.Width() == p.x && i / size.Width() == p.y / 8
  {
    var page := p.y / 8;
    assert page < size.Pages();
    assert p.x + page * size.Width() < size.BufferSize() by {
      BufferSizeIsArea(size);
      assert page * size.Width() <= (size.Pages() - 1) * size.Width();
    }
    assert (p.x + page * size.Width()) / size.Width() == page && (p.x + page * size.Width()) % size.Width() == p.x by {
      var i := p.x + page * size.Width();
      RowMajorUnique(size.Width(), p.x, page, i % size.Width(), i / size.Width());
    }
    p.x + page * size.Width()
  }

  /** The bit of that byte which holds the pixel: bit y % 8, the least significant being row 0. */
  function BitIndex(p: Point): (k: nat)
    ensures k < 8
  {
    p.y % 8
  }

  /** Two distinct points on the panel never share both byte and bit. */
  lemma AddressInjective(size: DisplaySize, p: Point, q: Point)
    requires InBounds(size, p) && InBounds(size, q)
    ensures ByteIndex(size, p) == ByteIndex(size, q) && BitIndex(p) == BitIndex(q) ==> p == q
  {
    if ByteIndex(size, p) == ByteIndex(size, q) && BitIndex(p) == BitIndex(q) {
      assert p.x == q.x && p.y / 8 == q.y / 8;
      assert p.y == 8 * (p.y / 8) + p.y % 8 && q.y == 8 * (q.y / 8) + q.y % 8;
    }
  }

  /** Whether bit k of b is set. */
  predicate BitSet(b: byte, k: nat)
    requires k < 8
  {
    b & (1 << k) != 0
  }

  /** Bit k of b switched on for On and off for Off, as `|=` and `&= !` do. */
  function WriteBit(b: byte, k: nat, color: BinaryColor): (r: byte)
    requires k < 8
    ensures BitSet(r, k) == (color == On)
  {
    match color
    case On => b | (1 << k)
    case Off => b & !(1 << k)
  }

  /** Writing bit k keeps the other seven bits. */
  lemma WriteBitOthers(b: byte, k: nat, color: BinaryColor, j: nat)
    requires k < 8 && j < 8 && j != k
    ensures BitSet(WriteBit(b, k, color), j) == BitSet(b, j)
  {
  }

  /** Of two writes to the same bit, the later one decides. */
  lemma WriteBitOverwrite(b: byte, k: nat, first: BinaryColor, second: BinaryColor)
    requires k < 8
    ensures WriteBit(WriteBit(b, k, first), k, second) == WriteBit(b, k, second)
  {
  }

  /** Setting a clear bit and clearing it again gives the byte back. */
  lemma WriteBitRestore(b: byte, k: nat)
    requires k < 8 && !BitSet(b, k)
    ensures WriteBit(WriteBit(b, k, On), k, Off) == b
  {
  }

  /** Whether the pixel at p is lit in the buffer. */
  predicate Lit(size: DisplaySize, buffer: seq<byte>, p: Point)
    requires |buffer| == size.BufferSize() && InBounds(size, p)
  {
    BitSet(buffer[ByteIndex(size, p)], BitIndex(p))
  }

  /** One iteration of the drawing loop: a pixel off the panel is skipped, one on it has its bit
      written in its byte and nothing else changes. */
  function DrawPixel(size: DisplaySize, buffer: seq<byte>, pixel: Pixel): (r: seq<byte>)
    requires |buffer| == size.BufferSize()
    ensures |r| == |buffer|
    ensures !InBounds(size, pixel.point) ==> r == buffer
    ensures InBounds(size, pixel.point) ==>
              && Lit(size, r, pixel.point) == (pixel.color == On)
              && (forall i :: 0 <= i < |r| && i != ByteIndex(size, pixel.point) ==> r[i] == buffer[i])
  {
    if !InBounds(size, pixel.point) then buffer
    else
      var i := ByteIndex(size, pixel.point);
      buffer[i := WriteBit(buffer[i], BitIndex(pixel.point), pixel.color)]
  }

  /** Drawing a pixel leaves every other pixel as it was. */
  lemma DrawPixelOthers(size: DisplaySize, buffer: seq<byte>, pixel: Pixel, q: Point)
    requires |buffer| == size.BufferSize() && InBounds(size, q) && q != pixel.point
    ensures Lit(size, DrawPixel(size, buffer, pixel), q) == Lit(size, buffer, q)
  {
    if InBounds(size, pixel.point) {
      AddressInjective(size, pixel.point, q);
      if ByteIndex(size, pixel.point) == ByteIndex(size, q) {
        WriteBitOthers(buffer[ByteIndex(size, q)], BitIndex(pixel.point), pixel.color, BitIndex(q));
      }
    }
  }

  /** Inside the byte a pixel lives in, drawing it changes no other bit. */
  lemma DrawPixelBits(size: DisplaySize, buffer: seq<byte>, pixel: Pixel, j: nat)
    requires |buffer| == size.BufferSize() && InBounds(size, pixel.point) && j < 8 && j != BitIndex(pixel.point)
    ensures var i := ByteIndex(size, pixel.point);
            BitSet(DrawPixel(size, buffer, pixel)[i], j) == BitSet(buffer[i], j)
  {
    WriteBitOthers(buffer[ByteIndex(size, pixel.point)], BitIndex(pixel.point), pixel.color, j);
  }

  /** Drawing the same pixel twice is drawing it once. */
  lemma DrawPixelIdempotent(size: DisplaySize, buffer: seq<byte>, pixel: Pixel)
    requires |buffer| == size.BufferSize()
    ensures DrawPixel(size, DrawPixel(size, buffer, pixel), pixel) == DrawPixel(size, buffer, pixel)
  {
    if InBounds(size, pixel.point) {
      var i, k := ByteIndex(size, pixel.point), BitIndex(pixel.point);
      WriteBitOverwrite(buffer[i], k, pixel.color, pixel.color);
    }
  }

  /** Of two writes to the same point, the later one decides. */
  lemma DrawPixelOverwrite(size: DisplaySize, buffer: seq<byte>, p: Point, first: BinaryColor, second: BinaryColor)
    requires |buffer| == size.BufferSize()
    ensures DrawPixel(size, DrawPixel(size, buffer, Pixel(p, first)), Pixel(p, second))
            == DrawPixel(size, buffer, Pixel(p, second))
  {
    if InBounds(size, p) {
      var i, k := ByteIndex(size, p), BitIndex(p);
      WriteBitOverwrite(buffer[i], k, first, second);
    }
  }

  /** Switching an unlit pixel on and then off again gives the buffer back byte for byte. */
  lemma OnThenOffRestores(size: DisplaySize, buffer: seq<byte>, p: Point)
    requires |buffer| == size.BufferSize() && InBounds(size, p) && !Lit(size, buffer, p)
    ensures DrawPixel(size, DrawPixel(size, buffer, Pixel(p, On)), Pixel(p, Off)) == buffer
  {
    var i, k := ByteIndex(size, p), BitIndex(p);
    WriteBitRestore(buffer[i], k);
    assert buffer[i := WriteBit(buffer[i], k, On)][i := buffer[i]] == buffer;
  }

  /** In the all-zero buffer every pixel is dark. */
  lemma BlankBufferUnlit(size: DisplaySize, p: Point)
    requires InBounds(size, p)
    ensures !Lit(size, Zeros(size.BufferSize()), p)
  {
  }

  // ---------------------------------------------------------------- the guard as written

  /** The range of the coordinates' type, i32. */
  predicate IsI32(v: int)
  {
    -0x8000_0000 <= v < 0x8000_0000
  }

  /** An i32 cast to a 64-bit usize: negative values wrap to the top of the range. */
  function AsUsize(v: int): (u: nat)
    requires IsI32(v)
    ensures v >= 0 ==> u == v
    ensures v < 0 ==> u >= 0x1_0000_0000_0000_0000 - 0x8000_0000
  {
    if v >= 0 then v else 0x1_0000_0000_0000_0000 + v
  }

  /** One iteration of the drawing loop with the guard as src/graphics.rs:47-49 writes it (reading
      its `coord` as `point`): a point on the panel is skipped and any other point is written at
      the index the loop computes. None stands for a panic: an index outside the buffer, or an
      index whose usize arithmetic overflows. This is the behaviour of a 64-bit target built with
      overflow checks (the mathematical index is then at least 2^64, so it is outside the buffer
      too); a build without them wraps the index instead, which is not modelled. */
  function DrawPixelAsWritten(size: DisplaySize, buffer: seq<byte>, pixel: Pixel): (r: Option<seq<byte>>)
    requires |buffer| == size.BufferSize() && IsI32(pixel.point.x) && IsI32(pixel.point.y)
    ensures InBounds(size, pixel.point) ==> r == Some(buffer)
    ensures pixel.point.x < 0 || pixel.point.y < 0 ==> r == None
    ensures r.Some? ==> |r.value| == |buffer|
  {
    if InBounds(size, pixel.point) then Some(buffer)
    else
      var x, y := AsUsize(pixel.point.x), AsUsize(pixel.point.y);
      var page := y / 8;
      var byteIndex := x + page * size.Width();
      assert page * size.Width() >= page by {
        if page > 0 {
          MulAtLeast(size.Width(), page);
        }
      }
      if byteIndex < |buffer| then Some(buffer[byteIndex := WriteBit(buffer[byteIndex], y % 8, pixel.color)])
      else None
  }

  /** With the guard as written, drawing the top-left pixel on a blank panel leaves it dark, and
      a point left of the panel makes the loop panic. */
  lemma GuardAsWrittenSkipsPanel(size: DisplaySize)
    ensures var r := DrawPixelAsWritten(size, Zeros(size.BufferSize()), Pixel(Point(0, 0), On));
            r.Some? && |r.value| == size.BufferSize() && !Lit(size, r.value, Point(0, 0))
    ensures DrawPixelAsWritten(size, Zeros(size.BufferSize()), Pixel(Point(-1, 0), On)) == None
  {
  }

  /** With the guard as written, the point just right of the first row of a blank panel lights
      pixel (0, 8) instead. */
  lemma GuardAsWrittenMisplaces(size: DisplaySize)
    ensures var blank := Zeros(size.BufferSize());
            && size.Width() < |blank| && 8 < size.Height()
            && DrawPixelAsWritten(size, blank, Pixel(Point(size.Width(), 0), On)) == Some(blank[size.Width() := 0x01])
            && Lit(size, blank[size.Width() := 0x01], Point(0, 8))
  {
    assert WriteBit(0x00, 0, On) == 0x01;
    assert ByteIndex(size, Point(0, 8)) == size.Width();
  }

  /** The buffer after the drawing loop has gone through `pixels` in order. */
  function DrawAll(size: DisplaySize, buffer: seq<byte>, pixels: seq<Pixel>): (r: seq<byte>)
    requires |buffer| == size.BufferSize()
    ensures |r| == |buffer|
    decreases |pixels|
  {
    if pixels == [] then buffer
    else DrawPixel(size, DrawAll(size, buffer, pixels[..|pixels| - 1]), pixels[|pixels| - 1])
  }

  /** Reference definition: the colour of the last pixel in `pixels` that lies at p, if any. */
  function LastColorAt(pixels: seq<Pixel>, p: Point): Option<BinaryColor>
    decreases |pixels|
  {
    if pixels == [] then None
    else if pixels[|pixels| - 1].point == p then Some(pixels[|pixels| - 1].color)
    else LastColorAt(pixels[..|pixels| - 1], p)
  }

  /** After drawing, each pixel on the panel has the colour of the last pixel drawn at it, and
      keeps its old state when none was. */
  lemma {:induction false} DrawAllLastWins(size: DisplaySize, buffer: seq<byte>, pixels: seq<Pixel>, p: Point)
    requires |buffer| == size.BufferSize() && InBounds(size, p)
    ensures Lit(size, DrawAll(size, buffer, pixels), p)
            == match LastColorAt(pixels, p)
               case None => Lit(size, buffer, p)
               case Some(c) => c == On
    decreases |pixels|
  {
    if pixels != [] {
      var init, last := pixels[..|pixels| - 1], pixels[|pixels| - 1];
      DrawAllLastWins(size, buffer, init, p);
      if last.point != p {
        DrawPixelOthers(size, DrawAll(size, buffer, init), last, p);
      }
    }
  }

  /** Pixels that all lie off the panel leave the buffer byte for byte unchanged. */
  lemma {:induction false} DrawAllOffPanel(size: DisplaySize, buffer: seq<byte>, pixels: seq<Pixel>)
    requires |buffer| == size.BufferSize()
    requires forall i :: 0 <= i < |pixels| ==> !InBounds(size, pixels[i].point)
    ensures DrawAll(size, buffer, pixels) == buffer
    decreases |pixels|
  {
    if pixels != [] {
      DrawAllOffPanel(size, buffer, pixels[..|pixels| - 1]);
    }
  }
}
