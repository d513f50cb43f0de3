/** The CPU copies into a window buffer (surface/native_rgba_copy.cpp). A buffer is an array of rows of
    bytes, one row per line of `rowBytes` bytes; pixel (x, y) is the four bytes from 4 * x of row y. */
module NativeRgbaCopy {
  import opened FrameUtils
  import opened RemoteContentGeometry

  type Byte = n: nat | n < 256

  datatype PixelFormat = Rgba8888 | Rgbx8888 | Bgra8888 | Bgrx8888

  datatype Pixel = Pixel(r: Byte, g: Byte, b: Byte, a: Byte)

  datatype RenderViewport = RenderViewport(x: U32, y: U32, width: U32, height: U32)

  const LETTERBOX := Pixel(0, 0, 0, 255)

  predicate IsRgbaOrder(format: PixelFormat) { format.Rgba8888? || format.Rgbx8888? }

  /** Which channel of an RGBA pixel sits in the given byte of a native pixel. */
  function Channel(format: PixelFormat, byteInPixel: nat): nat
    requires byteInPixel < 4
    ensures Channel(format, byteInPixel) < 4
  {
    if IsRgbaOrder(format) then byteInPixel
    else if byteInPixel == 0 then 2
    else if byteInPixel == 2 then 0
    else byteInPixel
  }

  function Component(p: Pixel, channel: nat): Byte
    requires channel < 4
  {
    if channel == 0 then p.r else if channel == 1 then p.g else if channel == 2 then p.b else p.a
  }

  /** The bytes of a native pixel in memory order. */
  function NativeBytes(format: PixelFormat, p: Pixel): seq<Byte> {
    [Component(p, Channel(format, 0)), Component(p, Channel(format, 1)),
     Component(p, Channel(format, 2)), Component(p, Channel(format, 3))]
  }

  lemma ByteOrder(format: PixelFormat, p: Pixel)
    ensures NativeBytes(format, p) ==
              match format
              case Rgba8888 => [p.r, p.g, p.b, p.a]
              case Rgbx8888 => [p.r, p.g, p.b, p.a]
              case Bgra8888 => [p.b, p.g, p.r, p.a]
              case Bgrx8888 => [p.b, p.g, p.r, p.a]
  {
  }

  function FitFrameIntoTarget(targetWidth: U32, targetHeight: U32, sourceWidth: U32,
                              sourceHeight: U32): RenderViewport {
    var g := FitRemoteContentIntoTarget(targetWidth, targetHeight, sourceWidth, sourceHeight);
    RenderViewport(g.contentX, g.contentY, g.contentWidth, g.contentHeight)
  }

  /** Where a frame is shown in a target: not empty, inside, centred, and at its own size when it leaves at most 16 px;
      otherwise it fills one direction of the target and keeps its shape, rounded down, in the other. */
  lemma ViewportKeepsTheShape(targetWidth: U32, targetHeight: U32, sourceWidth: U32, sourceHeight: U32)
    requires 0 < targetWidth && 0 < targetHeight && 0 < sourceWidth && 0 < sourceHeight
    ensures var v := FitFrameIntoTarget(targetWidth, targetHeight, sourceWidth, sourceHeight);
            && 0 < v.width && 0 < v.height
            && 0 <= targetWidth - v.width - 2 * v.x <= 1 && 0 <= targetHeight - v.height - 2 * v.y <= 1
            && if FitsWithin16(targetWidth, targetHeight, sourceWidth, sourceHeight) then
                 v.width == sourceWidth && v.height == sourceHeight
               else
                 || (v.width == targetWidth && targetWidth * sourceHeight <= targetHeight * sourceWidth &&
                     IsRoundedDown(v.height, targetWidth * sourceHeight, sourceWidth))
                 || (v.height == targetHeight && targetHeight * sourceWidth < targetWidth * sourceHeight &&
                     IsRoundedDown(v.width, targetHeight * sourceWidth, sourceHeight))
  {
    FitIsInsideAndCentred(targetWidth, targetHeight, sourceWidth, sourceHeight);
    if FitsWithin16(targetWidth, targetHeight, sourceWidth, sourceHeight) {
      KeepsItsSizeWithin16(targetWidth, targetHeight, sourceWidth, sourceHeight);
    } else {
      FitTouchesOppositeSides(targetWidth, targetHeight, sourceWidth, sourceHeight);
    }
  }

  /** Byte j of row i belongs to a pixel of the rectangle. */
  predicate InRect(i: int, j: int, x: nat, y: nat, width: nat, height: nat) {
    y <= i < y + height && 4 * x <= j < 4 * (x + width)
  }

  predicate FitsBuffer(buffer: array2<Byte>, width: nat, height: nat) {
    height <= buffer.Length0 && 4 * width <= buffer.Length1
  }

  method CopyRgbaPixelToNative(target: array2<Byte>, row: nat, start: nat, format: PixelFormat, p: Pixel)
    requires row < target.Length0 && start + 4 <= target.Length1
    modifies target
    ensures forall c: nat | c < 4 :: target[row, start + c] == Component(p, Channel(format, c))
    ensures [target[row, start], target[row, start + 1], target[row, start + 2], target[row, start + 3]] ==
              match format
              case Rgba8888 => [p.r, p.g, p.b, p.a]
              case Rgbx8888 => [p.r, p.g, p.b, p.a]
              case Bgra8888 => [p.b, p.g, p.r, p.a]
              case Bgrx8888 => [p.b, p.g, p.r, p.a]
    ensures forall i, j | 0 <= i < target.Length0 && 0 <= j < target.Length1 && !(i == row && start <= j < start + 4) ::
              target[i, j] == old(target[i, j])
  {
    if format == Bgra8888 || format == Bgrx8888 {
      target[row, start] := p.b;
      target[row, start + 1] := p.g;
      target[row, start + 2] := p.r;
      target[row, start + 3] := p.a;
      return;
    }
    target[row, start] := p.r;
    target[row, start + 1] := p.g;
    target[row, start + 2] := p.b;
    target[row, start + 3] := p.a;
  }

  method FillNativeRect(target: array2<Byte>, format: PixelFormat, x: nat, y: nat, width: nat, height: nat, p: Pixel)
    requires width != 0 && height != 0 ==> FitsBuffer(target, x + width, y + height)
    modifies target
    ensures forall i, j | 0 <= i < target.Length0 && 0 <= j < target.Length1 ::
              target[i, j] ==
                if InRect(i, j, x, y, width, height) then Component(p, Channel(format, j % 4))
                else old(target[i, j])
  {
    if width == 0 || height == 0 {
      return;
    }
    for row := 0 to height
      invariant forall i, j | 0 <= i < target.Length0 && 0 <= j < target.Length1 ::
                  target[i, j] ==
                    if InRect(i, j, x, y, width, row) then Component(p, Channel(format, j % 4))
                    else old(target[i, j])
    {
      for column := 0 to width
        invariant forall i, j | 0 <= i < target.Length0 && 0 <= j < target.Length1 ::
                    target[i, j] == if InRect(i, j, x, y, width, row) || InRect(i, j, x, y + row, column, 1)
                                    then Component(p, Channel(format, j % 4)) else old(target[i, j])
      {
        ghost var start := 4 * (x + column);
        CopyRgbaPixelToNative(target, y + row, 4 * x + 4 * column, format, p);
        forall j | start <= j < start + 4
          ensures target[y + row, j] == Component(p, Channel(format, j % 4))
        {
          assert j == start + (j - start);
          assert j % 4 == j - start;
        }
      }
    }
  }

  /** The bytes a copy leaves at byte j of row i, read from source pixel (sx, sy). */
  function SourceByte(source: array2<Byte>, format: PixelFormat, sx: nat, sy: nat, j: nat): Byte
    requires sy < source.Length0 && 4 * sx + 3 < source.Length1
    reads source
  {
    source[sy, 4 * sx + Channel(format, j % 4)]
  }

  method CopySourcePixel(target: array2<Byte>, row: nat, x: nat, format: PixelFormat, source: array2<Byte>, sx: nat,
                         sy: nat)
    requires row < target.Length0 && 4 * x + 3 < target.Length1
    requires sy < source.Length0 && 4 * sx + 3 < source.Length1
    requires target != source
    modifies target
    ensures forall i, j | 0 <= i < target.Length0 && 0 <= j < target.Length1 ::
              target[i, j] ==
                if InRect(i, j, x, row, 1, 1) then SourceByte(source, format, sx, sy, j)
                else old(target[i, j])
  {
    var p := Pixel(source[sy, 4 * sx], source[sy, 4 * sx + 1], source[sy, 4 * sx + 2], source[sy, 4 * sx + 3]);
    CopyRgbaPixelToNative(target, row, 4 * x, format, p);
    forall j | 4 * x <= j < 4 * x + 4
      ensures target[row, j] == SourceByte(source, format, sx, sy, j)
    {
      assert j % 4 == j - 4 * x;
      assert j == 4 * x + (j - 4 * x);
    }
  }

  method CopyRgbaRectToNative(target: array2<Byte>, format: PixelFormat, source: array2<Byte>,
                              x: nat, y: nat, width: nat, height: nat)
    requires width != 0 && height != 0 ==>
               FitsBuffer(target, x + width, y + height) && FitsBuffer(source, x + width, y + height)
    requires target != source
    modifies target
    ensures forall i, j | 0 <= i < target.Length0 && 0 <= j < target.Length1 ::
              target[i, j] ==
                if InRect(i, j, x, y, width, height) then SourceByte(source, format, j / 4, i, j)
                else old(target[i, j])
  {
    if width == 0 || height == 0 {
      return;
    }
    if IsRgbaOrder(format) {
      for row := 0 to height
        invariant forall i, j | 0 <= i < target.Length0 && 0 <= j < target.Length1 ::
                    target[i, j] == if InRect(i, j, x, y, width, row) then source[i, j] else old(target[i, j])
      {
        var line, begin, end := y + row, 4 * x, 4 * (x + width);
        forall j | begin <= j < end {
          target[line, j] := source[line, j];
        }
      }
      return;
    }
    for row := 0 to height
      invariant forall i, j | 0 <= i < target.Length0 && 0 <= j < target.Length1 ::
                  target[i, j] ==
                    if InRect(i, j, x, y, width, row) then SourceByte(source, format, j / 4, i, j)
                    else old(target[i, j])
    {
      for column := 0 to width
        invariant forall i, j | 0 <= i < target.Length0 && 0 <= j < target.Length1 ::
                    target[i, j] == if InRect(i, j, x, y, width, row) || InRect(i, j, x, y + row, column, 1)
                                    then SourceByte(source, format, j / 4, i, j) else old(target[i, j])
      {
        CopySourcePixel(target, y + row, x + column, format, source, x + column, y + row);
      }
    }
  }

  /** Source coordinate s is the one that content coordinate `position` falls on: its start, scaled to the source,
      lies in [s, s + 1). */
  predicate FallsOn(s: nat, position: nat, sourceLength: nat, contentLength: nat) {
    s * contentLength <= position * sourceLength < (s + 1) * contentLength
  }

  /** Which source coordinate a content coordinate samples. */
  function Sample(position: nat, sourceLength: nat, contentLength: nat): (s: nat)
    requires position < contentLength && 0 < sourceLength
    ensures s < sourceLength
  {
    SampleInRange(position, sourceLength, contentLength);
    position * sourceLength / contentLength
  }

  lemma SampleIsFallenOn(position: nat, sourceLength: nat, contentLength: nat)
    requires position < contentLength && 0 < sourceLength
    ensures FallsOn(Sample(position, sourceLength, contentLength), position, sourceLength, contentLength)
  {
    QuotientBounds(position * sourceLength, contentLength);
  }

  /** The coordinate sampled is the one that is fallen on, and no other is. */
  lemma FallsOnOnlyOne(s: nat, position: nat, sourceLength: nat, contentLength: nat)
    requires position < contentLength && 0 < sourceLength
    ensures FallsOn(s, position, sourceLength, contentLength) <==> s == Sample(position, sourceLength, contentLength)
  {
    var t := Sample(position, sourceLength, contentLength);
    SampleIsFallenOn(position, sourceLength, contentLength);
    if s < t {
      MulMonoWeak(s + 1, t, contentLength);
    } else if t < s {
      MulMonoWeak(t + 1, s, contentLength);
    }
  }

  lemma SampleInRange(position: nat, sourceLength: nat, contentLength: nat)
    requires position < contentLength && 0 < sourceLength
    ensures 0 <= position * sourceLength / contentLength < sourceLength
  {
    MulMonoStrict(position, contentLength, sourceLength);
    QuotientBelow(position * sourceLength, contentLength, sourceLength);
  }

  lemma MulMonoStrict(a: nat, b: nat, c: nat)
    requires a < b && 0 < c
    ensures a * c < b * c
  {
  }

  lemma QuotientIsExact(a: nat, b: nat)
    requires 0 < b
    ensures a * b / b == a
  {
    var n := a * b;
    assert n < (a + 1) * b;
    QuotientBelow(n, b, a + 1);
    if n / b < a {
      QuotientBounds(n, b);
      MulMonoWeak(n / b + 1, a, b);
    }
  }

  lemma MulMonoWeak(a: nat, b: nat, c: nat)
    requires a <= b
    ensures a * c <= b * c
  {
  }

  /** The row-copy fast path is the general sampling rule at equal sizes. */
  lemma SampleIsIdentityAtEqualSize(position: nat, length: nat)
    requires position < length
    ensures Sample(position, length, length) == position
  {
    QuotientIsExact(position, length);
  }

  method CopyRgbaToNative(target: array2<Byte>, format: PixelFormat, source: array2<Byte>, width: nat, height: nat)
    requires FitsBuffer(target, width, height) && FitsBuffer(source, width, height) && target != source
    modifies target
    ensures forall i, j | 0 <= i < target.Length0 && 0 <= j < target.Length1 ::
              target[i, j] ==
                if InRect(i, j, 0, 0, width, height) then SourceByte(source, format, j / 4, i, j)
                else old(target[i, j])
  {
    if IsRgbaOrder(format) {
      for y := 0 to height
        invariant forall i, j | 0 <= i < target.Length0 && 0 <= j < target.Length1 ::
                    target[i, j] == if InRect(i, j, 0, 0, width, y) then source[i, j] else old(target[i, j])
      {
        forall k | 0 <= k < 4 * width {
          target[y, k] := source[y, k];
        }
      }
      return;
    }
    for y := 0 to height
      invariant forall i, j | 0 <= i < target.Length0 && 0 <= j < target.Length1 ::
                  target[i, j] ==
                    if InRect(i, j, 0, 0, width, y) then SourceByte(source, format, j / 4, i, j)
                    else old(target[i, j])
    {
      for x := 0 to width
        invariant forall i, j | 0 <= i < target.Length0 && 0 <= j < target.Length1 ::
                    target[i, j] == if InRect(i, j, 0, 0, width, y) || InRect(i, j, 0, y, x, 1)
                                    then SourceByte(source, format, j / 4, i, j) else old(target[i, j])
      {
        CopySourcePixel(target, y, x, format, source, x, y);
      }
    }
  }

  /** What the general scaling rule leaves at byte j of row i. */
  function ScaledByte(source: array2<Byte>, format: PixelFormat, sourceWidth: nat, sourceHeight: nat,
                      viewport: RenderViewport, i: nat, j: nat): Byte
    requires 0 < sourceWidth && 0 < sourceHeight && FitsBuffer(source, sourceWidth, sourceHeight)
    requires InRect(i, j, viewport.x, viewport.y, viewport.width, viewport.height)
    reads source
  {
    SourceByte(source, format, Sample(j / 4 - viewport.x, sourceWidth, viewport.width),
               Sample(i - viewport.y, sourceHeight, viewport.height), j)
  }

  /** One line of the scaling loop. */
  method CopyScaledRow(target: array2<Byte>, format: PixelFormat, source: array2<Byte>,
                       sourceWidth: nat, sourceHeight: nat, viewport: RenderViewport, y: nat)
    requires 0 < sourceWidth && 0 < sourceHeight && FitsBuffer(source, sourceWidth, sourceHeight)
    requires FitsBuffer(target, viewport.x + viewport.width, viewport.y + viewport.height) && target != source
    requires y < viewport.height
    modifies target
    ensures forall i, j | 0 <= i < target.Length0 && 0 <= j < target.Length1 ::
              target[i, j] == if InRect(i, j, viewport.x, viewport.y + y, viewport.width, 1)
                              then ScaledByte(source, format, sourceWidth, sourceHeight, viewport, i, j)
                              else old(target[i, j])
  {
    var sourceY := Sample(y, sourceHeight, viewport.height);
    for x := 0 to viewport.width
      invariant forall i, j | 0 <= i < target.Length0 && 0 <= j < target.Length1 ::
                  target[i, j] == if InRect(i, j, viewport.x, viewport.y + y, x, 1)
                                  then ScaledByte(source, format, sourceWidth, sourceHeight, viewport, i, j)
                                  else old(target[i, j])
    {
      var sourceX := Sample(x, sourceWidth, viewport.width);
      CopySourcePixel(target, viewport.y + y, viewport.x + x, format, source, sourceX, sourceY);
    }
  }

  /** The four bytes of pixel (x, y) of a buffer. */
  function PixelAt(buffer: array2<Byte>, x: nat, y: nat): seq<Byte>
    requires FitsBuffer(buffer, x + 1, y + 1)
    reads buffer
  {
    [buffer[y, 4 * x], buffer[y, 4 * x + 1], buffer[y, 4 * x + 2], buffer[y, 4 * x + 3]]
  }

  function SourcePixel(source: array2<Byte>, x: nat, y: nat): Pixel
    requires FitsBuffer(source, x + 1, y + 1)
    reads source
  {
    Pixel(source[y, 4 * x], source[y, 4 * x + 1], source[y, 4 * x + 2], source[y, 4 * x + 3])
  }

  lemma ScaledPixel(target: array2<Byte>, format: PixelFormat, source: array2<Byte>,
                    sourceWidth: nat, sourceHeight: nat, viewport: RenderViewport, x: nat, y: nat,
                    i: nat, b: nat)
    requires 0 < sourceWidth && 0 < sourceHeight && FitsBuffer(source, sourceWidth, sourceHeight)
    requires FitsBuffer(target, viewport.x + viewport.width, viewport.y + viewport.height)
    requires x < viewport.width && y < viewport.height && i == viewport.y + y && b == 4 * (viewport.x + x)
    requires forall j: nat | b <= j < b + 4 ::
               target[i, j] == ScaledByte(source, format, sourceWidth, sourceHeight, viewport, i, j)
    ensures PixelAt(target, viewport.x + x, viewport.y + y) ==
            NativeBytes(format, SourcePixel(source, Sample(x, sourceWidth, viewport.width),
                                            Sample(y, sourceHeight, viewport.height)))
  {
    forall c: nat | c < 4
      ensures target[i, b + c] == SourceByte(source, format, Sample(x, sourceWidth, viewport.width),
                                             Sample(y, sourceHeight, viewport.height), c)
    {
      assert (b + c) / 4 == viewport.x + x && (b + c) % 4 == c;
    }
  }

  method CopyScaledRgbaToNative(target: array2<Byte>, format: PixelFormat, source: array2<Byte>,
                                sourceWidth: nat, sourceHeight: nat, viewport: RenderViewport)
    requires 0 < sourceWidth && 0 < sourceHeight && FitsBuffer(source, sourceWidth, sourceHeight)
    requires FitsBuffer(target, viewport.x + viewport.width, viewport.y + viewport.height) && target != source
    modifies target
    ensures forall i, j | 0 <= i < target.Length0 && 0 <= j < target.Length1 ::
              target[i, j] == if InRect(i, j, viewport.x, viewport.y, viewport.width, viewport.height)
                              then ScaledByte(source, format, sourceWidth, sourceHeight, viewport, i, j)
                              else old(target[i, j])
    ensures forall x: nat, y: nat, sx: nat, sy: nat |
              x < viewport.width && y < viewport.height && sx < sourceWidth && sy < sourceHeight
              && FallsOn(sx, x, sourceWidth, viewport.width) && FallsOn(sy, y, sourceHeight, viewport.height) ::
              PixelAt(target, viewport.x + x, viewport.y + y) == NativeBytes(format, SourcePixel(source, sx, sy))
  {
    CopyScaledPixels(target, format, source, sourceWidth, sourceHeight, viewport);
    forall x: nat, y: nat, sx: nat, sy: nat |
      x < viewport.width && y < viewport.height && sx < sourceWidth && sy < sourceHeight
      && FallsOn(sx, x, sourceWidth, viewport.width) && FallsOn(sy, y, sourceHeight, viewport.height)
      ensures PixelAt(target, viewport.x + x, viewport.y + y) == NativeBytes(format, SourcePixel(source, sx, sy))
    {
      FallsOnOnlyOne(sx, x, sourceWidth, viewport.width);
      FallsOnOnlyOne(sy, y, sourceHeight, viewport.height);
      ScaledPixel(target, format, source, sourceWidth, sourceHeight, viewport, x, y,
                  viewport.y + y, 4 * (viewport.x + x));
    }
  }

  method CopyScaledPixels(target: array2<Byte>, format: PixelFormat, source: array2<Byte>,
                          sourceWidth: nat, sourceHeight: nat, viewport: RenderViewport)
    requires 0 < sourceWidth && 0 < sourceHeight && FitsBuffer(source, sourceWidth, sourceHeight)
    requires FitsBuffer(target, viewport.x + viewport.width, viewport.y + viewport.height) && target != source
    modifies target
    ensures forall i, j | 0 <= i < target.Length0 && 0 <= j < target.Length1 ::
              target[i, j] == if InRect(i, j, viewport.x, viewport.y, viewport.width, viewport.height)
                              then ScaledByte(source, format, sourceWidth, sourceHeight, viewport, i, j)
                              else old(target[i, j])
  {
    if sourceWidth == viewport.width && sourceHeight == viewport.height && viewport.x == 0 && viewport.y == 0 {
      CopyRgbaToNative(target, format, source, sourceWidth, sourceHeight);
      forall i, j | InRect(i, j, 0, 0, sourceWidth, sourceHeight)
        ensures SourceByte(source, format, j / 4, i, j) ==
          ScaledByte(source, format, sourceWidth, sourceHeight, viewport, i, j)
      {
        SampleIsIdentityAtEqualSize(j / 4, sourceWidth);
        SampleIsIdentityAtEqualSize(i, sourceHeight);
      }
      return;
    }
    for y := 0 to viewport.height
      invariant forall i, j | 0 <= i < target.Length0 && 0 <= j < target.Length1 ::
                  target[i, j] == if InRect(i, j, viewport.x, viewport.y, viewport.width, y)
                                  then ScaledByte(source, format, sourceWidth, sourceHeight, viewport, i, j)
                                  else old(target[i, j])
    {
      CopyScaledRow(target, format, source, sourceWidth, sourceHeight, viewport, y);
    }
  }

  /** The four bars around the content. */
  method FillNativeLetterbox(target: array2<Byte>, format: PixelFormat, width: nat, height: nat,
                             viewport: RenderViewport, p: Pixel)
    requires FitsBuffer(target, width, height)
    requires viewport.x + viewport.width <= width && viewport.y + viewport.height <= height
    modifies target
    ensures forall i, j | 0 <= i < target.Length0 && 0 <= j < target.Length1 ::
              target[i, j] == if InRect(i, j, 0, 0, width, height) &&
                                 !InRect(i, j, viewport.x, viewport.y, viewport.width, viewport.height)
                              then Component(p, Channel(format, j % 4)) else old(target[i, j])
  {
    FillNativeRect(target, format, 0, 0, width, viewport.y, p);
    var bottomY := viewport.y + viewport.height;
    if bottomY < height {
      FillNativeRect(target, format, 0, bottomY, width, height - bottomY, p);
    }
    FillNativeRect(target, format, 0, viewport.y, viewport.x, viewport.height, p);
    var rightX := viewport.x + viewport.width;
    if rightX < width {
      FillNativeRect(target, format, rightX, viewport.y, width - rightX, viewport.height, p);
    }
  }

  function Count(b: bool): nat { if b then 1 else 0 }

  /** The four bars and the content partition the target: each byte of it is written by exactly one of
      the five writes, and no byte outside it by any. */
  lemma BarsAndContentPartition(width: nat, height: nat, viewport: RenderViewport, i: nat, j: nat)
    requires viewport.x + viewport.width <= width && viewport.y + viewport.height <= height
    ensures var bottomY := viewport.y + viewport.height;
            var rightX := viewport.x + viewport.width;
            Count(InRect(i, j, 0, 0, width, viewport.y))
            + Count(InRect(i, j, 0, bottomY, width, height - bottomY))
            + Count(InRect(i, j, 0, viewport.y, viewport.x, viewport.height))
            + Count(InRect(i, j, rightX, viewport.y, width - rightX, viewport.height))
            + Count(InRect(i, j, viewport.x, viewport.y, viewport.width, viewport.height))
            == Count(InRect(i, j, 0, 0, width, height))
  {
  }
}
