/**
  Conversion of a cropped YUV_420_888 camera image to NV21: a luma plane, then V and U
  bytes in turn.  The source planes have arbitrary row and pixel strides and may end early.
*/
module Nv21 {
  import opened Bytes

  datatype Plane = Plane(buffer: bytes, rowStride: nat, pixelStride: nat)

  datatype Rect = Rect(left: nat, top: nat, right: nat, bottom: nat)

  const NEUTRAL: byte := 128

  /** Output bytes per pixel: every byte of the luma plane, every other byte of the chroma plane. */
  type Stride = n: nat | 1 <= n <= 2 witness 1

  // ---------------------------------------------------------------------------
  // What is copied where
  // ---------------------------------------------------------------------------

  /** `n` steps of length `k`. */
  function Steps(k: nat, n: nat): nat {
    if n == 0 then 0 else k + Steps(k, n - 1)
  }

  lemma {:induction false} StepsIsProduct(k: nat, n: nat)
    ensures Steps(k, n) == n * k == k * n
  {
    if n > 0 {
      StepsIsProduct(k, n - 1);
      assert n * k == (n - 1) * k + k;
    }
  }

  /** Where pixel `c` of row `r` of the cropped image is in the plane. */
  function Source(p: Plane, crop: Rect, r: nat, c: nat): nat {
    Steps(p.rowStride, crop.top + r) + Steps(p.pixelStride, crop.left + c)
  }

  /** The byte that a pixel leaves: the plane's, or what was there if the plane ends before it. */
  function PixelOr(p: Plane, source: nat, there: byte): byte {
    if source < |p.buffer| then p.buffer[source] else there
  }

  /** The output bytes that `width` pixels take up. */
  function Span(width: nat, stride: Stride): nat {
    if stride == 1 then width else 2 * width
  }

  /** Between two bytes that are written, when every other byte is. */
  predicate OffGrid(i: nat, at: nat, stride: Stride) {
    stride == 2 && i >= at && (i - at) % 2 == 1
  }

  /** The output after a row of `n` pixels. */
  function RowCopied(p: Plane, source: nat, output: bytes, at: nat, stride: Stride, n: nat): (copied: bytes)
    ensures |copied| == |output|
    decreases n
  {
    if n == 0 then output
    else
      var next := if at < |output| then output[at := PixelOr(p, source, output[at])] else output;
      RowCopied(p, source + p.pixelStride, next, at + stride, stride, n - 1)
  }

  /** The output after `rows` rows. */
  function RowsCopied(p: Plane, source: nat, output: bytes, at: nat, width: nat, stride: Stride, rows: nat): (copied: bytes)
    ensures |copied| == |output|
    decreases rows
  {
    if rows == 0 then output
    else
      RowsCopied(p, source + p.rowStride, RowCopied(p, source, output, at, stride, width),
                 at + Span(width, stride), width, stride, rows - 1)
  }

  /** A row leaves everything outside its pixels as it was. */
  lemma {:induction false} RowElsewhere(p: Plane, source: nat, output: bytes, at: nat, stride: Stride, n: nat, i: nat)
    requires i < |output|
    requires i < at || at + Span(n, stride) <= i || OffGrid(i, at, stride)
    ensures RowCopied(p, source, output, at, stride, n)[i] == output[i]
    decreases n
  {
    if n > 0 {
      var next := if at < |output| then output[at := PixelOr(p, source, output[at])] else output;
      RowElsewhere(p, source + p.pixelStride, next, at + stride, stride, n - 1, i);
    }
  }

  lemma {:induction false} RowAt(p: Plane, source: nat, output: bytes, at: nat, stride: Stride, n: nat, c: nat)
    requires c < n && at + Span(c, stride) < |output|
    ensures RowCopied(p, source, output, at, stride, n)[at + Span(c, stride)]
         == PixelOr(p, source + Steps(p.pixelStride, c), output[at + Span(c, stride)])
    decreases n
  {
    var next := output[at := PixelOr(p, source, output[at])];
    if c == 0 {
      RowElsewhere(p, source + p.pixelStride, next, at + stride, stride, n - 1, at);
    } else {
      RowAt(p, source + p.pixelStride, next, at + stride, stride, n - 1, c - 1);
    }
  }

  /** A byte outside the pixels, which take `n` places from `at` on. */
  predicate IsOutside(i: nat, at: nat, n: nat, stride: Stride) {
    i < at || at + Span(n, stride) <= i || OffGrid(i, at, stride)
  }

  /** What is outside two runs of pixels is outside each of them. */
  lemma OutsideBoth(i: nat, at: nat, m: nat, n: nat, stride: Stride)
    requires IsOutside(i, at, m + n, stride)
    ensures IsOutside(i, at, m, stride) && IsOutside(i, at + Span(m, stride), n, stride)
  {
    if OffGrid(i, at, stride) && i >= at + 2 * m { assert (i - at - 2 * m) % 2 == 1; }
  }

  lemma {:induction false} RowsElsewhere(p: Plane, source: nat, output: bytes, at: nat, width: nat, stride: Stride, rows: nat, i: nat)
    requires i < |output| && IsOutside(i, at, Steps(width, rows), stride)
    ensures RowsCopied(p, source, output, at, width, stride, rows)[i] == output[i]
    decreases rows
  {
    if rows > 0 {
      OutsideBoth(i, at, width, Steps(width, rows - 1), stride);
      RowElsewhere(p, source, output, at, stride, width, i);
      RowsElsewhere(p, source + p.rowStride, RowCopied(p, source, output, at, stride, width),
                    at + Span(width, stride), width, stride, rows - 1, i);
    }
  }

  /** Every pixel of every row lands at its own place and stays there. */
  lemma {:induction false} RowsAt(p: Plane, source: nat, output: bytes, at: nat, width: nat, stride: Stride, rows: nat, r: nat, c: nat)
    requires r < rows && c < width && at + Span(Steps(width, r) + c, stride) < |output|
    ensures RowsCopied(p, source, output, at, width, stride, rows)[at + Span(Steps(width, r) + c, stride)]
         == PixelOr(p, source + Steps(p.rowStride, r) + Steps(p.pixelStride, c), output[at + Span(Steps(width, r) + c, stride)])
    decreases rows
  {
    var i := at + Span(Steps(width, r) + c, stride);
    var row := RowCopied(p, source, output, at, stride, width);
    if r == 0 {
      RowAt(p, source, output, at, stride, width, c);
      RowsElsewhere(p, source + p.rowStride, row, at + Span(width, stride), width, stride, rows - 1, i);
    } else {
      RowsAt(p, source + p.rowStride, row, at + Span(width, stride), width, stride, rows - 1, r - 1, c);
      RowElsewhere(p, source, output, at, stride, width, i);
    }
  }

  /** The output byte of pixel (r, c). */
  function Target(at: nat, width: nat, stride: Stride, r: nat, c: nat): nat {
    at + Span(Steps(width, r) + c, stride)
  }

  /** Every pixel is at its own place. */
  ghost predicate PixelsPlaced(p: Plane, crop: Rect, before: bytes, after: bytes, at: nat, width: nat, stride: Stride, rows: nat)
    requires |before| == |after|
  {
    forall r: nat, c: nat {:trigger Target(at, width, stride, r, c)} ::
      r < rows && c < width && Target(at, width, stride, r, c) < |before| ==>
        after[Target(at, width, stride, r, c)]
          == PixelOr(p, Source(p, crop, r, c), before[Target(at, width, stride, r, c)])
  }

  /** Everything but the pixels is as it was. */
  ghost predicate RestKept(before: bytes, after: bytes, at: nat, end: nat, stride: Stride)
    requires |before| == |after|
  {
    forall i {:trigger after[i]} ::
      0 <= i < |before| && (i < at || end <= i || OffGrid(i, at, stride)) ==> after[i] == before[i]
  }

  ghost predicate PlaneCopied(p: Plane, crop: Rect, before: bytes, after: bytes, at: nat, width: nat, stride: Stride, rows: nat) {
    && |after| == |before|
    && PixelsPlaced(p, crop, before, after, at, width, stride, rows)
    && RestKept(before, after, at, at + Span(Steps(width, rows), stride), stride)
  }

  // ---------------------------------------------------------------------------
  // The copying loops
  // ---------------------------------------------------------------------------

  function Min(a: nat, b: nat): nat {
    if a <= b then a else b
  }

  lemma MulMonotone(k: nat, a: nat, b: nat)
    requires a <= b
    ensures k * a <= k * b && a * k <= b * k
  {
  }

  /** The row buffer holds a pixel exactly when the plane does. */
  lemma PixelAvailable(p: Plane, source: nat, width: nat, col: nat)
    requires source < |p.buffer| && col < width
    ensures var available := Min((width - 1) * p.pixelStride + 1, |p.buffer| - source);
      Steps(p.pixelStride, col) < available <==> source + Steps(p.pixelStride, col) < |p.buffer|
    ensures Steps(p.pixelStride, col + 1) == Steps(p.pixelStride, col) + p.pixelStride
    ensures col * p.pixelStride == Steps(p.pixelStride, col)
  {
    StepsIsProduct(p.pixelStride, col);
    StepsIsProduct(p.pixelStride, width - 1);
    StepsGrow(p.pixelStride, col, width - 1);
  }

  lemma {:induction false} RowBeyondTheEnd(p: Plane, source: nat, output: bytes, at: nat, stride: Stride, n: nat)
    requires |p.buffer| <= source
    ensures RowCopied(p, source, output, at, stride, n) == output
    decreases n
  {
    if n > 0 {
      if at < |output| { assert output[at := output[at]] == output; }
      RowBeyondTheEnd(p, source + p.pixelStride, output, at + stride, stride, n - 1);
    }
  }

  /** Once a row starts beyond the end of the plane, the remaining rows change nothing. */
  lemma {:induction false} RowsBeyondTheEnd(p: Plane, source: nat, output: bytes, at: nat, width: nat, stride: Stride, rows: nat)
    requires |p.buffer| <= source
    ensures RowsCopied(p, source, output, at, width, stride, rows) == output
    decreases rows
  {
    if rows > 0 {
      RowBeyondTheEnd(p, source, output, at, stride, width);
      RowsBeyondTheEnd(p, source + p.rowStride, output, at + Span(width, stride), width, stride, rows - 1);
    }
  }

  /** A block copy of the part of a row that the plane has. */
  method CopyBlock(p: Plane, source: nat, output: array<byte>, at: nat, width: nat)
    requires p.pixelStride == 1 && source < |p.buffer|
    requires at + width <= output.Length && width > 0
    modifies output
    ensures output[..] == RowCopied(p, source, old(output[..]), at, 1, width)
  {
    var n := Min(width, |p.buffer| - source);
    ghost var was := output[..];
    forall i | 0 <= i < n { output[at + i] := p.buffer[source + i]; }
    forall i | 0 <= i < output.Length ensures output[i] == RowCopied(p, source, was, at, 1, width)[i] {
      if at <= i < at + width {
        RowAt(p, source, was, at, 1, width, i - at);
        StepsIsProduct(1, i - at);
      } else {
        RowElsewhere(p, source, was, at, 1, width, i);
      }
    }
  }

  function Max(a: nat, b: nat): nat {
    if a <= b then b else a
  }

  /** How many bytes of a row the plane has, from its first pixel to its last. */
  function Available(p: Plane, source: nat, width: nat): nat
    requires source < |p.buffer| && width > 0
  {
    Min((width - 1) * p.pixelStride + 1, |p.buffer| - source)
  }

  /** The row buffer is large enough for them. */
  predicate RowBufferHolds(p: Plane, source: nat, width: nat)
    requires source < |p.buffer| && width > 0
  {
    Available(p, source, width) <= Max(p.rowStride, width * p.pixelStride)
  }

  /** That is so unless both strides are zero. */
  lemma RowBufferHoldsExactly(p: Plane, source: nat, width: nat)
    requires source < |p.buffer| && width > 0
    ensures RowBufferHolds(p, source, width) <==> p.rowStride > 0 || p.pixelStride > 0
  {
    var k := p.pixelStride;
    assert width * k == (width - 1) * k + k;
    if k == 0 { assert (width - 1) * k == 0 && width * k == 0; }
  }

  /** Copying raises: the plane has a first pixel and the row buffer, as long as the strides ask for, is empty. */
  predicate Raises(p: Plane, width: nat, height: nat) {
    width > 0 && height > 0 && p.buffer != [] && p.rowStride == 0 && p.pixelStride == 0
  }

  /** A pixel-by-pixel copy of a row through a row buffer. */
  method CopyPixels(p: Plane, source: nat, output: array<byte>, at: nat, stride: Stride, width: nat)
    requires source < |p.buffer| && width > 0
    modifies output
    ensures output[..] == RowCopied(p, source, old(output[..]), at, stride, width)
  {
    StepsIsProduct(p.pixelStride, width - 1);
    var available := Available(p, source, width);
    var rowData := p.buffer[source..source + available];
    var offset: nat := at;
    ghost var done := RowCopied(p, source, output[..], at, stride, width);
    ghost var cursor: nat := source;
    for col := 0 to width
      invariant cursor == source + Steps(p.pixelStride, col)
      invariant RowCopied(p, cursor, output[..], offset, stride, width - col) == done
    {
      PixelAvailable(p, source, width, col);
      CopyPixel(p, source, rowData, col * p.pixelStride, output, offset);
      cursor := cursor + p.pixelStride;
      offset := offset + stride;
    }
  }

  method CopyPixel(p: Plane, source: nat, rowData: bytes, index: nat, output: array<byte>, offset: nat)
    requires source + |rowData| <= |p.buffer| && rowData == p.buffer[source..source + |rowData|]
    requires index < |rowData| <==> source + index < |p.buffer|
    modifies output
    ensures output[..] == if offset < output.Length
                          then old(output[..])[offset := PixelOr(p, source + index, old(output[..])[offset])]
                          else old(output[..])
  {
    if index < |rowData| && offset < output.Length {
      output[offset] := rowData[index];
    }
  }

  /** The pixels fit into the output from `at` on. */
  predicate Fits(length: nat, at: nat, width: nat, height: nat, stride: Stride) {
    width > 0 && height > 0 ==> at + Span(Steps(width, height), stride) < length + stride
  }

  method CopyRow(p: Plane, source: nat, output: array<byte>, at: nat, stride: Stride, width: nat)
    requires source < |p.buffer| && width > 0
    requires stride == 1 ==> at + width <= output.Length
    modifies output
    ensures output[..] == RowCopied(p, source, old(output[..]), at, stride, width)
  {
    if p.pixelStride == 1 && stride == 1 {
      CopyBlock(p, source, output, at, width);
    } else {
      CopyPixels(p, source, output, at, stride, width);
    }
  }

  lemma {:induction false} StepsGrow(k: nat, m: nat, n: nat)
    requires m <= n
    ensures Steps(k, m) <= Steps(k, n)
    decreases n - m
  {
    if m < n { StepsGrow(k, m, n - 1); }
  }

  lemma {:induction false} NothingToCopy(p: Plane, source: nat, output: bytes, at: nat, width: nat, stride: Stride, rows: nat)
    requires width == 0 || rows == 0
    ensures RowsCopied(p, source, output, at, width, stride, rows) == output
    decreases rows
  {
    if rows > 0 { NothingToCopy(p, source + p.rowStride, output, at, width, stride, rows - 1); }
  }

  lemma {:induction false} StepsAdd(k: nat, m: nat, n: nat)
    ensures Steps(k, m + n) == Steps(k, m) + Steps(k, n)
  {
    if m > 0 { StepsAdd(k, m - 1, n); }
  }

  lemma RowsCopiedIsPlaneCopied(p: Plane, crop: Rect, output: bytes, at: nat, width: nat, stride: Stride, rows: nat)
    ensures PlaneCopied(p, crop, output, RowsCopied(p, Source(p, crop, 0, 0), output, at, width, stride, rows), at, width, stride, rows)
  {
    var after := RowsCopied(p, Source(p, crop, 0, 0), output, at, width, stride, rows);
    forall r: nat, c: nat | r < rows && c < width && Target(at, width, stride, r, c) < |output|
      ensures after[Target(at, width, stride, r, c)]
           == PixelOr(p, Source(p, crop, r, c), output[Target(at, width, stride, r, c)])
    {
      RowsAt(p, Source(p, crop, 0, 0), output, at, width, stride, rows, r, c);
      StepsAdd(p.rowStride, crop.top, r);
      StepsAdd(p.pixelStride, crop.left, c);
    }
    forall i | 0 <= i < |output| && (i < at || at + Span(Steps(width, rows), stride) <= i || OffGrid(i, at, stride))
      ensures after[i] == output[i]
    {
      RowsElsewhere(p, Source(p, crop, 0, 0), output, at, width, stride, rows, i);
    }
  }

  method CopyPlane(p: Plane, crop: Rect, width: nat, height: nat, output: array<byte>, at: nat, stride: Stride) returns (ok: bool)
    requires Fits(output.Length, at, width, height, stride)
    modifies output
    ensures ok <==> !Raises(p, width, height)
    ensures ok ==> output[..] == RowsCopied(p, Source(p, crop, 0, 0), old(output[..]), at, width, stride, height)
  {
    if width <= 0 || height <= 0 {
      NothingToCopy(p, Source(p, crop, 0, 0), output[..], at, width, stride, height);
      return true;
    }
    ok := CopyAllRows(p, crop, width, height, output, at, stride);
  }

  method CopyAllRows(p: Plane, crop: Rect, width: nat, height: nat, output: array<byte>, at: nat, stride: Stride) returns (ok: bool)
    requires Fits(output.Length, at, width, height, stride) && width > 0 && height > 0
    modifies output
    ensures ok <==> !Raises(p, width, height)
    ensures ok ==> output[..] == RowsCopied(p, Source(p, crop, 0, 0), old(output[..]), at, width, stride, height)
  {
    var offset: nat := at;
    ghost var done := RowsCopied(p, Source(p, crop, 0, 0), output[..], at, width, stride, height);
    for row := 0 to height
      invariant offset == RowOffset(at, width, stride, row)
      invariant row > 0 ==> !Raises(p, width, height)
      invariant RowsCopied(p, Source(p, crop, row, 0), output[..], offset, width, stride, height - row) == done
    {
      RowFits(output.Length, at, width, height, stride, row);
      var end := CopyNextRow(p, crop, row, output, offset, stride, width, height - row);
      if end == PastTheEnd { return true; }
      if end == NoRowBuffer { return false; }
      NextRowOffset(at, width, stride, row);
      offset := offset + Span(width, stride);
    }
    return true;
  }

  /** Where a row starts in the output. */
  function RowOffset(at: nat, width: nat, stride: Stride, row: nat): nat {
    at + Span(Steps(width, row), stride)
  }

  lemma NextRowOffset(at: nat, width: nat, stride: Stride, row: nat)
    ensures RowOffset(at, width, stride, row + 1) == RowOffset(at, width, stride, row) + Span(width, stride)
  {
    assert Steps(width, row + 1) == width + Steps(width, row);
  }

  method StartOfRow(p: Plane, crop: Rect, row: nat) returns (rowStart: nat)
    ensures rowStart == Source(p, crop, row, 0)
    ensures p.rowStride == 0 && p.pixelStride == 0 ==> rowStart == 0
  {
    SourceIsProduct(p, crop, row, 0);
    rowStart := p.rowStride * (crop.top + row) + p.pixelStride * crop.left;
  }

  /** Whether the row buffer holds a row; the plane's bytes do not fit only when it has no stride. */
  method CheckRowBuffer(p: Plane, source: nat, width: nat) returns (holds: bool)
    requires source < |p.buffer| && width > 0
    ensures holds <==> p.rowStride > 0 || p.pixelStride > 0
  {
    RowBufferHoldsExactly(p, source, width);
    holds := RowBufferHolds(p, source, width);
  }

  lemma RowFits(length: nat, at: nat, width: nat, height: nat, stride: Stride, row: nat)
    requires Fits(length, at, width, height, stride) && width > 0 && row < height
    ensures stride == 1 ==> RowOffset(at, width, stride, row) + width <= length
  {
    StepsGrow(width, row + 1, height);
  }

  /** How a turn of the row loop ends: with its row, at the end of the plane, or with an exception. */
  datatype RowEnd = Copied | PastTheEnd | NoRowBuffer

  method CopyNextRow(p: Plane, crop: Rect, row: nat, output: array<byte>, offset: nat, stride: Stride, width: nat, ghost rows: nat)
    returns (end: RowEnd)
    requires width > 0 && rows > 0
    requires stride == 1 ==> offset + width <= output.Length
    modifies output
    ensures end == NoRowBuffer <==> Raises(p, width, rows)
    ensures end == PastTheEnd ==>
              output[..] == RowsCopied(p, Source(p, crop, row, 0), old(output[..]), offset, width, stride, rows)
    ensures end == Copied ==>
              RowsCopied(p, Source(p, crop, row, 0), old(output[..]), offset, width, stride, rows)
              == RowsCopied(p, Source(p, crop, row + 1, 0), output[..], offset + Span(width, stride), width, stride, rows - 1)
  {
    var rowStart := StartOfRow(p, crop, row);
    if rowStart >= |p.buffer| {
      RowsBeyondTheEnd(p, rowStart, output[..], offset, width, stride, rows);
      return PastTheEnd;
    }
    var holds := CheckRowBuffer(p, rowStart, width);
    if !(p.pixelStride == 1 && stride == 1) && !holds { return NoRowBuffer; }
    CopyRow(p, rowStart, output, offset, stride, width);
    return Copied;
  }

  // ---------------------------------------------------------------------------
  // The whole image
  // ---------------------------------------------------------------------------

  function ChromaCrop(crop: Rect): Rect {
    Rect(crop.left / 2, crop.top / 2, crop.right / 2, crop.bottom / 2)
  }

  ghost predicate LumaRight(y: Plane, crop: Rect, width: nat, height: nat, output: bytes) {
    forall r: nat, c: nat {:trigger Target(0, width, 1, r, c)} :: r < height && c < width ==>
      && Target(0, width, 1, r, c) < |output|
      && output[Target(0, width, 1, r, c)] == PixelOr(y, Source(y, crop, r, c), 0)
  }

  /** Behind the `area` bytes of luma, the V sample of each chroma pixel and then its U sample. */
  ghost predicate ChromaRight(u: Plane, v: Plane, crop: Rect, area: nat, width: nat, rows: nat, output: bytes) {
    forall r: nat, c: nat {:trigger Target(area, width, 2, r, c)} :: r < rows && c < width ==>
      && Target(area, width, 2, r, c) + 1 < |output|
      && output[Target(area, width, 2, r, c)] == PixelOr(v, Source(v, crop, r, c), NEUTRAL)
      && output[Target(area, width, 2, r, c) + 1] == PixelOr(u, Source(u, crop, r, c), NEUTRAL)
  }

  ghost predicate NeutralFrom(end: nat, output: bytes) {
    forall i :: end <= i < |output| ==> output[i] == NEUTRAL
  }

  /** What the converted image is, byte by byte. */
  ghost predicate IsNv21(y: Plane, u: Plane, v: Plane, crop: Rect, width: nat, height: nat, output: bytes) {
    && |output| == width * height * 3 / 2
    && LumaRight(y, crop, width, height, output)
    && ChromaRight(u, v, ChromaCrop(crop), Steps(width, height), width / 2, height / 2, output)
    && NeutralFrom(Target(Steps(width, height), width / 2, 2, height / 2, 0), output)
  }

  /** A sample of a plane, by the strides, or what stands in for it when the plane ends before it. */
  function SampleOr(p: Plane, row: nat, column: nat, missing: byte): byte {
    var i := p.rowStride * row + p.pixelStride * column;
    if i < |p.buffer| then p.buffer[i] else missing
  }

  /** Luma, in the numbers of the format: one byte for each pixel of the crop, row by row. */
  lemma LumaOfFormat(y: Plane, u: Plane, v: Plane, crop: Rect, width: nat, height: nat, output: bytes, r: nat, c: nat)
    requires IsNv21(y, u, v, crop, width, height, output) && r < height && c < width
    ensures 0 <= width * r + c < |output|
    ensures output[width * r + c] == SampleOr(y, crop.top + r, crop.left + c, 0)
  {
    StepsIsProduct(width, r);
    assert Target(0, width, 1, r, c) == width * r + c;
    SourceIsProduct(y, crop, r, c);
  }

  /**
    Chroma, in the numbers of the format: behind the luma, for each pixel of half the
    resolution, its V sample and then its U sample, from half the crop's corner on.
   */
  lemma ChromaOfFormat(y: Plane, u: Plane, v: Plane, crop: Rect, width: nat, height: nat, output: bytes, r: nat, c: nat)
    requires IsNv21(y, u, v, crop, width, height, output) && r < height / 2 && c < width / 2
    ensures var i := width * height + 2 * (width / 2 * r + c);
      && 0 <= i && i + 1 < |output|
      && output[i] == SampleOr(v, crop.top / 2 + r, crop.left / 2 + c, 128)
      && output[i + 1] == SampleOr(u, crop.top / 2 + r, crop.left / 2 + c, 128)
  {
    ChromaTarget(width, height, width / 2, r, c);
    SourceIsProduct(v, ChromaCrop(crop), r, c);
    SourceIsProduct(u, ChromaCrop(crop), r, c);
  }

  lemma ChromaTarget(width: nat, height: nat, chromaWidth: nat, r: nat, c: nat)
    ensures Target(Steps(width, height), chromaWidth, 2, r, c) == width * height + 2 * (chromaWidth * r + c)
  {
    StepsIsProduct(width, height);
    StepsIsProduct(chromaWidth, r);
  }

  /** What is left over behind the chroma, in the numbers of the format. */
  lemma LeftoverOfFormat(y: Plane, u: Plane, v: Plane, crop: Rect, width: nat, height: nat, output: bytes, i: nat)
    requires IsNv21(y, u, v, crop, width, height, output)
    ensures |output| == width * height * 3 / 2
    ensures width * height + 2 * (width / 2 * (height / 2)) <= i < |output| ==> output[i] == 128
  {
    StepsIsProduct(width, height);
    StepsIsProduct(width / 2, height / 2);
  }

  /** The output before anything is copied into it. */
  ghost predicate IsBlank(width: nat, height: nat, output: bytes) {
    && |output| == width * height * 3 / 2
    && forall i :: 0 <= i < |output| ==> output[i] == if i < width * height then 0 else NEUTRAL
  }

  /** The luma plane and the chroma samples behind it fit. */
  predicate HasRoom(width: nat, height: nat, length: nat) {
    Steps(width, height) + 2 * Steps(width / 2, height / 2) <= length
  }

  lemma Quadruple(w: nat, h: nat)
    ensures (2 * w) * (2 * h) == 4 * (w * h)
  {
  }

  lemma QuarterArea(width: nat, height: nat, w: nat, h: nat)
    requires 2 * w <= width && 2 * h <= height
    ensures 4 * (w * h) <= width * height
  {
    Quadruple(w, h);
    MulMonotone(2 * w, 2 * h, height);
    MulMonotone(height, 2 * w, width);
  }

  lemma OutputHasRoom(width: nat, height: nat)
    ensures HasRoom(width, height, width * height * 3 / 2)
    ensures Steps(width, height) == width * height
  {
    StepsIsProduct(width, height);
    StepsIsProduct(width / 2, height / 2);
    QuarterArea(width, height, width / 2, height / 2);
  }

  lemma SourceIsProduct(p: Plane, crop: Rect, r: nat, c: nat)
    ensures Source(p, crop, r, c) == p.rowStride * (crop.top + r) + p.pixelStride * (crop.left + c)
  {
    StepsIsProduct(p.rowStride, crop.top + r);
    StepsIsProduct(p.pixelStride, crop.left + c);
  }

  /** The places of luma and chroma samples, as the products that the format defines. */
  lemma {:induction false} PlacesAreProducts(width: nat, height: nat, r: nat, c: nat)
    ensures Target(0, width, 1, r, c) == r * width + c
    ensures Target(Steps(width, height), width / 2, 2, r, c) == width * height + 2 * (r * (width / 2) + c)
  {
    StepsIsProduct(width, r);
    StepsIsProduct(width / 2, r);
    StepsIsProduct(width, height);
  }

  lemma InSteps(width: nat, rows: nat, r: nat, c: nat)
    requires r < rows && c < width
    ensures Steps(width, r) + c < Steps(width, rows)
  {
    StepsGrow(width, r + 1, rows);
  }

  /** A luma byte survives the chroma copies. */
  lemma LumaByte(y: Plane, crop: Rect, width: nat, height: nat, area: nat, end: nat,
                 blank: bytes, luma: bytes, withV: bytes, output: bytes, r: nat, c: nat)
    requires |blank| == |luma| == |withV| == |output| && Steps(width, height) <= area <= |blank|
    requires r < height && c < width
    requires PixelsPlaced(y, crop, blank, luma, 0, width, 1, height)
    requires RestKept(luma, withV, area, end, 2) && RestKept(withV, output, area + 1, end + 1, 2)
    ensures var i := Target(0, width, 1, r, c);
      i < area && output[i] == PixelOr(y, Source(y, crop, r, c), blank[i])
  {
    InSteps(width, height, r, c);
    var i := Target(0, width, 1, r, c);
    assert output[i] == withV[i] == luma[i];
  }

  /** The V copy, then the U copy, leave both samples of a pixel in place. */
  lemma ChromaBytes(u: Plane, v: Plane, crop: Rect, width: nat, rows: nat, area: nat, end: nat,
                    blank: bytes, luma: bytes, withV: bytes, output: bytes, r: nat, c: nat)
    requires |blank| == |luma| == |withV| == |output| && area + 2 * Steps(width, rows) <= |blank|
    requires r < rows && c < width
    requires RestKept(blank, luma, 0, area, 1)
    requires PixelsPlaced(v, crop, luma, withV, area, width, 2, rows) && RestKept(luma, withV, area, end, 2)
    requires PixelsPlaced(u, crop, withV, output, area + 1, width, 2, rows) && RestKept(withV, output, area + 1, end + 1, 2)
    ensures var i := Target(area, width, 2, r, c);
      && i + 1 < |blank|
      && output[i] == PixelOr(v, Source(v, crop, r, c), blank[i])
      && output[i + 1] == PixelOr(u, Source(u, crop, r, c), blank[i + 1])
  {
    ChromaPlaces(area, width, rows, r, c);
    var i := Target(area, width, 2, r, c);
    assert luma[i] == blank[i] && luma[i + 1] == blank[i + 1] by { assert RestKept(blank, luma, 0, area, 1); }
    assert withV[i] == PixelOr(v, Source(v, crop, r, c), luma[i]) && withV[i + 1] == luma[i + 1] by {
      assert PixelsPlaced(v, crop, luma, withV, area, width, 2, rows) && RestKept(luma, withV, area, end, 2);
    }
    assert output[i] == withV[i] by { assert RestKept(withV, output, area + 1, end + 1, 2); }
    assert output[i + 1] == PixelOr(u, Source(u, crop, r, c), withV[i + 1]) by {
      assert PixelsPlaced(u, crop, withV, output, area + 1, width, 2, rows);
      assert Target(area + 1, width, 2, r, c) == i + 1;
    }
  }

  /** Where the V sample of a pixel is, and its U sample behind it, off the grid of the other. */
  lemma ChromaPlaces(area: nat, width: nat, rows: nat, r: nat, c: nat)
    requires r < rows && c < width
    ensures var i := Target(area, width, 2, r, c);
      && area <= i && i + 1 < area + 2 * Steps(width, rows)
      && Target(area + 1, width, 2, r, c) == i + 1
      && OffGrid(i + 1, area, 2) && (i < area + 1 || OffGrid(i, area + 1, 2))
  {
    InSteps(width, rows, r, c);
    var k := Steps(width, r) + c;
    assert Target(area, width, 2, r, c) == area + 2 * k;
    assert k > 0 ==> (2 * k - 1) % 2 == 1;
  }

  lemma AllLuma(y: Plane, crop: Rect, width: nat, height: nat, area: nat, end: nat,
                blank: bytes, luma: bytes, withV: bytes, output: bytes)
    requires |blank| == |luma| == |withV| == |output| && Steps(width, height) <= area <= |blank|
    requires forall i :: 0 <= i < area ==> blank[i] == 0
    requires PixelsPlaced(y, crop, blank, luma, 0, width, 1, height)
    requires RestKept(luma, withV, area, end, 2) && RestKept(withV, output, area + 1, end + 1, 2)
    ensures LumaRight(y, crop, width, height, output)
  {
    forall r: nat, c: nat | r < height && c < width
      ensures Target(0, width, 1, r, c) < |output|
      ensures output[Target(0, width, 1, r, c)] == PixelOr(y, Source(y, crop, r, c), 0)
    {
      LumaByte(y, crop, width, height, area, end, blank, luma, withV, output, r, c);
    }
  }

  lemma AllChroma(u: Plane, v: Plane, crop: Rect, width: nat, rows: nat, area: nat, end: nat,
                  blank: bytes, luma: bytes, withV: bytes, output: bytes)
    requires |blank| == |luma| == |withV| == |output| && area + 2 * Steps(width, rows) <= |blank|
    requires NeutralFrom(area, blank)
    requires RestKept(blank, luma, 0, area, 1)
    requires PixelsPlaced(v, crop, luma, withV, area, width, 2, rows) && RestKept(luma, withV, area, end, 2)
    requires PixelsPlaced(u, crop, withV, output, area + 1, width, 2, rows) && RestKept(withV, output, area + 1, end + 1, 2)
    ensures ChromaRight(u, v, crop, area, width, rows, output)
  {
    forall r: nat, c: nat | r < rows && c < width
      ensures Target(area, width, 2, r, c) + 1 < |output|
      ensures output[Target(area, width, 2, r, c)] == PixelOr(v, Source(v, crop, r, c), NEUTRAL)
      ensures output[Target(area, width, 2, r, c) + 1] == PixelOr(u, Source(u, crop, r, c), NEUTRAL)
    {
      ChromaBytes(u, v, crop, width, rows, area, end, blank, luma, withV, output, r, c);
    }
  }

  lemma AllLeftover(area: nat, samples: nat, blank: bytes, luma: bytes, withV: bytes, output: bytes)
    requires |blank| == |luma| == |withV| == |output|
    requires NeutralFrom(area, blank)
    requires RestKept(blank, luma, 0, area, 1)
    requires RestKept(luma, withV, area, area + 2 * samples, 2)
    requires RestKept(withV, output, area + 1, area + 1 + 2 * samples, 2)
    ensures NeutralFrom(area + 2 * samples, output)
  {
    forall i | area + 2 * samples <= i < |output| ensures output[i] == NEUTRAL {
      assert i == area || i > area + 2 * samples || OffGrid(i, area + 1, 2);
      assert output[i] == withV[i] == luma[i] == blank[i];
    }
  }

  /** The three copies together make an NV21 image. */
  lemma {:induction false} CopiesMakeNv21(y: Plane, u: Plane, v: Plane, crop: Rect, width: nat, height: nat,
                       blank: bytes, luma: bytes, withV: bytes, output: bytes)
    requires IsBlank(width, height, blank)
    requires PlaneCopied(y, crop, blank, luma, 0, width, 1, height)
    requires PlaneCopied(v, ChromaCrop(crop), luma, withV, Steps(width, height), width / 2, 2, height / 2)
    requires PlaneCopied(u, ChromaCrop(crop), withV, output, Steps(width, height) + 1, width / 2, 2, height / 2)
    ensures IsNv21(y, u, v, crop, width, height, output)
  {
    OutputHasRoom(width, height);
    var area := Steps(width, height);
    var samples := Steps(width / 2, height / 2);
    AllLuma(y, crop, width, height, area, area + 2 * samples, blank, luma, withV, output);
    AllChroma(u, v, ChromaCrop(crop), width / 2, height / 2, area, area + 2 * samples, blank, luma, withV, output);
    AllLeftover(area, samples, blank, luma, withV, output);
  }

  lemma AreaWithin(width: nat, height: nat)
    ensures width * height <= width * height * 3 / 2
  {
    StepsIsProduct(width, height);
  }

  method NewOutput(width: nat, height: nat) returns (output: array<byte>)
    ensures fresh(output) && IsBlank(width, height, output[..])
  {
    AreaWithin(width, height);
    output := new byte[width * height * 3 / 2](_ => 0);
    forall i | width * height <= i < output.Length { output[i] := NEUTRAL; }
  }

  /**
    Converts an image of any strides, crop and size, from planes of any length: luma row
    by row, then V and U samples in turn, and the neutral byte wherever a chroma sample or
    its plane is missing.  No write is out of bounds and none overwrites another.  It
    raises exactly for a plane that is not empty and has no stride at all.
   */
  method Yuv420888ToNv21(y: Plane, u: Plane, v: Plane, crop: Rect, width: nat, height: nat)
    returns (ok: bool, output: array<byte>)
    ensures fresh(output)
    ensures ok <==> !Raises(y, width, height) && !Raises(v, width / 2, height / 2) && !Raises(u, width / 2, height / 2)
    ensures ok ==> IsNv21(y, u, v, crop, width, height, output[..])
  {
    output := NewOutput(width, height);
    ghost var blank := output[..];
    OutputHasRoom(width, height);
    var area := width * height;
    RowsCopiedIsPlaneCopied(y, crop, blank, 0, width, 1, height);
    ok := CopyPlane(y, crop, width, height, output, 0, 1);
    if !ok { return; }
    ghost var luma := output[..];
    RowsCopiedIsPlaneCopied(v, ChromaCrop(crop), luma, area, width / 2, 2, height / 2);
    ok := CopyPlane(v, ChromaCrop(crop), width / 2, height / 2, output, area, 2);
    if !ok { return; }
    ghost var withV := output[..];
    RowsCopiedIsPlaneCopied(u, ChromaCrop(crop), withV, area + 1, width / 2, 2, height / 2);
    ok := CopyPlane(u, ChromaCrop(crop), width / 2, height / 2, output, area + 1, 2);
    if !ok { return; }
    CopiesMakeNv21(y, u, v, crop, width, height, blank, luma, withV, output[..]);
  }
}
