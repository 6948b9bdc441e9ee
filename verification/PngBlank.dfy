/** png_is_blank_white: a sampled test for near-white screenshots. */
module PngBlank {
  import opened Basics
  import opened PngReader

  const WHITE: int := 248
  const SPREAD: int := 3
  const SAMPLES: nat := 50000
  const MIN_SIDE: nat := 16

  /** Bytes per pixel, for the colour types the test knows. */
  predicate IsStride(stride: nat) {
    stride == 1 || stride == 3 || stride == 4
  }

  /** How far apart the samples are. */
  function SampleStep(length: nat, stride: nat): (step: nat)
    requires stride > 0
    ensures step >= stride
  {
    var step := length / SAMPLES / stride * stride;
    if step > stride then step else stride
  }

  /** How many samples there are: sample n starts at n * step and must fit. */
  function SampleCount(length: nat, stride: nat): nat
    requires stride > 0
  {
    if length < stride then 0 else (length - stride) / SampleStep(length, stride) + 1
  }

  /** Which of a pixel's bytes each of the three looked-at channels is. */
  function Offset(stride: nat, channel: nat): nat
    requires channel < 3
  {
    if stride == 1 then 0 else channel
  }

  // ----- arithmetic of the sampling -----

  lemma Multiply(a: int, b: int, m: nat)
    requires a < b
    ensures a * m + m <= b * m
  {
    assert (b - a - 1) * m >= 0;
    assert b * m == a * m + m + (b - a - 1) * m;
  }

  lemma DivBounds(a: nat, m: nat)
    requires m > 0
    ensures a / m * m <= a < a / m * m + m
  {
    assert a == m * (a / m) + a % m;
  }

  /** Sample n fits exactly when it is one of the first SampleCount. */
  lemma SampleFits(length: nat, stride: nat, n: nat)
    requires stride > 0
    ensures n * SampleStep(length, stride) + stride <= length <==> n < SampleCount(length, stride)
  {
    var step := SampleStep(length, stride);
    if length >= stride {
      var q := (length - stride) / step;
      DivBounds(length - stride, step);
      if n <= q {
        if n < q {
          Multiply(n, q, step);
        }
      } else {
        Multiply(q, n, step);
      }
    }
  }

  lemma ProductMod(n: nat, m: nat)
    requires m > 0
    ensures (n * m) % m == 0
  {
    DivBounds(n * m, m);
    var q := n * m / m;
    if n < q {
      Multiply(n, q, m);
    } else if q < n {
      Multiply(q, n, m);
    }
  }

  /** Every sample starts at a pixel. */
  lemma SamplesAreAligned(length: nat, stride: nat, n: nat)
    requires stride > 0
    ensures (n * SampleStep(length, stride)) % stride == 0
  {
    var k := length / SAMPLES / stride;
    var step := SampleStep(length, stride);
    if step == stride {
      ProductMod(n, stride);
    } else {
      assert n * (k * stride) == n * k * stride;
      ProductMod(n * k, stride);
    }
  }

  /** At most 100000 pixels are looked at, whatever the size of the image. */
  lemma AtMostLimit(length: nat, stride: nat)
    requires IsStride(stride)
    ensures SampleCount(length, stride) <= 100000
  {
    if length >= stride {
      var q := length / SAMPLES;
      var k := q / stride;
      var step := SampleStep(length, stride);
      DivBounds(length, SAMPLES);
      DivBounds(q, stride);
      assert 2 * step > q;
      assert length < 100000 * step;
      if SampleCount(length, stride) > 100000 {
        SampleFits(length, stride, 100000);
      }
    }
  }

  /** ... and at least half as many of an image that is not read whole. */
  lemma AtLeastHalf(length: nat, stride: nat)
    requires IsStride(stride) && length / stride >= 100000
    ensures SampleCount(length, stride) >= 50000
  {
    DivBounds(length, stride);
    var step := SampleStep(length, stride);
    DivBounds(length / SAMPLES, stride);
    DivBounds(length, SAMPLES);
    assert step * 50000 <= length;
    SampleFits(length, stride, 49999);
  }

  /** Data of fewer than 100000 whole pixels is looked at pixel by pixel. */
  lemma SmallImagesAreReadWhole(length: nat, stride: nat)
    requires IsStride(stride) && length / stride < 100000
    ensures SampleStep(length, stride) == stride && SampleCount(length, stride) == length / stride
  {
    var pixels := length / stride;
    var q := length / SAMPLES;
    DivBounds(length, SAMPLES);
    DivBounds(length, stride);
    DivBounds(q, stride);
    assert q < 2 * stride;
    var k := q / stride;
    if k >= 2 {
      Multiply(1, k, stride);
    }
    SampleFits(length, stride, pixels);
    if pixels > 0 {
      SampleFits(length, stride, pixels - 1);
    }
  }

  // ----- the test -----

  /** Channel c of sample n. */
  function ValueAt(raw: seq<Byte>, stride: nat, n: nat, c: nat): int
    requires IsStride(stride) && n < SampleCount(|raw|, stride) && c < 3
  {
    SampleFits(|raw|, stride, n);
    raw[n * SampleStep(|raw|, stride) + Offset(stride, c)]
  }

  /** The first count samples are all near white and near one another. */
  ghost predicate NearWhite(raw: seq<Byte>, stride: nat, count: nat)
    requires IsStride(stride) && count <= SampleCount(|raw|, stride)
  {
    && (forall n, c :: 0 <= n < count && 0 <= c < 3 ==> ValueAt(raw, stride, n, c) >= 248)
    && (forall n, c, m, d :: 0 <= n < count && 0 <= c < 3 && 0 <= m < count && 0 <= d < 3
          ==> ValueAt(raw, stride, n, c) - ValueAt(raw, stride, m, d) <= 3)
  }

  /** low and high bound the first count samples and are attained there. */
  ghost predicate Extremes(raw: seq<Byte>, stride: nat, count: nat, low: int, high: int)
    requires IsStride(stride) && count <= SampleCount(|raw|, stride)
  {
    && (forall n, c :: 0 <= n < count && 0 <= c < 3 ==> low <= ValueAt(raw, stride, n, c) <= high)
    && (count == 0 ==> low == 255 && high == 0)
    && (count > 0 ==>
          && (exists n, c :: 0 <= n < count && 0 <= c < 3 && low == ValueAt(raw, stride, n, c))
          && (exists n, c :: 0 <= n < count && 0 <= c < 3 && high == ValueAt(raw, stride, n, c)))
  }

  lemma ExtremesDecide(raw: seq<Byte>, stride: nat, count: nat, low: int, high: int)
    requires IsStride(stride) && count <= SampleCount(|raw|, stride) && Extremes(raw, stride, count, low, high)
    ensures NearWhite(raw, stride, count) <==> low >= 248 && high - low <= 3
  {
    hide ValueAt;
  }

  lemma NearWhiteShrinks(raw: seq<Byte>, stride: nat, count: nat, more: nat)
    requires IsStride(stride) && count <= more <= SampleCount(|raw|, stride) && NearWhite(raw, stride, more)
    ensures NearWhite(raw, stride, count)
  {
    hide ValueAt;
  }

  /** One more sample, whose three values move the extremes. */
  lemma ExtremesGrow(raw: seq<Byte>, stride: nat, count: nat, low: int, high: int, low': int, high': int)
    requires IsStride(stride) && count < SampleCount(|raw|, stride) && Extremes(raw, stride, count, low, high)
    requires 0 <= low' && high' <= 255
    requires var a, b := ValueAt(raw, stride, count, 0), ValueAt(raw, stride, count, 1);
      var c := ValueAt(raw, stride, count, 2);
      low' == Min(Min(Min(low, a), b), c) && high' == Max(Max(Max(high, a), b), c)
    ensures Extremes(raw, stride, count + 1, low', high')
  {
    assert 0 <= ValueAt(raw, stride, count, 0) <= 255;
    hide ValueAt;
  }

  function Max(a: int, b: int): int {
    if a >= b then a else b
  }

  /** An image of a known colour type, large enough, with data, whose samples are all near white. */
  ghost predicate LooksBlank(image: Option<Image>) {
    && image.Some? && image.value.width >= 16 && image.value.height >= 16 && image.value.raw != []
    && image.value.colorType in {0, 2, 6}
    && NearWhite(image.value.raw, PixelSize(image.value.colorType),
                 SampleCount(|image.value.raw|, PixelSize(image.value.colorType)))
  }

  /** png_is_blank_white, from what the reader returned. */
  method PngIsBlankWhite(image: Option<Image>) returns (blank: bool)
    ensures blank <==> LooksBlank(image)
  {
    if image.None? || image.value.width < MIN_SIDE || image.value.height < MIN_SIDE {
      return false;
    }
    var Image(_, _, colorType, raw) := image.value;
    if !(colorType == 0 || colorType == 2 || colorType == 6) || raw == [] {
      return false;
    }
    var stride := Channels(colorType);
    assert stride == PixelSize(colorType);
    blank := SamplesNearWhite(raw, stride);
  }

  /** The inner loop over the colour channels of one pixel. */
  method Widened(raw: seq<Byte>, stride: nat, index: nat, low: int, high: int,
                 ghost n: nat) returns (low': int, high': int)
    requires IsStride(stride) && n < SampleCount(|raw|, stride) && index == n * SampleStep(|raw|, stride)
    requires index + stride <= |raw| && 0 <= low && high <= 255
    requires Extremes(raw, stride, n, low, high)
    ensures Extremes(raw, stride, n + 1, low', high') && 0 <= low' && high' <= 255
  {
    ghost var at := (c: nat) requires c < 3 => ValueAt(raw, stride, n, c);
    low', high' := low, high;
    for channel: nat := 0 to 3
      invariant 0 <= low' && high' <= 255
      invariant channel == 0 ==> low' == low && high' == high
      invariant channel == 1 ==> low' == Min(low, at(0)) && high' == Max(high, at(0))
      invariant channel == 2 ==> low' == Min(Min(low, at(0)), at(1)) && high' == Max(Max(high, at(0)), at(1))
      invariant channel == 3 ==> low' == Min(Min(Min(low, at(0)), at(1)), at(2))
      invariant channel == 3 ==> high' == Max(Max(Max(high, at(0)), at(1)), at(2))
    {
      var value := raw[index + Offset(stride, channel)];
      low' := Min(low', value);
      high' := Max(high', value);
    }
    ExtremesGrow(raw, stride, n, low, high, low', high');
  }

  /** The sampling loop. */
  method SamplesNearWhite(raw: seq<Byte>, stride: nat) returns (near: bool)
    requires IsStride(stride)
    ensures near <==> NearWhite(raw, stride, SampleCount(|raw|, stride))
  {
    var low, high := 255, 0;
    var step := SampleStep(|raw|, stride);
    var index := 0;
    ghost var n: nat := 0;
    ghost var count := SampleCount(|raw|, stride);
    SampleFits(|raw|, stride, 0);
    assert Extremes(raw, stride, 0, 255, 0);
    hide SampleStep, SampleCount, Extremes, NearWhite;
    while index < |raw| && index + stride <= |raw|
      invariant n <= count && index == n * step
      invariant Extremes(raw, stride, n, low, high) && 0 <= low && high <= 255
      invariant low >= WHITE && high - low <= SPREAD
      decreases |raw| - index
    {
      SampleFits(|raw|, stride, n);
      low, high := Widened(raw, stride, index, low, high, n);
      ExtremesDecide(raw, stride, n + 1, low, high);
      if low < WHITE || high - low > SPREAD {
        if NearWhite(raw, stride, count) {
          NearWhiteShrinks(raw, stride, n + 1, count);
        }
        return false;
      }
      index := index + step;
      n := n + 1;
    }
    SampleFits(|raw|, stride, n);
    ExtremesDecide(raw, stride, n, low, high);
    return low >= WHITE;
  }

  // ----- the test and the pixels -----

  function ColourOf(raw: seq<Byte>, stride: nat, p: nat, c: nat): int
    requires IsStride(stride) && p < |raw| / stride && c < 3
  {
    DivBounds(|raw|, stride);
    Multiply(p, |raw| / stride, stride);
    raw[p * stride + (if stride == 1 then 0 else c)]
  }

  /** Every colour value of every whole pixel, near white and near every other. */
  ghost predicate EveryPixelNearWhite(raw: seq<Byte>, stride: nat)
    requires IsStride(stride)
  {
    var pixels := |raw| / stride;
    && (forall p, c :: 0 <= p < pixels && 0 <= c < 3 ==> ColourOf(raw, stride, p, c) >= 248)
    && (forall p, c, q, d :: 0 <= p < pixels && 0 <= c < 3 && 0 <= q < pixels && 0 <= d < 3
          ==> ColourOf(raw, stride, p, c) - ColourOf(raw, stride, q, d) <= 3)
  }

  /**
   For data of fewer than 100000 whole pixels the sampled test is the full one: all colour values of all
   whole pixels are at least 248 and differ by at most 3.
  */
  lemma SmallImageVerdict(raw: seq<Byte>, stride: nat)
    requires IsStride(stride) && |raw| / stride < 100000
    ensures SampleCount(|raw|, stride) == |raw| / stride
    ensures NearWhite(raw, stride, SampleCount(|raw|, stride)) <==> EveryPixelNearWhite(raw, stride)
  {
    SmallImagesAreReadWhole(|raw|, stride);
    assert forall n: nat, c: nat :: n < |raw| / stride && c < 3 ==>
      ValueAt(raw, stride, n, c) == ColourOf(raw, stride, n, c);
    hide ValueAt, ColourOf, SampleCount, SampleStep;
  }

  /** Sample n is a whole pixel. */
  lemma SampleIsPixel(raw: seq<Byte>, stride: nat, n: nat, c: nat) returns (p: nat)
    requires IsStride(stride) && n < SampleCount(|raw|, stride) && c < 3
    ensures p < |raw| / stride && ValueAt(raw, stride, n, c) == ColourOf(raw, stride, p, c)
  {
    var at := n * SampleStep(|raw|, stride);
    p := at / stride;
    SamplesAreAligned(|raw|, stride, n);
    SampleFits(|raw|, stride, n);
    hide SampleStep, SampleCount;
    PixelAt(at, |raw|, stride);
  }

  /** An aligned place with room for a pixel is a pixel. */
  lemma PixelAt(at: nat, length: nat, stride: nat)
    requires stride > 0 && at % stride == 0 && at + stride <= length
    ensures at == at / stride * stride && at / stride < length / stride
  {
    DivBounds(at, stride);
    DivBounds(length, stride);
    if at / stride > length / stride {
      Multiply(length / stride, at / stride, stride);
    }
  }

  /** For data of any size the sampled test never turns down an image whose every pixel is near white. */
  lemma WhiteImagesPass(raw: seq<Byte>, stride: nat)
    requires IsStride(stride) && EveryPixelNearWhite(raw, stride)
    ensures NearWhite(raw, stride, SampleCount(|raw|, stride))
  {
    forall n, c | 0 <= n < SampleCount(|raw|, stride) && 0 <= c < 3
      ensures exists p: nat :: p < |raw| / stride && ValueAt(raw, stride, n, c) == ColourOf(raw, stride, p, c)
    {
      var p := SampleIsPixel(raw, stride, n, c);
    }
    hide ValueAt, ColourOf, SampleCount, SampleStep;
  }

  /** All white, but for a black second pixel. */
  function Dotted(length: nat, stride: nat): (raw: seq<Byte>)
    ensures |raw| == length
  {
    seq(length, i => if stride <= i < 2 * stride then 0 else 255)
  }

  /** From 100000 pixels on the samples are at least two pixels apart. */
  lemma LargeImagesAreSkimmed(length: nat, stride: nat)
    requires IsStride(stride) && length / stride >= 100000
    ensures SampleStep(length, stride) >= 2 * stride
  {
    DivBounds(length, stride);
    var q := length / SAMPLES;
    DivBounds(length, SAMPLES);
    assert q >= 2 * stride;
    var k := q / stride;
    DivBounds(q, stride);
    if k < 2 {
      Multiply(k, 2, stride);
    }
    if k > 2 {
      Multiply(2, k, stride);
    }
  }

  lemma DottedPasses(length: nat, stride: nat)
    requires IsStride(stride) && length / stride >= 100000
    ensures NearWhite(Dotted(length, stride), stride, SampleCount(length, stride))
    ensures !EveryPixelNearWhite(Dotted(length, stride), stride)
  {
    var raw, step := Dotted(length, stride), SampleStep(length, stride);
    LargeImagesAreSkimmed(length, stride);
    DivBounds(length, stride);
    forall n: nat, c: nat | n < SampleCount(length, stride) && c < 3
      ensures ValueAt(raw, stride, n, c) == 255
    {
      SampleFits(length, stride, n);
      if n > 1 {
        Multiply(1, n, step);
      }
    }
    assert ColourOf(raw, stride, 1, 0) == 0;
    hide ValueAt, ColourOf, SampleCount, SampleStep, Dotted;
  }

  /** The sampled test is the full one, for all images of a size, exactly when they have fewer than 100000 pixels. */
  lemma SampledIsFullExactly(length: nat, stride: nat)
    requires IsStride(stride)
    ensures (forall raw: seq<Byte> :: |raw| == length ==>
               (NearWhite(raw, stride, SampleCount(|raw|, stride)) <==> EveryPixelNearWhite(raw, stride)))
      <==> length / stride < 100000
  {
    if length / stride < 100000 {
      forall raw: seq<Byte> | |raw| == length
        ensures NearWhite(raw, stride, SampleCount(|raw|, stride)) <==> EveryPixelNearWhite(raw, stride)
      {
        SmallImageVerdict(raw, stride);
      }
    } else {
      DottedPasses(length, stride);
      assert |Dotted(length, stride)| == length;
    }
    hide NearWhite, EveryPixelNearWhite, SampleCount;
  }

  // ----- the test and the image that was written -----

  /** Colour c of pixel x of a row. */
  function RowColour(row: seq<Byte>, stride: nat, width: nat, x: nat, c: nat): int
    requires IsStride(stride) && |row| == width * stride && x < width && c < 3
  {
    Multiply(x, width, stride);
    row[x * stride + (if stride == 1 then 0 else c)]
  }

  predicate Rectangle(rows: seq<seq<Byte>>, width: nat, stride: nat) {
    forall y :: 0 <= y < |rows| ==> |rows[y]| == width * stride
  }

  /** Every colour value of every pixel of every row, near white and near every other. */
  ghost predicate RowsNearWhite(rows: seq<seq<Byte>>, width: nat, stride: nat)
    requires IsStride(stride) && Rectangle(rows, width, stride)
  {
    && (forall y, x, c :: 0 <= y < |rows| && 0 <= x < width && 0 <= c < 3 ==>
          RowColour(rows[y], stride, width, x, c) >= 248)
    && (forall y, x, c, y', x', c' :: 0 <= y < |rows| && 0 <= x < width && 0 <= c < 3
                                      && 0 <= y' < |rows| && 0 <= x' < width && 0 <= c' < 3 ==>
          RowColour(rows[y], stride, width, x, c) - RowColour(rows[y'], stride, width, x', c') <= 3)
  }

  lemma {:induction false} FlattenLength(rows: seq<seq<Byte>>, n: nat)
    requires forall y :: 0 <= y < |rows| ==> |rows[y]| == n
    ensures |Flatten(rows)| == |rows| * n
  {
    if rows != [] {
      FlattenLength(rows[1..], n);
      assert |rows| * n == n + (|rows| - 1) * n;
    }
  }

  /** Byte i of row y. */
  lemma {:induction false} FlattenAt(rows: seq<seq<Byte>>, n: nat, y: nat, i: nat)
    requires (forall y :: 0 <= y < |rows| ==> |rows[y]| == n) && y < |rows| && i < n
    ensures y * n + i < |Flatten(rows)| && Flatten(rows)[y * n + i] == rows[y][i]
  {
    if y > 0 {
      FlattenAt(rows[1..], n, y - 1, i);
      assert y * n == (y - 1) * n + n;
    }
  }

  /** Pixel x of row y is pixel y * width + x of the image. */
  lemma PixelOfRow(rows: seq<seq<Byte>>, width: nat, stride: nat, y: nat, x: nat, c: nat)
    requires IsStride(stride) && Rectangle(rows, width, stride) && y < |rows| && x < width && c < 3
    ensures |Flatten(rows)| / stride == |rows| * width && y * width + x < |rows| * width
    ensures ColourOf(Flatten(rows), stride, y * width + x, c) == RowColour(rows[y], stride, width, x, c)
  {
    PixelCount(rows, width, stride);
    Multiply(y, |rows|, width);
    Multiply(x, width, stride);
    FlattenAt(rows, width * stride, y, x * stride + Offset(stride, c));
    Places(y, x, width, stride);
    hide Flatten;
  }

  lemma Places(y: nat, x: nat, width: nat, stride: nat)
    ensures (y * width + x) * stride == y * (width * stride) + x * stride
  {
    assert y * width * stride == y * (width * stride);
  }

  lemma PixelCount(rows: seq<seq<Byte>>, width: nat, stride: nat)
    requires IsStride(stride) && Rectangle(rows, width, stride)
    ensures |Flatten(rows)| == |rows| * width * stride && |Flatten(rows)| / stride == |rows| * width
  {
    FlattenLength(rows, width * stride);
    assert |rows| * (width * stride) == |rows| * width * stride;
    assert |rows| * width * stride / stride == |rows| * width;
  }

  /** Every pixel of the image is a pixel of a row. */
  lemma RowOfPixel(height: nat, width: nat, p: nat) returns (y: nat, x: nat)
    requires p < height * width
    ensures y < height && x < width && p == y * width + x
  {
    assert width != 0;
    y, x := p / width, p % width;
    DivBounds(p, width);
    if y >= height {
      if y > height {
        Multiply(height, y, width);
      }
    }
  }

  lemma RowsArePixels(rows: seq<seq<Byte>>, width: nat, stride: nat)
    requires IsStride(stride) && Rectangle(rows, width, stride)
    ensures RowsNearWhite(rows, width, stride) <==> EveryPixelNearWhite(Flatten(rows), stride)
  {
    if RowsNearWhite(rows, width, stride) {
      RowsToPixels(rows, width, stride);
    }
    if EveryPixelNearWhite(Flatten(rows), stride) {
      PixelsToRows(rows, width, stride);
    }
    hide RowsNearWhite, EveryPixelNearWhite, Rectangle, Flatten;
  }

  lemma RowsToPixels(rows: seq<seq<Byte>>, width: nat, stride: nat)
    requires IsStride(stride) && Rectangle(rows, width, stride) && RowsNearWhite(rows, width, stride)
    ensures EveryPixelNearWhite(Flatten(rows), stride)
  {
    var raw := Flatten(rows);
    PixelCount(rows, width, stride);
    hide Flatten, ColourOf, RowColour;
    forall p: nat, c: nat | p < |raw| / stride && c < 3
      ensures exists y: nat, x: nat :: y < |rows| && x < width
                && ColourOf(raw, stride, p, c) == RowColour(rows[y], stride, width, x, c)
    {
      var y, x := RowOfPixel(|rows|, width, p);
      PixelOfRow(rows, width, stride, y, x, c);
    }
    forall p: nat, c: nat, q: nat, d: nat | p < |raw| / stride && c < 3 && q < |raw| / stride && d < 3
      ensures ColourOf(raw, stride, p, c) >= 248
      ensures ColourOf(raw, stride, p, c) - ColourOf(raw, stride, q, d) <= 3
    {
      var y: nat, x: nat :| y < |rows| && x < width
        && ColourOf(raw, stride, p, c) == RowColour(rows[y], stride, width, x, c);
      var y': nat, x': nat :| y' < |rows| && x' < width
        && ColourOf(raw, stride, q, d) == RowColour(rows[y'], stride, width, x', d);
    }
  }

  lemma PixelsToRows(rows: seq<seq<Byte>>, width: nat, stride: nat)
    requires IsStride(stride) && Rectangle(rows, width, stride) && EveryPixelNearWhite(Flatten(rows), stride)
    ensures RowsNearWhite(rows, width, stride)
  {
    var raw := Flatten(rows);
    PixelCount(rows, width, stride);
    hide Flatten, ColourOf, RowColour;
    forall y: nat, x: nat, c: nat | y < |rows| && x < width && c < 3
      ensures exists p: nat :: p < |raw| / stride
                && ColourOf(raw, stride, p, c) == RowColour(rows[y], stride, width, x, c)
    {
      PixelOfRow(rows, width, stride, y, x, c);
    }
    forall y: nat, x: nat, c: nat, y': nat, x': nat, c': nat
      | y < |rows| && x < width && c < 3 && y' < |rows| && x' < width && c' < 3
      ensures RowColour(rows[y], stride, width, x, c) >= 248
      ensures RowColour(rows[y], stride, width, x, c) - RowColour(rows[y'], stride, width, x', c') <= 3
    {
      var p: nat :| p < |raw| / stride
        && ColourOf(raw, stride, p, c) == RowColour(rows[y], stride, width, x, c);
      var q: nat :| q < |raw| / stride
        && ColourOf(raw, stride, q, c') == RowColour(rows[y'], stride, width, x', c');
    }
  }

  /**
   From file to verdict: for a file written from rows, with any filters and chunks, and with both sides at
   least 16, the test says blank when every colour value of every row is near white and near every other;
   and below 100000 pixels it says so only then.
  */
  lemma BlankFileVerdict(h: Header, rows: seq<seq<Byte>>, filters: seq<Byte>, first: Chunk, cs: seq<Chunk>, last: Chunk,
                         trailing: seq<Byte>, inflate: seq<Byte> -> Option<seq<Byte>>, methods: seq<Byte>)
    requires IsWritten(h, rows, filters, first, cs, last, inflate, methods)
    requires h.width >= 16 && h.height >= 16
    ensures var blank, white := LooksBlank(PngPixels(FileBytes([first] + cs, last, trailing), inflate)),
                                RowsNearWhite(rows, h.width, PixelSize(h.colorType));
      (white ==> blank) && (h.width * h.height < 100000 ==> (blank <==> white))
  {
    var stride := PixelSize(h.colorType);
    PngRoundTrip(h, rows, filters, first, cs, last, trailing, inflate, methods);
    PixelCount(rows, h.width, stride);
    RowsArePixels(rows, h.width, stride);
    Multiply(0, h.height, h.width);
    Multiply(0, h.height * h.width, stride);
    var raw := Flatten(rows);
    hide RowsNearWhite, EveryPixelNearWhite, NearWhite, Flatten, PngPixels, FileBytes, IsWritten;
    if EveryPixelNearWhite(raw, stride) {
      WhiteImagesPass(raw, stride);
    }
    if h.width * h.height < 100000 {
      SmallImageVerdict(raw, stride);
    }
  }
}
