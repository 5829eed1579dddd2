/** CameraCell.estimateBrightness: the mean of the luma plane sampled every Stride
    pixels in both axes, scaled from bytes to [0, 1]. The mean is taken over the
    number of whole strides in each axis, floor(width / 10) * floor(height / 10),
    while the loops visit ceil(width / 10) * ceil(height / 10) pixels, and the
    division is a CGFloat division that is not guarded against a zero divisor. */
module BrightnessEstimator {
  import opened Options

  /** Swift's UInt8, the type of a luma byte. */
  type UInt8 = x: int | 0 <= x < 256

  /** The sampling step in both axes. */
  const Stride: nat := 10

  /** The value `CGFloat(total) / CGFloat(sampleCount) / 255.0` takes. A zero
      sampleCount makes it +infinity when total is positive and NaN when it is zero;
      no other IEEE detail is modelled. */
  datatype Brightness = Level(value: real) | PosInfinity | NotANumber

  /** A luma plane as CoreVideo lays it out: `height` rows of `bytesPerRow` bytes,
      each holding at least `width` pixels. Nothing is read when either side is 0. */
  predicate PlaneWellFormed(length: nat, width: nat, height: nat, bytesPerRow: nat)
  {
    width == 0 || height == 0 || (width <= bytesPerRow && height * bytesPerRow <= length)
  }

  /** The byte the source reads at `offset`: `luma?[offset] ?? 0`, which is 0 when the
      plane's base address is nil. (Offsets past the plane, which the source would
      read out of bounds, are never asked for under PlaneWellFormed.) */
  function ByteAt(plane: Option<seq<UInt8>>, offset: int): nat
  {
    match plane
    case None => 0
    case Some(bytes) => if 0 <= offset < |bytes| then bytes[offset] else 0
  }

  /** The sum of the row beginning at `rowStart`, sampled at x, x + 10, ... below width. */
  function RowSum(plane: Option<seq<UInt8>>, rowStart: int, x: nat, width: nat): nat
    decreases width - x
  {
    if x >= width then 0 else ByteAt(plane, rowStart + x) + RowSum(plane, rowStart, x + Stride, width)
  }

  /** The sum of the rows y, y + 10, ... below height, row y beginning at offset
      rowStart and each next sampled row Stride * bytesPerRow bytes further on:
      the `total` the nested strides accumulate when started at row y. */
  function GridSum(plane: Option<seq<UInt8>>, y: nat, rowStart: nat, width: nat, height: nat, bytesPerRow: nat): nat
    decreases height - y
  {
    if y >= height then 0
    else RowSum(plane, rowStart, 0, width) + GridSum(plane, y + Stride, rowStart + Stride * bytesPerRow, width, height, bytesPerRow)
  }

  /** The number of stride positions 0, 10, 20, ... below n: ceil(n / 10). */
  function Strides(n: int): nat
  {
    if n <= 0 then 0 else (n + Stride - 1) / Stride
  }

  /** estimateBrightness's divisor: whole strides only, floor(width / 10) * floor(height / 10). */
  function SampleCount(width: nat, height: nat): nat
  {
    (width / Stride) * (height / Stride)
  }

  function Quotient(total: nat, sampleCount: nat): Brightness
  {
    if sampleCount > 0 then Level(total as real / sampleCount as real / 255.0)
    else if total > 0 then PosInfinity
    else NotANumber
  }

  /** What estimateBrightness returns for a plane (None: nil base address). */
  function BrightnessOf(plane: Option<seq<UInt8>>, width: nat, height: nat, bytesPerRow: nat): Brightness
  {
    Quotient(GridSum(plane, 0, 0, width, height, bytesPerRow), SampleCount(width, height))
  }

  function PlaneOf(luma: array?<UInt8>): Option<seq<UInt8>>
    reads luma
  {
    if luma == null then None else Some(luma[..])
  }

  method EstimateBrightness(luma: array?<UInt8>, width: nat, height: nat, bytesPerRow: nat)
    returns (brightness: Brightness)
    requires luma != null ==> PlaneWellFormed(luma.Length, width, height, bytesPerRow)
    ensures brightness == BrightnessOf(PlaneOf(luma), width, height, bytesPerRow)
  {
    ghost var plane := PlaneOf(luma);
    var total: nat := 0;
    var y: nat := 0;
    while y < height
      invariant total + GridSum(plane, y, y * bytesPerRow, width, height, bytesPerRow)
             == GridSum(plane, 0, 0, width, height, bytesPerRow)
      decreases height - y
    {
      ghost var before := total;
      ghost var rowStart := y * bytesPerRow;
      var x: nat := 0;
      while x < width
        invariant total + RowSum(plane, rowStart, x, width) == before + RowSum(plane, rowStart, 0, width)
        decreases width - x
      {
        var offset := y * bytesPerRow + x;
        var byte: nat := 0;
        if luma != null {
          OffsetInPlane(luma.Length, y, x, width, height, bytesPerRow);
          byte := luma[offset];
        }
        assert RowSum(plane, rowStart, x, width) == byte + RowSum(plane, rowStart, x + Stride, width);
        total := total + byte;
        x := x + Stride;
      }
      assert GridSum(plane, y, rowStart, width, height, bytesPerRow)
          == RowSum(plane, rowStart, 0, width) + GridSum(plane, y + Stride, rowStart + Stride * bytesPerRow, width, height, bytesPerRow);
      NextRowStart(y, bytesPerRow);
      y := y + Stride;
    }
    var sampleCount := (width / Stride) * (height / Stride);
    brightness := Quotient(total, sampleCount);
  }

  /** A pixel of a well-formed plane lies inside it. */
  lemma OffsetInPlane(length: nat, y: nat, x: nat, width: nat, height: nat, bytesPerRow: nat)
    requires PlaneWellFormed(length, width, height, bytesPerRow)
    requires x < width && y < height
    ensures y * bytesPerRow + x < length
  {
    assert y * bytesPerRow + bytesPerRow == (y + 1) * bytesPerRow;
    MulMonotone(y + 1, height, bytesPerRow);
  }

  /** The number of pixels the nested strides visit: ceil(width / 10) * ceil(height / 10). */
  function Visits(width: nat, height: nat): nat
  {
    Strides(width) * Strides(height)
  }

  /** Every row sum is at most 255 per visited pixel. */
  lemma {:induction false} RowSumBounded(plane: Option<seq<UInt8>>, rowStart: int, x: nat, width: nat)
    ensures RowSum(plane, rowStart, x, width) <= 255 * Strides(width - x)
    decreases width - x
  {
    if x < width {
      RowSumBounded(plane, rowStart, x + Stride, width);
      StridesStep(width - x);
    }
  }

  /** Every grid sum is at most 255 per visited pixel. */
  lemma {:induction false} GridSumBounded(plane: Option<seq<UInt8>>, y: nat, rowStart: nat,
                                          width: nat, height: nat, bytesPerRow: nat)
    ensures GridSum(plane, y, rowStart, width, height, bytesPerRow) <= (255 * Strides(width)) * Strides(height - y)
    decreases height - y
  {
    if y < height {
      var rowBound := 255 * Strides(width);
      RowSumBounded(plane, rowStart, 0, width);
      GridSumBounded(plane, y + Stride, rowStart + Stride * bytesPerRow, width, height, bytesPerRow);
      StridesStep(height - y);
      MulSucc(rowBound, Strides(height - y - Stride));
    }
  }

  /** A plane whose every byte is `level`. */
  predicate Uniform(bytes: seq<UInt8>, level: UInt8)
  {
    forall i :: 0 <= i < |bytes| ==> bytes[i] == level
  }

  lemma {:induction false} RowSumUniform(bytes: seq<UInt8>, level: UInt8, rowStart: nat, x: nat, width: nat)
    requires Uniform(bytes, level) && rowStart + width <= |bytes|
    ensures RowSum(Some(bytes), rowStart, x, width) == level * Strides(width - x)
    decreases width - x
  {
    if x < width {
      RowSumUniform(bytes, level, rowStart, x + Stride, width);
      StridesStep(width - x);
      MulSucc(level, Strides(width - x - Stride));
    }
  }

  lemma {:induction false} GridSumUniform(bytes: seq<UInt8>, level: UInt8, y: nat, rowStart: nat,
                                          width: nat, height: nat, bytesPerRow: nat)
    requires Uniform(bytes, level) && width <= bytesPerRow
    requires y < height ==> rowStart + (height - y) * bytesPerRow <= |bytes|
    ensures GridSum(Some(bytes), y, rowStart, width, height, bytesPerRow) == (level * Strides(width)) * Strides(height - y)
    decreases height - y
  {
    if y < height {
      var rowTotal := level * Strides(width);
      MulMonotone(1, height - y, bytesPerRow);
      RowSumUniform(bytes, level, rowStart, 0, width);
      if y + Stride < height {
        MulSplit(Stride, height - (y + Stride), bytesPerRow);
      }
      GridSumUniform(bytes, level, y + Stride, rowStart + Stride * bytesPerRow, width, height, bytesPerRow);
      StridesStep(height - y);
      MulSucc(rowTotal, Strides(height - y - Stride));
    }
  }

  /** With a nil base address every read is 0, at every row. */
  lemma {:induction false} GridSumOfNilPlane(y: nat, rowStart: nat, width: nat, height: nat, bytesPerRow: nat)
    ensures GridSum(None, y, rowStart, width, height, bytesPerRow) == 0
    decreases height - y
  {
    if y < height {
      RowSumOfNilPlane(rowStart, 0, width);
      GridSumOfNilPlane(y + Stride, rowStart + Stride * bytesPerRow, width, height, bytesPerRow);
    }
  }

  lemma {:induction false} RowSumOfNilPlane(rowStart: int, x: nat, width: nat)
    ensures RowSum(None, rowStart, x, width) == 0
    decreases width - x
  {
    if x < width {
      RowSumOfNilPlane(rowStart, x + Stride, width);
    }
  }

  /** A uniform plane of value L: the loops add L once per visited pixel, so the total
      is L * ceil(width / 10) * ceil(height / 10), divided by the whole-stride count. */
  lemma UniformPlane(bytes: seq<UInt8>, level: UInt8, width: nat, height: nat, bytesPerRow: nat)
    requires Uniform(bytes, level) && PlaneWellFormed(|bytes|, width, height, bytesPerRow)
    ensures GridSum(Some(bytes), 0, 0, width, height, bytesPerRow) == level * Visits(width, height)
    ensures BrightnessOf(Some(bytes), width, height, bytesPerRow)
         == Quotient(level * Visits(width, height), SampleCount(width, height))
  {
    var total := GridSum(Some(bytes), 0, 0, width, height, bytesPerRow);
    var sw, sh := Strides(width), Strides(height);
    if width == 0 || height == 0 {
      assert total == 0 && sw * sh == 0 by {
        assert sw == 0 || sh == 0;
        GridSumBounded(Some(bytes), 0, 0, width, height, bytesPerRow);
        MulZero(255, sw, sh);
      }
    } else {
      GridSumUniform(bytes, level, 0, 0, width, height, bytesPerRow);
      MulAssoc(level, sw, sh);
    }
  }

  /** On a uniform plane of value L whose sides are whole multiples of the stride, the
      estimate is exactly L / 255. */
  lemma UniformPlaneWholeStrides(bytes: seq<UInt8>, level: UInt8, width: nat, height: nat, bytesPerRow: nat)
    requires Uniform(bytes, level) && PlaneWellFormed(|bytes|, width, height, bytesPerRow)
    requires width >= Stride && height >= Stride && width % Stride == 0 && height % Stride == 0
    ensures BrightnessOf(Some(bytes), width, height, bytesPerRow) == Level(level as real / 255.0)
  {
    UniformPlane(bytes, level, width, height, bytesPerRow);
    VisitsExceedSampleCount(width, height);
    QuotientOfMultiple(level, SampleCount(width, height));
  }

  /** The gap between what the loops visit and what the source divides by: a uniform
      plane of a positive value L whose width or height is not a multiple of the stride
      reads more than L / 255. */
  lemma UniformPlaneOverestimates(bytes: seq<UInt8>, level: UInt8, width: nat, height: nat, bytesPerRow: nat)
    requires Uniform(bytes, level) && PlaneWellFormed(|bytes|, width, height, bytesPerRow)
    requires width >= Stride && height >= Stride && (width % Stride != 0 || height % Stride != 0)
    requires level > 0
    ensures var b := BrightnessOf(Some(bytes), width, height, bytesPerRow);
            b.Level? && b.value > level as real / 255.0
  {
    UniformPlane(bytes, level, width, height, bytesPerRow);
    VisitsExceedSampleCount(width, height);
    var n, v := SampleCount(width, height), Visits(width, height);
    MulStrictMonotone(level, n, v);
    QuotientAbove(level * v, n, level);
  }

  /** For example a 19 x 10 plane of 255s reads 2.0, outside [0, 1]: the loops visit two
      pixels and the divisor counts one. */
  lemma NineteenByTenWhitePlane()
    ensures BrightnessOf(Some(seq(190, _ => 255)), 19, 10, 19) == Level(2.0)
  {
    UniformPlane(seq(190, _ => 255), 255, 19, 10, 19);
    assert Visits(19, 10) == 2 && SampleCount(19, 10) == 1;
  }

  /** The loops visit at least as many pixels as the divisor counts, and exactly as
      many when both sides are whole multiples of the stride. */
  lemma VisitsExceedSampleCount(width: nat, height: nat)
    requires width >= Stride && height >= Stride
    ensures SampleCount(width, height) > 0
    ensures SampleCount(width, height) <= Visits(width, height)
    ensures SampleCount(width, height) == Visits(width, height) <==> width % Stride == 0 && height % Stride == 0
  {
    var fw, fh := width / Stride, height / Stride;
    var cw, ch := Strides(width), Strides(height);
    assert cw == fw || cw == fw + 1;
    assert ch == fh || ch == fh + 1;
    assert cw == fw <==> width % Stride == 0;
    assert ch == fh <==> height % Stride == 0;
    assert fw >= 1 && fh >= 1;
    MulPositive(fw, fh);
    MulMonotone(fw, cw, fh);
    MulMonotone(fh, ch, cw);
    if cw == fw + 1 {
      MulSucc(fh, fw + 1);
    }
    if ch == fh + 1 {
      MulSucc(cw, ch);
    }
  }

  /** Any brightness over at least one whole stride is a level of at least 0 and at most
      the ratio of visited to counted pixels. */
  lemma BrightnessBounds(plane: Option<seq<UInt8>>, width: nat, height: nat, bytesPerRow: nat)
    requires SampleCount(width, height) > 0
    ensures var b := BrightnessOf(plane, width, height, bytesPerRow);
            b.Level? && 0.0 <= b.value <= Visits(width, height) as real / SampleCount(width, height) as real
  {
    var n, v := SampleCount(width, height), Visits(width, height);
    var total := GridSum(plane, 0, 0, width, height, bytesPerRow);
    assert total <= 255 * v by {
      GridSumBounded(plane, 0, 0, width, height, bytesPerRow);
      MulAssoc(255, Strides(width), Strides(height));
    }
    QuotientAtMost(total, n, v);
  }

  /** When both sides are whole multiples of the stride (and at least one stride), the
      brightness is a level in [0, 1]. */
  lemma BrightnessWithinUnit(plane: Option<seq<UInt8>>, width: nat, height: nat, bytesPerRow: nat)
    requires width >= Stride && height >= Stride && width % Stride == 0 && height % Stride == 0
    ensures var b := BrightnessOf(plane, width, height, bytesPerRow);
            b.Level? && 0.0 <= b.value <= 1.0
  {
    VisitsExceedSampleCount(width, height);
    BrightnessBounds(plane, width, height, bytesPerRow);
    SelfRatio(SampleCount(width, height));
  }

  /** A frame narrower or shorter than one stride has a zero divisor: the quotient is
      +infinity or NaN, never a level. */
  lemma BelowOneStride(plane: Option<seq<UInt8>>, width: nat, height: nat, bytesPerRow: nat)
    requires width < Stride || height < Stride
    ensures !BrightnessOf(plane, width, height, bytesPerRow).Level?
  {
  }

  /** With a nil base address every read is 0: the estimate is 0 (NaN below one stride). */
  lemma NilPlane(width: nat, height: nat, bytesPerRow: nat)
    ensures BrightnessOf(None, width, height, bytesPerRow)
         == if SampleCount(width, height) > 0 then Level(0.0) else NotANumber
  {
    GridSumOfNilPlane(0, 0, width, height, bytesPerRow);
  }

  lemma QuotientOfMultiple(level: nat, n: nat)
    requires n > 0
    ensures Quotient(level * n, n) == Level(level as real / 255.0)
  {
    assert (level * n) as real == level as real * n as real;
    assert (level * n) as real / n as real == level as real;
  }

  lemma QuotientAbove(total: nat, n: nat, level: nat)
    requires n > 0 && total > level * n
    ensures Quotient(total, n).Level? && Quotient(total, n).value > level as real / 255.0
  {
    assert total as real > level as real * n as real;
    DivideAbove(total as real, n as real, level as real);
    DivideAbove(total as real / n as real, 255.0, level as real / 255.0);
  }

  lemma QuotientAtMost(total: nat, n: nat, v: nat)
    requires n > 0 && total <= 255 * v
    ensures Quotient(total, n).Level?
    ensures 0.0 <= Quotient(total, n).value <= v as real / n as real
  {
    var ratio := v as real / n as real;
    assert ratio * n as real == v as real;
    assert total as real <= ratio * 255.0 * n as real;
    DivideAtMost(total as real, n as real, ratio * 255.0);
    DivideAtMost(total as real / n as real, 255.0, ratio);
  }

  lemma SelfRatio(n: nat)
    requires n > 0
    ensures n as real / n as real == 1.0
  {
  }

  lemma DivideAbove(a: real, n: real, c: real)
    requires n > 0.0 && a > c * n
    ensures a / n > c
  {
    assert a / n * n == a;
  }

  lemma DivideAtMost(a: real, n: real, c: real)
    requires n > 0.0 && a <= c * n
    ensures a / n <= c
  {
    assert a / n * n == a;
  }

  lemma StridesStep(n: int)
    requires n > 0
    ensures Strides(n) == 1 + Strides(n - Stride)
  {
  }

  lemma NextRowStart(y: nat, bytesPerRow: nat)
    ensures (y + Stride) * bytesPerRow == y * bytesPerRow + Stride * bytesPerRow
  {
  }

  lemma MulSucc(a: nat, k: nat)
    ensures a * (k + 1) == a + a * k
  {
  }

  lemma MulSplit(a: nat, b: nat, c: nat)
    ensures (a + b) * c == a * c + b * c
  {
  }

  lemma MulAssoc(a: nat, b: nat, c: nat)
    ensures (a * b) * c == a * (b * c)
  {
  }

  lemma MulZero(a: nat, b: nat, c: nat)
    requires b == 0 || c == 0
    ensures (a * b) * c == 0 && b * c == 0
  {
  }

  lemma MulPositive(a: nat, b: nat)
    requires a > 0 && b > 0
    ensures a * b > 0
  {
  }

  lemma MulMonotone(a: nat, b: nat, c: nat)
    requires a <= b
    ensures a * c <= b * c
  {
  }

  lemma MulStrictMonotone(k: nat, a: nat, b: nat)
    requires k > 0 && a < b
    ensures k * a < k * b
  {
  }
}
