/** Area averaging in 16.16 fixed point: the scaling loop of the JPEG converter. */
module Downscale {
  import opened Arithmetic

  const ONE: nat := 0x1_0000

  // Source pixels per output pixel.
  function ScaleFor(source: nat, out: nat): nat
    requires out > 0
  {
    (source * ONE) / out
  }

  function Floor(fp: nat): nat {
    fp / ONE
  }

  function Ceiling(fp: nat): nat {
    (fp + ONE - 1) / ONE
  }

  // The source columns of an output column begin here.
  function ColumnStart(scale: nat, x: nat): nat {
    Floor(x * scale)
  }

  // They end with the next ones, but one is taken at least.
  function ColumnEnd(scale: nat, x: nat): nat {
    if ColumnStart(scale, x + 1) > ColumnStart(scale, x) then ColumnStart(scale, x + 1) else ColumnStart(scale, x) + 1
  }

  // The source rows of an output row begin here.  When the image is enlarged every source row makes one output row.
  function RowStart(scale: nat, y: nat): nat {
    if scale >= ONE then Ceiling(y * scale) else y
  }

  lemma {:induction false} FloorIs(fp: nat)
    ensures Floor(fp) * ONE <= fp < (Floor(fp) + 1) * ONE
  {
    DivMod(fp, ONE);
  }

  lemma {:induction false} CeilingIs(fp: nat)
    ensures fp <= Ceiling(fp) * ONE < fp + ONE
  {
    DivMod(fp + ONE - 1, ONE);
  }

  // out * ScaleFor(source, out) misses the source by less than out.
  lemma {:induction false} ScaleIs(source: nat, out: nat)
    requires out > 0
    ensures source * ONE - out < out * ScaleFor(source, out) <= source * ONE
  {
    DivMod(source * ONE, out);
  }

  lemma {:induction false} ScaleAtLeastOne(source: nat, out: nat)
    requires 0 < out
    ensures out <= source ==> ScaleFor(source, out) >= ONE
    ensures source < out ==> ScaleFor(source, out) < ONE
  {
    hide ScaleFor;
    var s := ScaleFor(source, out);
    ScaleIs(source, out);
    if out <= source && s < ONE {
      MulMonotone(out, s, ONE - 1);
      Distribute(out, ONE, 1);
    }
    if source < out && s >= ONE {
      MulMonotone(out, ONE, s);
    }
  }

  /** Downscaling: every output column has a source column, columns adjoin, and at most one source column is left over. */
  lemma {:induction false} ColumnsPartition(width: nat, outWidth: nat, x: nat)
    requires 0 < outWidth <= width && outWidth < ONE && x < outWidth
    ensures var s := ScaleFor(width, outWidth);
            && ColumnStart(s, 0) == 0
            && ColumnStart(s, x) < ColumnEnd(s, x) == ColumnStart(s, x + 1) <= width
            && width - 1 <= ColumnStart(s, outWidth) <= width
  {
    hide ScaleFor, Floor;
    var s := ScaleFor(width, outWidth);
    ScaleAtLeastOne(width, outWidth);
    ScaleIs(width, outWidth);
    Distribute(s, x, 1);
    FloorIs(0);
    FloorIs(x * s);
    FloorIs((x + 1) * s);
    FloorIs(outWidth * s);
    MulMonotone(s, x + 1, outWidth);
    assert outWidth * s > width * ONE - ONE;
  }

  // An output column reads inside the source row, whatever the scale.
  lemma {:induction false} ColumnsInBounds(width: nat, outWidth: nat, x: nat)
    requires 0 < width && 0 < outWidth < ONE && x < outWidth
    ensures var s := ScaleFor(width, outWidth);
            ColumnStart(s, x) < ColumnEnd(s, x) <= width
  {
    hide ScaleFor, Floor;
    var s := ScaleFor(width, outWidth);
    ScaleIs(width, outWidth);
    Distribute(s, x, 1);
    FloorIs(x * s);
    FloorIs((x + 1) * s);
    MulMonotone(s, x + 1, outWidth);
    if s == 0 {
      ScalePositive(width, outWidth);
    }
    assert x * s < width * ONE;
  }

  lemma {:induction false} ScalePositive(source: nat, out: nat)
    requires 0 < source && 0 < out < ONE
    ensures ScaleFor(source, out) > 0
  {
    hide ScaleFor;
    ScaleIs(source, out);
    Distribute(out, 0, 0);
  }

  /** Rows: output rows adjoin and are not empty; downscaling, the last one ends with the source. */
  lemma {:induction false} RowsPartition(height: nat, outHeight: nat, j: nat)
    requires 0 < outHeight < ONE && 0 < height
    ensures var s := ScaleFor(height, outHeight);
            && RowStart(s, 0) == 0
            && RowStart(s, j) < RowStart(s, j + 1)
            && (outHeight <= height ==> RowStart(s, outHeight) == height)
            && (height < outHeight ==> RowStart(s, height) == height)
  {
    hide ScaleFor, Ceiling;
    var s := ScaleFor(height, outHeight);
    ScaleAtLeastOne(height, outHeight);
    ScaleIs(height, outHeight);
    Distribute(s, j, 1);
    CeilingIs(0);
    CeilingIs(j * s);
    CeilingIs((j + 1) * s);
    CeilingIs(outHeight * s);
  }

  // The test after a source row: the boundary of the next output row has been reached.
  lemma {:induction false} EmitsAtBoundary(scale: nat, j: nat, y: nat)
    requires RowStart(scale, j) <= y < RowStart(scale, j + 1)
    ensures (y + 1) * ONE >= (j + 1) * scale <==> y + 1 == RowStart(scale, j + 1)
  {
    hide Ceiling;
    CeilingIs((j + 1) * scale);
    if scale < ONE {
      MulMonotone(j + 1, scale, ONE);
    }
  }

  // Every fixed-point product of the loop fits 32 bits for the sizes that are let through: those of the output columns
  // and rows, up to one past the last, and those of the source rows.
  lemma {:induction false} ProductsFit(source: nat, out: nat, i: nat, y: nat)
    requires 0 < source <= MAX_IMAGE_HEIGHT && 0 < out < ONE && i <= out && y < source
    ensures source * ONE < WORD && ScaleFor(source, out) < WORD
    ensures i * ScaleFor(source, out) < WORD && (i + 1) * ScaleFor(source, out) < WORD && (y + 1) * ONE < WORD
  {
    hide ScaleFor;
    var s := ScaleFor(source, out);
    ScaleIs(source, out);
    ScaleAtLeastOne(source, out);
    MulMonotone(s, i, out);
    MulMonotone(s, 1, out);
    Distribute(s, i, 1);
  }

  // ---------- averages ----------

  type Byte = x: nat | x < 256

  const MAX_IMAGE_WIDTH: nat := 2048
  const MAX_IMAGE_HEIGHT: nat := 3072
  const WORD: nat := 0x1_0000_0000

  ghost function RowSum(row: seq<Byte>, a: nat, b: nat): nat
    requires a <= b <= |row|
  {
    if a == b then 0 else RowSum(row, a, b - 1) + row[b - 1] as nat
  }

  ghost predicate Image(image: seq<seq<Byte>>, width: nat) {
    forall y {:trigger image[y]} :: 0 <= y < |image| ==> |image[y]| == width
  }

  // The sum of a block of source pixels.
  ghost function BlockSum(image: seq<seq<Byte>>, width: nat, y0: nat, y1: nat, a: nat, b: nat): nat
    requires Image(image, width) && y0 <= y1 <= |image| && a <= b <= width
  {
    if y0 == y1 then 0 else BlockSum(image, width, y0, y1 - 1, a, b) + RowSum(image[y1 - 1], a, b)
  }

  // What is written for a sum and a count: 32 and 16 bits hold them, and a gray value has 8.
  function Average(sum: nat, count: nat): nat {
    (if count % ONE > 0 then (sum % WORD) / (count % ONE) else 0) % 256
  }

  ghost predicate Legal(image: seq<seq<Byte>>, width: nat, outWidth: nat, outHeight: nat) {
    && Image(image, width)
    && 0 < width <= MAX_IMAGE_WIDTH && 0 < |image| <= MAX_IMAGE_HEIGHT
    && 0 < outWidth < ONE && 0 < outHeight < ONE
  }

  // The number of output rows.
  function Rows(height: nat, outHeight: nat): nat {
    if outHeight <= height then outHeight else height
  }

  function Ratio(target: nat, size: nat): real
    requires size > 0
  {
    target as real / size as real
  }

  function Scaled(size: nat, ratio: real): int {
    (size as real * ratio).Floor
  }

  // The scale that is chosen for an image larger than the target: the one that covers the target when the image is to
  // be cropped, the one that fits otherwise.  Floating-point rounding is left out.
  function ScaleChosen(width: nat, height: nat, targetWidth: nat, targetHeight: nat, crop: bool): real
    requires width > 0 && height > 0
  {
    var toWidth, toHeight := Ratio(targetWidth, width), Ratio(targetHeight, height);
    if crop then (if toWidth > toHeight then toWidth else toHeight)
    else (if toWidth < toHeight then toWidth else toHeight)
  }

  predicate NeedsScaling(width: nat, height: nat, targetWidth: nat, targetHeight: nat) {
    targetWidth > 0 && targetHeight > 0 && (width > targetWidth || height > targetHeight)
  }

  // Width and height of the output, as they are written into the header.
  function OutputSize(width: nat, height: nat, targetWidth: nat, targetHeight: nat, crop: bool): (nat, nat)
    requires width > 0 && height > 0
  {
    if !NeedsScaling(width, height, targetWidth, targetHeight) then (width, height)
    else
      var scale := ScaleChosen(width, height, targetWidth, targetHeight, crop);
      (AtLeastOne(Scaled(width, scale)), AtLeastOne(Scaled(height, scale)))
  }

  function AtLeastOne(size: int): nat {
    if size < 1 then 1 else size
  }

  lemma {:induction false} RatioIs(target: nat, size: nat)
    requires size > 0
    ensures Ratio(target, size) * size as real == target as real
  {
  }

  lemma {:induction false} ScaledIs(size: nat, ratio: real)
    ensures Scaled(size, ratio) >= size + 1 <==> size as real * ratio >= (size + 1) as real
  {
  }

  lemma {:induction false} ScaledBy(size: nat, target: nat, whole: nat)
    requires whole > 0
    ensures Scaled(size, Ratio(target, whole)) >= size + 1 <==> target * size >= (size + 1) * whole
  {
    hide Scaled, Ratio;
    var r := Ratio(target, whole);
    var x := size as real * r;
    RatioIs(target, whole);
    ScaledIs(size, r);
    assert x * whole as real == (target * size) as real;
    if target * size >= (size + 1) * whole {
      assert x * whole as real >= (size + 1) as real * whole as real;
    }
    if x >= (size + 1) as real {
      assert x * whole as real >= (size + 1) as real * whole as real;
    }
  }

  lemma {:induction false} ScaledToTarget(size: nat, target: nat)
    requires size > 0
    ensures Scaled(size, Ratio(target, size)) >= size + 1 <==> target > size
  {
    hide Scaled, Ratio;
    ScaledBy(size, target, size);
    if target > size {
      MulMonotone(size, size + 1, target);
    } else {
      MulMonotone(size, target, size);
    }
  }

  lemma {:induction false} ScaledRises(size: nat, r: real, s: real)
    requires r <= s
    ensures Scaled(size, r) <= Scaled(size, s)
  {
    assert size as real * (s - r) >= 0.0;
  }

  lemma {:induction false} CroppedGetsTaller(width: nat, height: nat, targetWidth: nat, targetHeight: nat)
    requires width > 0 && height > 0
    ensures Scaled(height, ScaleChosen(width, height, targetWidth, targetHeight, true)) >= height + 1
            <==> targetHeight > height || targetWidth * height >= (height + 1) * width
  {
    hide Scaled, Ratio;
    ScaledBy(height, targetWidth, width);
    ScaledToTarget(height, targetHeight);
    var toWidth, toHeight := Ratio(targetWidth, width), Ratio(targetHeight, height);
    if toWidth <= toHeight {
      ScaledRises(height, toWidth, toHeight);
    } else {
      ScaledRises(height, toHeight, toWidth);
    }
  }

  lemma {:induction false} BelowOne(part: nat, whole: nat)
    requires part < whole
    ensures Ratio(part, whole) < 1.0
  {
    hide Ratio;
    RatioIs(part, whole);
  }

  // An image that is made to fit does not get taller.
  lemma {:induction false} GetsNoTaller(width: nat, height: nat, targetWidth: nat, targetHeight: nat)
    requires width > 0 && height > 0 && NeedsScaling(width, height, targetWidth, targetHeight)
    ensures Scaled(height, ScaleChosen(width, height, targetWidth, targetHeight, false)) <= height
  {
    hide Ratio, Scaled;
    if width > targetWidth {
      BelowOne(targetWidth, width);
    } else {
      BelowOne(targetHeight, height);
    }
    ScaledRises(height, ScaleChosen(width, height, targetWidth, targetHeight, false), 1.0);
    ScaledByOne(height);
  }

  lemma {:induction false} ScaledByOne(size: nat)
    ensures Scaled(size, 1.0) == size
  {
  }

  /** The header promises more rows than are written exactly when a cropped image gets taller: by its height, or
      because it has to be as wide as the target. */
  lemma {:induction false} RowsAreMissing(width: nat, height: nat, targetWidth: nat, targetHeight: nat, crop: bool)
    requires width > 0 && height > 0
    ensures var outHeight := OutputSize(width, height, targetWidth, targetHeight, crop).1;
            Rows(height, outHeight) < outHeight
            <==> NeedsScaling(width, height, targetWidth, targetHeight) && crop
                 && (targetHeight > height || targetWidth * height >= (height + 1) * width)
  {
    hide ScaleChosen, Scaled;
    if NeedsScaling(width, height, targetWidth, targetHeight) {
      CroppedGetsTaller(width, height, targetWidth, targetHeight);
      GetsNoTaller(width, height, targetWidth, targetHeight);
    }
  }

  // An image of 500 by 400 cropped to 480 by 800: a header for 1000 by 800, and 400 rows.
  lemma {:induction false} PromisedRowsMissing()
    ensures OutputSize(500, 400, 480, 800, true) == (1000, 800) && Rows(400, 800) == 400
  {
    assert Ratio(800, 400) == 2.0 && Ratio(480, 500) < 1.0;
    assert Scaled(400, 2.0) == 800 && Scaled(500, 2.0) == 1000;
  }

  lemma {:induction false} RowsRise(height: nat, outHeight: nat, i: nat, j: nat)
    requires 0 < outHeight < ONE && 0 < height && i <= j
    ensures RowStart(ScaleFor(height, outHeight), i) <= RowStart(ScaleFor(height, outHeight), j)
    decreases j
  {
    hide RowStart, ScaleFor;
    if i < j {
      RowsRise(height, outHeight, i, j - 1);
      RowsPartition(height, outHeight, j - 1);
    }
  }

  lemma {:induction false} RowsInBounds(height: nat, outHeight: nat, j: nat)
    requires 0 < outHeight < ONE && 0 < height && j < Rows(height, outHeight)
    ensures var s := ScaleFor(height, outHeight);
            RowStart(s, j) < RowStart(s, j + 1) <= height
  {
    hide RowStart, ScaleFor;
    RowsPartition(height, outHeight, j);
    RowsRise(height, outHeight, j + 1, Rows(height, outHeight));
  }

  // The source pixels of an output pixel: rows y0..y1, columns a..b.
  datatype Block = Block(y0: nat, y1: nat, a: nat, b: nat)

  ghost predicate Inside(b: Block, width: nat, height: nat) {
    b.y0 < b.y1 <= height && b.a < b.b <= width
  }

  function BlockAt(width: nat, height: nat, outWidth: nat, outHeight: nat, x: nat, j: nat): Block
    requires outWidth > 0 && outHeight > 0
  {
    var sx, sy := ScaleFor(width, outWidth), ScaleFor(height, outHeight);
    Block(RowStart(sy, j), RowStart(sy, j + 1), ColumnStart(sx, x), ColumnEnd(sx, x))
  }

  lemma {:induction false} BlockInside(width: nat, height: nat, outWidth: nat, outHeight: nat, x: nat, j: nat)
    requires 0 < width && 0 < height && 0 < outWidth < ONE && 0 < outHeight < ONE
    requires x < outWidth && j < Rows(height, outHeight)
    ensures Inside(BlockAt(width, height, outWidth, outHeight, x, j), width, height)
  {
    hide ScaleFor, RowStart, ColumnStart, ColumnEnd;
    ColumnsInBounds(width, outWidth, x);
    RowsInBounds(height, outHeight, j);
  }

  ghost function Pixels(b: Block): nat
    requires b.y0 <= b.y1 && b.a <= b.b
  {
    (b.y1 - b.y0) * (b.b - b.a)
  }

  ghost function SumOf(image: seq<seq<Byte>>, width: nat, b: Block): nat
    requires Image(image, width) && Inside(b, width, |image|)
  {
    BlockSum(image, width, b.y0, b.y1, b.a, b.b)
  }

  // The gray value of an output pixel.
  ghost function Gray(image: seq<seq<Byte>>, width: nat, b: Block): nat
    requires Image(image, width) && Inside(b, width, |image|)
  {
    Average(SumOf(image, width, b), Pixels(b))
  }

  lemma {:induction false} SumBound(image: seq<seq<Byte>>, width: nat, y0: nat, y1: nat, a: nat, b: nat)
    requires Image(image, width) && y0 <= y1 <= |image| && a <= b <= width
    ensures BlockSum(image, width, y0, y1, a, b) <= 255 * ((y1 - y0) * (b - a))
    decreases y1
  {
    if y0 < y1 {
      SumBound(image, width, y0, y1 - 1, a, b);
      RowBound(image[y1 - 1], a, b);
      Distribute(b - a, y1 - 1 - y0, 1);
    }
  }

  lemma {:induction false} RowBound(row: seq<Byte>, a: nat, b: nat)
    requires a <= b <= |row|
    ensures RowSum(row, a, b) <= 255 * (b - a)
    decreases b
  {
    if a < b {
      RowBound(row, a, b - 1);
    }
  }

  /** When the pixels of a block can be counted in 16 bits, its gray value is the floor of their mean. */
  lemma {:induction false} GrayIsFloorOfMean(image: seq<seq<Byte>>, width: nat, b: Block)
    requires Image(image, width) && Inside(b, width, |image|) && Pixels(b) < ONE
    ensures 0 < Pixels(b) && Gray(image, width, b) == SumOf(image, width, b) / Pixels(b) <= 255
  {
    hide BlockSum, Average;
    SumBound(image, width, b.y0, b.y1, b.a, b.b);
    MulAtLeast(b.y1 - b.y0, b.b - b.a);
    MeanFits(SumOf(image, width, b), Pixels(b));
  }

  lemma {:induction false} MeanFits(sum: nat, count: nat)
    requires 0 < count < ONE && sum <= 255 * count
    ensures Average(sum, count) == sum / count <= 255
  {
    QuotientBound(sum, count, 255);
    SmallMod(sum, WORD);
    SmallMod(count, ONE);
    SmallMod(sum / count, 256);
  }

  lemma {:induction false} SmallMod(a: nat, m: nat)
    requires a < m
    ensures a % m == a
  {
  }

  lemma {:induction false} QuotientBound(a: nat, b: nat, q: nat)
    requires b > 0 && a <= q * b
    ensures 0 <= a / b <= q
  {
    DivMod(a, b);
    if a / b > q {
      MulMonotone(b, q + 1, a / b);
      Distribute(b, q, 1);
    }
  }

  // ---------- the loop ----------

  // The columns of one output column.
  function Columns(width: nat, outWidth: nat, x: nat): (r: (nat, nat))
    requires outWidth > 0
  {
    (ColumnStart(ScaleFor(width, outWidth), x), ColumnEnd(ScaleFor(width, outWidth), x))
  }

  // One source row adds to the accumulators of all output columns.
  method AccumulateRow(srcRow: seq<Byte>, width: nat, outWidth: nat, rowAccum: array<nat>, rowCount: array<nat>)
    requires 0 < width == |srcRow| && 0 < outWidth < ONE && rowAccum.Length == rowCount.Length == outWidth && rowAccum != rowCount
    modifies rowAccum, rowCount
    ensures forall x: nat {:trigger Added(srcRow, width, outWidth, x, old(rowAccum[..]), old(rowCount[..]), rowAccum[..], rowCount[..])} ::
      x < outWidth ==> Added(srcRow, width, outWidth, x, old(rowAccum[..]), old(rowCount[..]), rowAccum[..], rowCount[..])
  {
    hide Columns, RowSum, ScaleFor;
    ghost var accum, counts := rowAccum[..], rowCount[..];
    for outX := 0 to outWidth
      invariant rowAccum[outX..] == accum[outX..] && rowCount[outX..] == counts[outX..]
      invariant forall x: nat {:trigger Added(srcRow, width, outWidth, x, accum, counts, rowAccum[..], rowCount[..])} ::
        x < outX ==> Added(srcRow, width, outWidth, x, accum, counts, rowAccum[..], rowCount[..])
    {
      ghost var accum', counts' := rowAccum[..], rowCount[..];
      var sum, count := SumColumns(srcRow, width, outWidth, outX);
      assert rowAccum[outX..][0] == accum[outX..][0] && rowCount[outX..][0] == counts[outX..][0];
      rowAccum[outX] := (rowAccum[outX] + sum) % WORD;
      rowCount[outX] := (rowCount[outX] + count) % ONE;
      forall x: nat | x < outX + 1
        ensures Added(srcRow, width, outWidth, x, accum, counts, rowAccum[..], rowCount[..])
      {
        if x < outX {
          assert Added(srcRow, width, outWidth, x, accum, counts, accum', counts');
        }
      }
    }
  }

  ghost predicate Added(srcRow: seq<Byte>, width: nat, outWidth: nat, x: nat, accum: seq<nat>, counts: seq<nat>,
                        accum': seq<nat>, counts': seq<nat>)
    requires |srcRow| == width && |accum| == |counts| == |accum'| == |counts'| == outWidth && x < outWidth
  {
    var (a, b) := Columns(width, outWidth, x);
    a < b <= width && accum'[x] == (accum[x] + RowSum(srcRow, a, b)) % WORD && counts'[x] == (counts[x] + (b - a)) % ONE
  }

  // The source pixels of one output column; if there are none, the nearest.
  method SumColumns(srcRow: seq<Byte>, width: nat, outWidth: nat, outX: nat) returns (sum: nat, count: nat)
    requires 0 < width == |srcRow| && 0 < outWidth < ONE && outX < outWidth
    ensures var (a, b) := Columns(width, outWidth, outX);
            a < b <= width && sum == RowSum(srcRow, a, b) && count == b - a
  {
    hide ScaleFor, Floor;
    var scale := ScaleFor(width, outWidth);
    ColumnsInBounds(width, outWidth, outX);
    var srcXStart := ColumnStart(scale, outX);
    var srcXEnd := ColumnStart(scale, outX + 1);
    sum, count := 0, 0;
    var srcX := srcXStart;
    while srcX < srcXEnd && srcX < width
      invariant srcXStart <= srcX && (srcX <= srcXEnd || srcX == srcXStart) && srcX <= width
      invariant sum == RowSum(srcRow, srcXStart, srcX) && count == srcX - srcXStart
    {
      sum := sum + srcRow[srcX] as nat;
      count := count + 1;
      srcX := srcX + 1;
    }
    if count == 0 && srcXStart < width {
      sum := srcRow[srcXStart] as nat;
      count := 1;
    }
  }

  // The gray values of an output row; the accumulators begin again.
  method EmitRow(outWidth: nat, rowAccum: array<nat>, rowCount: array<nat>) returns (row: seq<nat>)
    requires rowAccum.Length == rowCount.Length == outWidth && rowAccum != rowCount
    modifies rowAccum, rowCount
    ensures |row| == outWidth
    ensures forall x {:trigger row[x]} :: 0 <= x < outWidth ==>
      row[x] == (if old(rowCount[x]) > 0 then old(rowAccum[x]) / old(rowCount[x]) else 0) % 256
    ensures forall x {:trigger rowAccum[x]} {:trigger rowCount[x]} :: 0 <= x < outWidth ==> rowAccum[x] == 0 && rowCount[x] == 0
  {
    row := [];
    for x := 0 to outWidth
      invariant |row| == x
      invariant forall i {:trigger row[i]} :: 0 <= i < x ==>
        row[i] == (if old(rowCount[i]) > 0 then old(rowAccum[i]) / old(rowCount[i]) else 0) % 256
    {
      var gray := if rowCount[x] > 0 then rowAccum[x] / rowCount[x] else 0;
      row := row + [gray % 256];
    }
    Clear(rowAccum);
    Clear(rowCount);
  }

  method Clear(a: array<nat>)
    modifies a
    ensures forall i {:trigger a[i]} :: 0 <= i < a.Length ==> a[i] == 0
  {
    for i := 0 to a.Length
      invariant forall j {:trigger a[j]} :: 0 <= j < i ==> a[j] == 0
    {
      a[i] := 0;
    }
  }

  // The accumulators hold the source rows since the last output row.
  ghost predicate Accumulates(image: seq<seq<Byte>>, width: nat, outWidth: nat, accum: seq<nat>, counts: seq<nat>,
                              y0: nat, y: nat)
    requires Image(image, width) && 0 < width && 0 < outWidth < ONE && y0 <= y <= |image| && |accum| == |counts| == outWidth
  {
    forall x: nat {:trigger Holds(image, width, outWidth, accum, counts, y0, y, x)} ::
      x < outWidth ==> Holds(image, width, outWidth, accum, counts, y0, y, x)
  }

  ghost predicate Holds(image: seq<seq<Byte>>, width: nat, outWidth: nat, accum: seq<nat>, counts: seq<nat>, y0: nat,
                        y: nat, x: nat)
    requires Image(image, width) && 0 < width && 0 < outWidth < ONE && y0 <= y <= |image| && |accum| == |counts| == outWidth && x < outWidth
  {
    var (a, b) := Columns(width, outWidth, x);
    && a < b <= width
    && accum[x] == BlockSum(image, width, y0, y, a, b) % WORD
    && counts[x] == ((y - y0) * (b - a)) % ONE
  }

  lemma {:induction false} NothingHeld(image: seq<seq<Byte>>, width: nat, outWidth: nat, accum: seq<nat>,
                                       counts: seq<nat>, y: nat)
    requires Image(image, width) && 0 < width && 0 < outWidth < ONE && y <= |image| && |accum| == |counts| == outWidth
    requires forall x {:trigger accum[x]} {:trigger counts[x]} :: 0 <= x < outWidth ==> accum[x] == 0 && counts[x] == 0
    ensures Accumulates(image, width, outWidth, accum, counts, y, y)
  {
    hide ScaleFor, ColumnStart, ColumnEnd;
    forall x: nat | x < outWidth
      ensures Holds(image, width, outWidth, accum, counts, y, y, x)
    {
      ColumnsInBounds(width, outWidth, x);
    }
  }

  lemma {:induction false} RowHeld(image: seq<seq<Byte>>, width: nat, outWidth: nat, accum: seq<nat>, counts: seq<nat>,
                                   accum': seq<nat>, counts': seq<nat>, y0: nat, y: nat)
    requires Image(image, width) && 0 < width && 0 < outWidth < ONE && y0 <= y < |image|
    requires |accum| == |counts| == |accum'| == |counts'| == outWidth
    requires Accumulates(image, width, outWidth, accum, counts, y0, y)
    requires forall x: nat {:trigger Added(image[y], width, outWidth, x, accum, counts, accum', counts')} ::
               x < outWidth ==> Added(image[y], width, outWidth, x, accum, counts, accum', counts')
    ensures Accumulates(image, width, outWidth, accum', counts', y0, y + 1)
  {
    hide Holds, Added;
    var next := y + 1;
    forall x: nat | x < outWidth
      ensures Holds(image, width, outWidth, accum', counts', y0, next, x)
    {
      ColumnHeld(image, width, outWidth, accum, counts, accum', counts', y0, y, x);
    }
  }

  lemma {:induction false} ColumnHeld(image: seq<seq<Byte>>, width: nat, outWidth: nat, accum: seq<nat>,
                                      counts: seq<nat>,
                                      accum': seq<nat>, counts': seq<nat>, y0: nat, y: nat, x: nat)
    requires Image(image, width) && 0 < width && 0 < outWidth < ONE && y0 <= y < |image| && x < outWidth
    requires |accum| == |counts| == |accum'| == |counts'| == outWidth
    requires Holds(image, width, outWidth, accum, counts, y0, y, x)
    requires Added(image[y], width, outWidth, x, accum, counts, accum', counts')
    ensures Holds(image, width, outWidth, accum', counts', y0, y + 1, x)
  {
    hide Columns, RowSum, BlockSum;
    var (a, b) := Columns(width, outWidth, x);
    BlockSumStep(image, width, y0, y, a, b);
    ModAdd(BlockSum(image, width, y0, y, a, b), RowSum(image[y], a, b), WORD);
    CountStep(y0, y, a, b);
  }

  lemma {:induction false} BlockSumStep(image: seq<seq<Byte>>, width: nat, y0: nat, y: nat, a: nat, b: nat)
    requires Image(image, width) && y0 <= y < |image| && a <= b <= width
    ensures BlockSum(image, width, y0, y + 1, a, b) == BlockSum(image, width, y0, y, a, b) + RowSum(image[y], a, b)
  {
  }

  lemma {:induction false} CountStep(y0: nat, y: nat, a: nat, b: nat)
    requires y0 <= y && a <= b
    ensures (((y - y0) * (b - a)) % ONE + (b - a)) % ONE == ((y + 1 - y0) * (b - a)) % ONE
  {
    Distribute(b - a, y - y0, 1);
    Nonnegative(y - y0, b - a);
    ModAdd((y - y0) * (b - a), b - a, ONE);
  }

  // An output row has the gray values of its blocks.
  ghost predicate RowIs(image: seq<seq<Byte>>, width: nat, outWidth: nat, outHeight: nat, j: nat, row: seq<nat>)
    requires Legal(image, width, outWidth, outHeight) && j < Rows(|image|, outHeight)
  {
    && |row| == outWidth
    && forall x: nat {:trigger BlockAt(width, |image|, outWidth, outHeight, x, j)} :: x < outWidth ==>
         var b := BlockAt(width, |image|, outWidth, outHeight, x, j);
         Inside(b, width, |image|) && row[x] == Gray(image, width, b)
  }

  lemma {:induction false} EmittedRow(image: seq<seq<Byte>>, width: nat, outWidth: nat, outHeight: nat, j: nat,
                                      accum: seq<nat>, counts: seq<nat>, row: seq<nat>)
    requires Legal(image, width, outWidth, outHeight) && j < Rows(|image|, outHeight) && |accum| == |counts| == |row| == outWidth
    requires var s := ScaleFor(|image|, outHeight);
             && RowStart(s, j) <= RowStart(s, j + 1) <= |image|
             && Accumulates(image, width, outWidth, accum, counts, RowStart(s, j), RowStart(s, j + 1))
    requires forall x {:trigger row[x]} :: 0 <= x < outWidth ==> row[x] == (if counts[x] > 0 then accum[x] / counts[x] else 0) % 256
    ensures RowIs(image, width, outWidth, outHeight, j, row)
  {
    hide ScaleFor, RowStart, ColumnStart, ColumnEnd, BlockSum;
    forall x: nat | x < outWidth
      ensures var b := BlockAt(width, |image|, outWidth, outHeight, x, j);
              Inside(b, width, |image|) && row[x] == Gray(image, width, b)
    {
      BlockInside(width, |image|, outWidth, outHeight, x, j);
      var s := ScaleFor(|image|, outHeight);
      assert Holds(image, width, outWidth, accum, counts, RowStart(s, j), RowStart(s, j + 1), x);
    }
  }

  /** The scaling loop: as many rows as the header promises when the image is made smaller, and never more than the
      source has; every pixel has the gray value of its block. */
  method Scale(image: seq<seq<Byte>>, width: nat, outWidth: nat, outHeight: nat) returns (out: seq<seq<nat>>)
    requires Legal(image, width, outWidth, outHeight)
    ensures |out| == Rows(|image|, outHeight)
    ensures forall j: nat {:trigger out[j]} :: j < |out| ==> RowIs(image, width, outWidth, outHeight, j, out[j])
  {
    hide ScaleFor, RowStart, ColumnStart, ColumnEnd, BlockSum, RowIs, Accumulates, Columns, RowSum;
    var rowAccum, rowCount := new nat[outWidth](_ => 0), new nat[outWidth](_ => 0);
    var scale := ScaleFor(|image|, outHeight);
    var currentOutY: nat := 0;
    var nextOutY_srcStart := scale;
    out := [];
    RowsPartition(|image|, outHeight, 0);
    NothingHeld(image, width, outWidth, rowAccum[..], rowCount[..], 0);
    for y := 0 to |image|
      invariant |out| == currentOutY <= Rows(|image|, outHeight) && nextOutY_srcStart == (currentOutY + 1) * scale
      invariant RowStart(scale, currentOutY) <= y
      invariant currentOutY < Rows(|image|, outHeight) ==> y < RowStart(scale, currentOutY + 1)
      invariant currentOutY == Rows(|image|, outHeight) ==> y == |image|
      invariant Accumulates(image, width, outWidth, rowAccum[..], rowCount[..], RowStart(scale, currentOutY), y)
      invariant forall j: nat {:trigger out[j]} :: j < |out| ==> RowIs(image, width, outWidth, outHeight, j, out[j])
    {
      ghost var accum, counts := rowAccum[..], rowCount[..];
      AccumulateRow(image[y], width, outWidth, rowAccum, rowCount);
      RowHeld(image, width, outWidth, accum, counts, rowAccum[..], rowCount[..], RowStart(scale, currentOutY), y);
      RowsInBounds(|image|, outHeight, currentOutY);
      EmitsAtBoundary(scale, currentOutY, y);
      var srcY_fp := (y + 1) * ONE;
      if srcY_fp >= nextOutY_srcStart && currentOutY < outHeight {
        accum, counts := rowAccum[..], rowCount[..];
        var row := EmitRow(outWidth, rowAccum, rowCount);
        EmittedRow(image, width, outWidth, outHeight, currentOutY, accum, counts, row);
        out := out + [row];
        currentOutY := currentOutY + 1;
        nextOutY_srcStart := (currentOutY + 1) * scale;
        RowsPartition(|image|, outHeight, currentOutY);
        NothingHeld(image, width, outWidth, rowAccum[..], rowCount[..], y + 1);
      }
    }
    RowsInBoundsAtEnd(|image|, outHeight, currentOutY);
  }

  // With the source used up no output row is begun.
  lemma {:induction false} RowsInBoundsAtEnd(height: nat, outHeight: nat, j: nat)
    requires 0 < outHeight < ONE && 0 < height && j <= Rows(height, outHeight)
    ensures j < Rows(height, outHeight) ==> RowStart(ScaleFor(height, outHeight), j + 1) <= height
  {
    hide RowStart, ScaleFor;
    if j < Rows(height, outHeight) {
      RowsInBounds(height, outHeight, j);
    }
  }
}
