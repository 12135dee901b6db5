/** The integer pixel-grid part of the image preprocessor: the four-edge
    bounding-box search, the two feature exporters and the size bookkeeping of the
    normalisation pipeline. An image is a two-dimensional array indexed
    img[x, y]: Length0 is its width and Length1 its height. */
module Preprocessor {
  import opened Pixels

  type Image = array2<Pixel>

  /** Which lines a scan walks: whole columns (indexed by x) or whole rows (by y). */
  datatype Axis = Columns | Rows

  /** Forward scans start at line 0; backward scans start at the last line. */
  datatype Direction = Forward | Backward

  /** A rectangle as the preprocessor builds it: corner and extent. */
  datatype Rect = Rect(x: int, y: int, width: int, height: int)

  function LineCount(img: Image, axis: Axis): nat
  {
    if axis == Columns then img.Length0 else img.Length1
  }

  function LineLength(img: Image, axis: Axis): nat
  {
    if axis == Columns then img.Length1 else img.Length0
  }

  /** Pixel number `pos` of line number `line` on the given axis. */
  function PixelOf(img: Image, axis: Axis, line: int, pos: int): Pixel
    reads img
    requires 0 <= line < LineCount(img, axis) && 0 <= pos < LineLength(img, axis)
  {
    if axis == Columns then img[line, pos] else img[pos, line]
  }

  /** A line is blank when every one of its pixels is the background colour. */
  predicate BlankLine(img: Image, background: Pixel, axis: Axis, line: int)
    reads img
    requires 0 <= line < LineCount(img, axis)
  {
    forall pos :: 0 <= pos < LineLength(img, axis) ==> PixelOf(img, axis, line, pos) == background
  }

  /** Every line in [lo, hi) is blank. */
  predicate BlankLines(img: Image, background: Pixel, axis: Axis, lo: int, hi: int)
    reads img
    requires 0 <= lo && hi <= LineCount(img, axis)
  {
    forall line :: lo <= line < hi ==> BlankLine(img, background, axis, line)
  }

  predicate AllBackground(img: Image, background: Pixel)
    reads img
  {
    forall x, y :: 0 <= x < img.Length0 && 0 <= y < img.Length1 ==> img[x, y] == background
  }

  /** What one directional scan returns: the last blank line met before the first
      line that holds ink, or 0 when the very first line scanned holds ink (also
      for a backward scan, whose first line is the last one), or 0 when there are
      no lines at all. When every line is blank the scan ends on the last line it
      visits: n - 1 forwards, 0 backwards. */
  predicate IsScanResult(img: Image, background: Pixel, axis: Axis, dir: Direction, limit: int)
    reads img
  {
    var n := LineCount(img, axis);
    if n == 0 then limit == 0
    else match dir
      case Forward =>
        if !BlankLine(img, background, axis, 0) then limit == 0
        else
          && 0 <= limit < n
          && BlankLines(img, background, axis, 0, limit + 1)
          && (limit + 1 < n ==> !BlankLine(img, background, axis, limit + 1))
      case Backward =>
        if !BlankLine(img, background, axis, n - 1) then limit == 0
        else
          && 0 <= limit < n
          && BlankLines(img, background, axis, limit, n)
          && (limit > 0 ==> !BlankLine(img, background, axis, limit - 1))
  }

  /** The local scan helper of the bounding-box search, with the axis and the step
      direction as parameters. Both loops walk in the scan's direction; the inner
      one stops at the first ink pixel, the outer one at the first line that had
      one, and `limit` remembers the last line that had none. */
  method ScanLines(img: Image, background: Pixel, axis: Axis, dir: Direction) returns (limit: int)
    ensures IsScanResult(img, background, axis, dir, limit)
    ensures LineCount(img, axis) > 0 ==> 0 <= limit < LineCount(img, axis)
  {
    var n := LineCount(img, axis);
    var len := LineLength(img, axis);
    var increment := if dir == Forward then 1 else -1;
    limit := 0;
    var i := if dir == Forward then 0 else n - 1;
    while if dir == Forward then i < n else i >= 0
      invariant -1 <= i <= n
      invariant dir == Forward ==>
        0 <= i && BlankLines(img, background, axis, 0, i) && limit == (if i == 0 then 0 else i - 1)
      invariant dir == Backward ==>
        i < n && BlankLines(img, background, axis, i + 1, n) && limit == (if i == n - 1 then 0 else i + 1)
      decreases if dir == Forward then n - i else i + 1
    {
      var foundForegroundPixel := false;
      var j := if dir == Forward then 0 else len - 1;
      while if dir == Forward then j < len else j >= 0
        invariant -1 <= j <= len
        invariant dir == Forward ==>
          0 <= j && forall pos :: 0 <= pos < j ==> PixelOf(img, axis, i, pos) == background
        invariant dir == Backward ==>
          j < len && forall pos :: j < pos < len ==> PixelOf(img, axis, i, pos) == background
        invariant !foundForegroundPixel
        decreases if dir == Forward then len - j else j + 1
      {
        var pixel := if axis == Columns then img[i, j] else img[j, i];
        if IsInk(pixel, background) {
          assert PixelOf(img, axis, i, j) == pixel;
          foundForegroundPixel := true;
          break;
        }
        j := j + increment;
      }
      assert foundForegroundPixel <==> !BlankLine(img, background, axis, i);
      if foundForegroundPixel {
        break;
      }
      limit := i;
      i := i + increment;
    }
  }

  /** The rectangle the four scans describe: left and top from the forward scans,
      right and bottom (x + width, y + height) from the backward scans. */
  predicate IsBoundingBox(img: Image, background: Pixel, box: Rect)
    reads img
  {
    && IsScanResult(img, background, Columns, Forward, box.x)
    && IsScanResult(img, background, Rows, Forward, box.y)
    && IsScanResult(img, background, Columns, Backward, box.x + box.width)
    && IsScanResult(img, background, Rows, Backward, box.y + box.height)
  }

  method FindBoundingBox(img: Image, background: Pixel) returns (box: Rect)
    ensures IsBoundingBox(img, background, box)
  {
    var topLeftX := ScanLines(img, background, Columns, Forward);
    var topLeftY := ScanLines(img, background, Rows, Forward);
    var bottomRightX := ScanLines(img, background, Columns, Backward);
    var bottomRightY := ScanLines(img, background, Rows, Backward);
    box := Rect(topLeftX, topLeftY, bottomRightX - topLeftX, bottomRightY - topLeftY);
  }

  /** A scan result is fully determined by the image: the scan is deterministic
      and its specification leaves no choice. */
  lemma ScanResultUnique(img: Image, background: Pixel, axis: Axis, dir: Direction, a: int, b: int)
    requires IsScanResult(img, background, axis, dir, a)
    requires IsScanResult(img, background, axis, dir, b)
    ensures a == b
  {
  }

  /** Every line of an all-background image is blank, on either axis. */
  lemma AllBackgroundBlank(img: Image, background: Pixel, axis: Axis)
    requires AllBackground(img, background)
    ensures BlankLines(img, background, axis, 0, LineCount(img, axis))
  {
  }

  /** On an image of at least one pixel every corner of the rectangle the scans
      describe lies inside the image: left and right in [0, width - 1], top and
      bottom in [0, height - 1]. */
  lemma BoxCornersInImage(img: Image, background: Pixel, box: Rect)
    requires img.Length0 >= 1 && img.Length1 >= 1
    requires IsBoundingBox(img, background, box)
    ensures 0 <= box.x < img.Length0 && 0 <= box.x + box.width < img.Length0
    ensures 0 <= box.y < img.Length1 && 0 <= box.y + box.height < img.Length1
  {
  }

  /** The rectangle the scans produce on an image holding no ink at all. */
  function EmptyBox(img: Image): Rect
  {
    Rect(img.Length0 - 1, img.Length1 - 1, 1 - img.Length0, 1 - img.Length1)
  }

  /** With no ink anywhere, the forward scans run to the far edge, the backward
      scans run to line 0, and the rectangle is EmptyBox: its width and height
      are 1 - width and 1 - height, never positive. */
  lemma EmptyImageBox(img: Image, background: Pixel, box: Rect)
    requires img.Length0 >= 1 && img.Length1 >= 1
    requires AllBackground(img, background)
    requires IsBoundingBox(img, background, box)
    ensures box == EmptyBox(img)
    ensures box.width <= 0 && box.height <= 0
  {
    AllBackgroundBlank(img, background, Columns);
    AllBackgroundBlank(img, background, Rows);
    assert BlankLine(img, background, Columns, 0);
    assert BlankLine(img, background, Rows, 0);
    assert BlankLine(img, background, Columns, img.Length0 - 1);
    assert BlankLine(img, background, Rows, img.Length1 - 1);
    ScanFacts(img, background, Columns, box.x, box.x + box.width);
    ScanFacts(img, background, Rows, box.y, box.y + box.height);
  }

  /** The two scans along one axis of an image whose lines are all blank. */
  lemma ScanFacts(img: Image, background: Pixel, axis: Axis, first: int, last: int)
    requires LineCount(img, axis) >= 1
    requires BlankLines(img, background, axis, 0, LineCount(img, axis))
    requires IsScanResult(img, background, axis, Forward, first)
    requires IsScanResult(img, background, axis, Backward, last)
    ensures first == LineCount(img, axis) - 1 && last == 0
  {
    var n := LineCount(img, axis);
    assert BlankLine(img, background, axis, 0);
    assert BlankLine(img, background, axis, n - 1);
  }

  /** How the rectangle alone tells an empty image apart: it equals EmptyBox, and
      the image is not the one-pixel image whose only pixel is ink (whose
      rectangle is also EmptyBox). */
  predicate SignalsEmpty(img: Image, background: Pixel, box: Rect)
    reads img
    requires img.Length0 >= 1 && img.Length1 >= 1
  {
    box == EmptyBox(img) && (img.Length0 > 1 || img.Length1 > 1 || img[0, 0] == background)
  }

  /** A forward scan that ends on the last line, having started on a blank line,
      has seen only blank lines. */
  lemma ForwardScanToEnd(img: Image, background: Pixel, axis: Axis, limit: int)
    requires LineCount(img, axis) >= 1
    requires IsScanResult(img, background, axis, Forward, limit)
    requires limit == LineCount(img, axis) - 1 && BlankLine(img, background, axis, 0)
    ensures BlankLines(img, background, axis, 0, LineCount(img, axis))
  {
  }

  /** The empty-image test is exact: the rectangle signals an empty image if and
      only if no pixel differs from the background. */
  lemma EmptyImageDetected(img: Image, background: Pixel, box: Rect)
    requires img.Length0 >= 1 && img.Length1 >= 1
    requires IsBoundingBox(img, background, box)
    ensures SignalsEmpty(img, background, box) <==> AllBackground(img, background)
  {
    if AllBackground(img, background) {
      EmptyImageBox(img, background, box);
    }
    if SignalsEmpty(img, background, box) {
      forall x, y | 0 <= x < img.Length0 && 0 <= y < img.Length1
        ensures img[x, y] == background
      {
        if img.Length0 > 1 {
          assert BlankLine(img, background, Columns, 0);
          ForwardScanToEnd(img, background, Columns, box.x);
          assert BlankLine(img, background, Columns, x);
          assert PixelOf(img, Columns, x, y) == img[x, y];
        } else if img.Length1 > 1 {
          assert BlankLine(img, background, Rows, 0);
          ForwardScanToEnd(img, background, Rows, box.y);
          assert BlankLine(img, background, Rows, y);
          assert PixelOf(img, Rows, y, x) == img[x, y];
        }
      }
    }
  }

  /** Ink in the last column (row) makes the backward scan return 0, so the
      rectangle's right (bottom) edge is 0 and its width (height) is minus its
      left (top) edge: never positive, although the image is not empty. */
  lemma FarEdgeInkCollapsesBox(img: Image, background: Pixel, box: Rect)
    requires img.Length0 >= 1 && img.Length1 >= 1
    requires IsBoundingBox(img, background, box)
    ensures !BlankLine(img, background, Columns, img.Length0 - 1) ==> box.x + box.width == 0 && box.width <= 0
    ensures !BlankLine(img, background, Rows, img.Length1 - 1) ==> box.y + box.height == 0 && box.height <= 0
  {
  }

  /** When the ink stays clear of the last column and the last row, the rectangle
      has positive size, lies inside the image, and contains every ink pixel. Its
      trailing edge is the last ink line; its leading edge is the blank line just
      before the first ink line, or line 0 when that line holds ink. */
  lemma BoxEnclosesInk(img: Image, background: Pixel, box: Rect)
    requires !AllBackground(img, background)
    requires IsBoundingBox(img, background, box)
    requires img.Length0 >= 1 && img.Length1 >= 1
    requires BlankLine(img, background, Columns, img.Length0 - 1)
    requires BlankLine(img, background, Rows, img.Length1 - 1)
    ensures box.width > 0 && box.height > 0
    ensures 0 <= box.x && box.x + box.width <= img.Length0
    ensures 0 <= box.y && box.y + box.height <= img.Length1
    ensures forall x, y :: 0 <= x < img.Length0 && 0 <= y < img.Length1 && img[x, y] != background ==>
      box.x <= x < box.x + box.width && box.y <= y < box.y + box.height
    ensures !BlankLine(img, background, Columns, box.x + box.width - 1)
    ensures !BlankLine(img, background, Rows, box.y + box.height - 1)
    ensures box.x == 0 || (BlankLine(img, background, Columns, box.x) && !BlankLine(img, background, Columns, box.x + 1))
    ensures box.y == 0 || (BlankLine(img, background, Rows, box.y) && !BlankLine(img, background, Rows, box.y + 1))
  {
    var x0, y0 :| 0 <= x0 < img.Length0 && 0 <= y0 < img.Length1 && img[x0, y0] != background;
    forall x, y | 0 <= x < img.Length0 && 0 <= y < img.Length1 && img[x, y] != background
      ensures box.x <= x < box.x + box.width && box.y <= y < box.y + box.height
    {
      InkInsideScans(img, background, Columns, x, y, box.x, box.x + box.width);
      InkInsideScans(img, background, Rows, y, x, box.y, box.y + box.height);
    }
    InkInsideScans(img, background, Columns, x0, y0, box.x, box.x + box.width);
    InkInsideScans(img, background, Rows, y0, x0, box.y, box.y + box.height);
  }

  /** Along one axis: a line holding ink lies between the forward scan's result
      (inclusive) and the backward scan's result (exclusive), provided the last
      line is blank. */
  lemma InkInsideScans(img: Image, background: Pixel, axis: Axis, line: int, pos: int, first: int, last: int)
    requires 0 <= line < LineCount(img, axis) && 0 <= pos < LineLength(img, axis)
    requires PixelOf(img, axis, line, pos) != background
    requires BlankLine(img, background, axis, LineCount(img, axis) - 1)
    requires IsScanResult(img, background, axis, Forward, first)
    requires IsScanResult(img, background, axis, Backward, last)
    ensures first <= line < last
  {
    assert !BlankLine(img, background, axis, line);
  }

  /** Multiplying by a non-negative factor keeps an ordering. */
  lemma MulMonotone(d: int, a: int, b: int)
    requires d >= 0
    ensures a <= b ==> d * a <= d * b
  {
    assert d * b - d * a == d * (b - a);
  }

  /** Integer division and remainder are determined by their defining equation. */
  lemma DivModUnique(n: int, d: int, q: int, r: int)
    requires d > 0 && 0 <= r < d && n == q * d + r
    ensures n / d == q && n % d == r
  {
    var e := q - n / d;
    assert e * d == n % d - r;
    MulMonotone(d, 1, e);
    MulMonotone(d, e, -1);
    assert e >= 1 ==> d * e >= d;
    assert e <= -1 ==> d * e <= -d;
  }

  /** The row of flat index i in a row-major W-wide image, counted by
      subtracting whole rows. RowOf and ColumnOf are i / W and i % W
      (RowColumnOf); defining them by recursion keeps division out of the
      loop proofs of the exporters, where it makes the solver's work explode. */
  function RowOf(i: nat, width: nat): nat
    requires width > 0
    decreases i
  {
    if i < width then 0 else 1 + RowOf(i - width, width)
  }

  /** The column of flat index i in a row-major W-wide image. */
  function ColumnOf(i: nat, width: nat): nat
    requires width > 0
    decreases i
  {
    if i < width then i else ColumnOf(i - width, width)
  }

  /** Row and column of a flat index are its quotient and remainder by W. */
  lemma {:induction false} RowColumnOf(i: nat, width: nat)
    requires width > 0
    ensures RowOf(i, width) == i / width && ColumnOf(i, width) == i % width
    decreases i
  {
    if i >= width {
      RowColumnOf(i - width, width);
      DivModUnique(i, width, (i - width) / width + 1, (i - width) % width);
    } else {
      DivModUnique(i, width, 0, i);
    }
  }

  /** Every flat index below W * H names a pixel of a W x H image. */
  lemma FlatIndex(i: nat, width: nat, height: nat)
    requires i < width * height
    ensures width > 0 && RowOf(i, width) < height && ColumnOf(i, width) < width
  {
    assert width != 0;
    RowColumnOf(i, width);
    MulMonotone(width, height, i / width);
  }

  /** Pixel (k, j) of a W-wide image sits at flat index j * W + k. */
  lemma FlatIndexOf(j: nat, k: nat, width: nat, height: nat)
    requires j < height && k < width
    ensures 0 <= j * width + k < width * height
    ensures RowOf(j * width + k, width) == j && ColumnOf(j * width + k, width) == k
  {
    MulMonotone(width, 0, j);
    MulMonotone(width, j + 1, height);
    assert j * width + k < (j + 1) * width;
    DivModUnique(j * width + k, width, j, k);
    RowColumnOf(j * width + k, width);
  }

  /** Feature number i of an image flattened row by row: the inverted
      intensity of the pixel in column i % W of row i / W. */
  function FlatFeature(img: Image, i: nat): (v: int)
    reads img
    requires i < img.Length0 * img.Length1
    ensures 0 <= v <= 255
  {
    FlatIndex(i, img.Length0, img.Length1);
    InvertedIntensity(img[ColumnOf(i, img.Length0), RowOf(i, img.Length0)])
  }

  /** The flat feature at j * W + k is the inverted intensity of pixel (k, j). */
  lemma FlatFeatureAt(img: Image, j: nat, k: nat)
    requires j < img.Length1 && k < img.Length0
    ensures 0 <= j * img.Length0 + k < img.Length0 * img.Length1
    ensures FlatFeature(img, j * img.Length0 + k) == InvertedIntensity(img[k, j])
  {
    FlatIndexOf(j, k, img.Length0, img.Length1);
  }

  /** The flat index of the first pixel of row j, by repeated addition: the
      running index of the exporters' loops. It equals j * W (RowStartProduct);
      the loop invariants use this form to keep products out of their proofs. */
  function RowStart(j: nat, width: nat): nat
  {
    if j == 0 then 0 else RowStart(j - 1, width) + width
  }

  /** Row starts are the multiples of W. */
  lemma {:induction false} RowStartProduct(j: nat, width: nat)
    ensures RowStart(j, width) == j * width
  {
    if j > 0 {
      RowStartProduct(j - 1, width);
    }
  }

  /** Every row of the image ends within the W * H pixels. */
  lemma RowStartWithin(img: Image, j: nat)
    requires j < img.Length1
    ensures RowStart(j, img.Length0) + img.Length0 <= img.Length0 * img.Length1
  {
    RowStartProduct(j + 1, img.Length0);
    MulMonotone(img.Length0, j + 1, img.Length1);
  }

  /** The flat feature k places after the start of row j is pixel (k, j). */
  lemma FlatFeatureInRow(img: Image, j: nat, k: nat)
    requires j < img.Length1 && k < img.Length0
    ensures RowStart(j, img.Length0) + k < img.Length0 * img.Length1
    ensures FlatFeature(img, RowStart(j, img.Length0) + k) == InvertedIntensity(img[k, j])
  {
    RowStartProduct(j, img.Length0);
    FlatFeatureAt(img, j, k);
  }

  /** The integer feature vector: 784 entries, the first W * H of them the
      inverted intensities of the image read row by row, the rest left at 0. */
  method ConvertImageToArray(img: Image) returns (pixels: array<int>)
    requires img.Length0 * img.Length1 <= 28 * 28
    ensures fresh(pixels)
    ensures pixels.Length == 28 * 28
    ensures forall t :: 0 <= t < pixels.Length ==>
      pixels[t] == if t < img.Length0 * img.Length1 then FlatFeature(img, t) else 0
    ensures forall t :: 0 <= t < pixels.Length ==> 0 <= pixels[t] <= 255
  {
    pixels := new int[28 * 28](_ => 0);
    var width, height := img.Length0, img.Length1;
    var i := 0;
    for j := 0 to height
      invariant i == RowStart(j, width) <= width * height
      invariant forall t :: 0 <= t < i ==> pixels[t] == FlatFeature(img, t)
      invariant forall t :: i <= t < pixels.Length ==> pixels[t] == 0
    {
      RowStartWithin(img, j);
      i := ConvertRow(img, j, pixels, i);
    }
    RowStartProduct(height, width);
  }

  /** The inner loop of ConvertImageToArray: writes row j at the running index,
      which starts where row j starts, and leaves every later entry untouched. */
  method ConvertRow(img: Image, j: nat, pixels: array<int>, i0: nat) returns (i: nat)
    requires j < img.Length1 && i0 == RowStart(j, img.Length0)
    requires i0 + img.Length0 <= img.Length0 * img.Length1 <= pixels.Length
    requires forall t :: 0 <= t < i0 ==> pixels[t] == FlatFeature(img, t)
    modifies pixels
    ensures i == i0 + img.Length0
    ensures forall t :: 0 <= t < i ==> pixels[t] == FlatFeature(img, t)
    ensures forall t :: i <= t < pixels.Length ==> pixels[t] == old(pixels[t])
  {
    i := i0;
    for k := 0 to img.Length0
      invariant i == i0 + k
      invariant forall t :: 0 <= t < i ==> pixels[t] == FlatFeature(img, t)
      invariant forall t :: i <= t < pixels.Length ==> pixels[t] == old(pixels[t])
    {
      FlatFeatureInRow(img, j, k);
      pixels[i] := 255 - ((img[k, j].r + img[k, j].g + img[k, j].b) / 3);
      i := i + 1;
    }
  }

  /** The 28 x 28 floating-point grid: cell [j, k] holds the binarised value of
      pixel (k, j) inside the image and stays 0.0 outside it. */
  method ConvertImageToTwoDimensionalArray(img: Image) returns (pixels: array2<real>)
    requires img.Length0 <= 28 && img.Length1 <= 28
    ensures fresh(pixels)
    ensures pixels.Length0 == 28 && pixels.Length1 == 28
    ensures forall j, k :: 0 <= j < 28 && 0 <= k < 28 ==>
      pixels[j, k] == if j < img.Length1 && k < img.Length0 then Binarized(img[k, j]) else 0.0
    ensures forall j, k :: 0 <= j < 28 && 0 <= k < 28 ==> pixels[j, k] == 0.0 || pixels[j, k] == 1.0
  {
    pixels := new real[28, 28]((_, _) => 0.0);
    for j := 0 to img.Length1
      invariant forall j', k' :: 0 <= j' < 28 && 0 <= k' < 28 ==>
        pixels[j', k'] == if j' < j && k' < img.Length0 then Binarized(img[k', j']) else 0.0
    {
      for k := 0 to img.Length0
        invariant forall j', k' :: 0 <= j' < 28 && 0 <= k' < 28 ==>
          pixels[j', k'] == if (j' < j || (j' == j && k' < k)) && k' < img.Length0 then Binarized(img[k', j']) else 0.0
      {
        pixels[j, k] := ((255 - ((img[k, j].r + img[k, j].g + img[k, j].b) / 3)) / 255) as real;
      }
    }
  }

  /** Image sizes as the pipeline sees them. */
  datatype Size = Size(width: int, height: int)

  /** The size of the image after each normalisation step. */
  datatype Shapes = Shapes(box: Rect, cropped: Size, squared: Size, downscaled: Size, final: Size)

  /** How the normalisation ends: no ink found, a rectangle of non-positive size
      that cropping refuses, or the sizes of a completed run. */
  datatype Outcome = EmptyImage | DegenerateBox(box: Rect) | Normalized(shapes: Shapes)

  function Max(a: int, b: int): int
  {
    if a >= b then a else b
  }

  /** The normalisation pipeline at the level of image sizes. Its input is the
      image after the grey-scale, vignette and threshold filters; the crop, pad and
      resize filters are represented only by the size they produce. */
  method Preprocess(img: Image, palette: Palette) returns (r: Outcome)
    requires img.Length0 >= 1 && img.Length1 >= 1
    ensures r.EmptyImage? <==> AllBackground(img, palette.background)
    ensures r.DegenerateBox? ==>
      && IsBoundingBox(img, palette.background, r.box)
      && (r.box.width <= 0 || r.box.height <= 0)
    ensures r.Normalized? ==>
      var s := r.shapes;
      && IsBoundingBox(img, palette.background, s.box)
      && 0 < s.box.width && 0 < s.box.height
      && 0 <= s.box.x && s.box.x + s.box.width <= img.Length0
      && 0 <= s.box.y && s.box.y + s.box.height <= img.Length1
      && s.cropped == Size(s.box.width, s.box.height)
      && s.squared == Size(Max(s.box.width, s.box.height), Max(s.box.width, s.box.height))
      && s.downscaled == Size(20, 20)
      && s.final == Size(28, 28)
    ensures !AllBackground(img, palette.background)
         && BlankLine(img, palette.background, Columns, img.Length0 - 1)
         && BlankLine(img, palette.background, Rows, img.Length1 - 1)
         ==> r.Normalized?
  {
    var boundingBox := FindBoundingBox(img, palette.background);
    EmptyImageDetected(img, palette.background, boundingBox);
    BoxCornersInImage(img, palette.background, boundingBox);
    if !AllBackground(img, palette.background)
       && BlankLine(img, palette.background, Columns, img.Length0 - 1)
       && BlankLine(img, palette.background, Rows, img.Length1 - 1) {
      BoxEnclosesInk(img, palette.background, boundingBox);
    }
    if SignalsEmpty(img, palette.background, boundingBox) {
      return EmptyImage;
    }
    if boundingBox.width <= 0 || boundingBox.height <= 0 {
      return DegenerateBox(boundingBox);
    }
    var size := Size(boundingBox.width, boundingBox.height);
    var cropped := size;
    var maxWidthHeight := Max(size.width, size.height);
    size := Size(maxWidthHeight, maxWidthHeight);
    var squared := size;
    size := Size(20, 20);
    var downscaled := size;
    size := Size(28, 28);
    r := Normalized(Shapes(boundingBox, cropped, squared, downscaled, size));
  }
}
