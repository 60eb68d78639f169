/**
 * The point cloud fillers: unprojection of a depth frame into x, y, z
 * records with a colour taken from the last camera image, and the copy of
 * a ready-made coloured cloud, which the plugin writes column by column.
 *
 * The trigonometric functions and the focal length are floating point; the
 * model keeps them as opaque values carried by a `Lens`, so that what is
 * tracked is which pixel index feeds which angle, not the angles' values.
 */
module PointCloud {
  import opened Samples
  import RowMajor

  /** `tan` and `atan2` as the C library computes them, and the focal length
      derived from the sensor's horizontal field of view. */
  datatype Lens = Lens(tan: real -> real, atan2: (real, real) -> real, focalLength: real)

  /** The `rgb` field of a record: its bytes 0, 1 and 2 written one by one
      from the camera image's pixel bytes in their image order, or a whole
      float copied from a coloured source cloud. The fields are named by
      byte position, not by colour: on a little-endian host the packed
      colour read back as `(rgb >> 16) & 0xff` for red is byte 2. */
  datatype Colour = Rgb(byte0: bv8, byte1: bv8, byte2: bv8) | Packed(bits: Sample)

  datatype Point = Point(x: Sample, y: Sample, z: Sample, rgb: Colour)

  /** The records of a cloud message in publication order, and its
      `is_dense` flag. */
  datatype Cloud = Cloud(isDense: bool, points: seq<Point>)

  // ---------------------------------------------------------------------
  // Unprojection of a depth frame

  /** Signed distance of pixel `index` from the centre of `count` pixels. */
  function FromCentre(index: nat, count: nat): real {
    index as real - 0.5 * (count - 1) as real
  }

  /** The horizontal angle of column i; zero for a one-column image. */
  function YawAngle(lens: Lens, cols: nat, i: nat): real {
    if cols > 1 then lens.atan2(FromCentre(i, cols), lens.focalLength) else 0.0
  }

  /** The vertical angle of row j; zero for a one-row image. */
  function PitchAngle(lens: Lens, rows: nat, j: nat): real {
    if rows > 1 then lens.atan2(FromCentre(j, rows), lens.focalLength) else 0.0
  }

  /** The colour of column i of row j, chosen by the camera image's size:
      three bytes per pixel, one grey byte per pixel, or no usable image. */
  function ColourAt(colour: seq<bv8>, rows: nat, cols: nat, j: nat, i: nat): Colour
    requires j < rows && i < cols
  {
    RowMajor.InRange(j, i, rows, cols);
    if |colour| == rows * cols * 3 then
      Rgb(colour[i * 3 + j * cols * 3], colour[i * 3 + j * cols * 3 + 1],
          colour[i * 3 + j * cols * 3 + 2])
    else if |colour| == rows * cols then
      Rgb(colour[i + j * cols], colour[i + j * cols], colour[i + j * cols])
    else
      Rgb(0, 0, 0)
  }

  /** One record: x and y from the depth and the two angles, z the depth
      itself; a depth not beyond the cutoff gives NaN in all three. */
  function Unproject(depth: Sample, yaw: real, pitch: real, rgb: Colour, cutoff: real, lens: Lens): Point {
    if Above(depth, cutoff) then
      Point(Scale(depth, lens.tan(yaw)), Scale(depth, lens.tan(pitch)), depth, rgb)
    else
      Point(NaN, NaN, NaN, rgb)
  }

  /** The record of column i of row j of a rows-by-cols depth frame. */
  function PixelRecord(rows: nat, cols: nat, src: seq<Sample>, colour: seq<bv8>,
                       cutoff: real, lens: Lens, j: nat, i: nat): Point
    requires j < rows && i < cols && rows * cols <= |src|
  {
    RowMajor.InRange(j, i, rows, cols);
    Unproject(src[j * cols + i], YawAngle(lens, cols, i), PitchAngle(lens, rows, j),
              ColourAt(colour, rows, cols, j, i), cutoff, lens)
  }

  /** The record with flat index k, k = j * cols + i. */
  function RecordAt(rows: nat, cols: nat, src: seq<Sample>, colour: seq<bv8>,
                    cutoff: real, lens: Lens, k: nat): Point
    requires k < rows * cols <= |src|
  {
    RowMajor.Cell(k, rows, cols);
    PixelRecord(rows, cols, src, colour, cutoff, lens, k / cols, k % cols)
  }

  /** The cloud of a depth frame, stated declaratively: one record per flat
      index, dense exactly when every sample lies beyond the cutoff. */
  function CloudOf(rows: nat, cols: nat, src: seq<Sample>, colour: seq<bv8>,
                   cutoff: real, lens: Lens): Cloud
    requires rows * cols <= |src|
  {
    Cloud(forall k :: 0 <= k < rows * cols ==> Above(src[k], cutoff),
          seq(rows * cols, k requires 0 <= k < rows * cols =>
                RecordAt(rows, cols, src, colour, cutoff, lens, k)))
  }

  /** The fill loop: rows outer, columns inner, one running read index, and
      a dense flag that only ever goes from true to false. */
  method FillPointCloudHelper(rows: nat, cols: nat, src: seq<Sample>, colour: seq<bv8>,
                              cutoff: real, lens: Lens)
    returns (cloud: Cloud)
    requires rows * cols <= |src|
    ensures cloud == CloudOf(rows, cols, src, colour, cutoff, lens)
  {
    var points: seq<Point> := [];
    var dense := true;
    var index := 0;
    var j := 0;
    while j < rows
      invariant j <= rows
      invariant index == |points| == j * cols <= rows * cols
      invariant forall k :: 0 <= k < |points| ==>
                  points[k] == RecordAt(rows, cols, src, colour, cutoff, lens, k)
      invariant dense <==> forall k :: 0 <= k < index ==> Above(src[k], cutoff)
    {
      var pAngle := PitchAngle(lens, rows, j);
      var i := 0;
      while i < cols
        invariant i <= cols
        invariant index == |points| == j * cols + i <= rows * cols
        invariant forall k :: 0 <= k < |points| ==>
                    points[k] == RecordAt(rows, cols, src, colour, cutoff, lens, k)
        invariant dense <==> forall k :: 0 <= k < index ==> Above(src[k], cutoff)
      {
        RowMajor.InRange(j, i, rows, cols);
        RowMajor.Split(j, i, cols);
        var yAngle := YawAngle(lens, cols, i);
        var depth := src[index];
        index := index + 1;
        if !Above(depth, cutoff) {
          dense := false;
        }
        points := points + [Unproject(depth, yAngle, pAngle, ColourAt(colour, rows, cols, j, i),
                                      cutoff, lens)];
        i := i + 1;
      }
      RowMajor.NextRow(j, cols);
      RowMajor.MulMono(j + 1, rows, cols);
      j := j + 1;
    }
    cloud := Cloud(dense, points);
  }

  /** One record per pixel, in row-major order: the cloud has rows * cols
      records, and the record at flat index j * cols + i is the
      unprojection of the sample at that same index, with the angles of row
      j and column i. */
  lemma CloudRowMajor(rows: nat, cols: nat, src: seq<Sample>, colour: seq<bv8>,
                      cutoff: real, lens: Lens, j: nat, i: nat)
    requires j < rows && i < cols && rows * cols <= |src|
    ensures |CloudOf(rows, cols, src, colour, cutoff, lens).points| == rows * cols
    ensures j * cols + i < rows * cols
    ensures CloudOf(rows, cols, src, colour, cutoff, lens).points[j * cols + i]
            == PixelRecord(rows, cols, src, colour, cutoff, lens, j, i)
  {
    RowMajor.InRange(j, i, rows, cols);
    RowMajor.Split(j, i, cols);
  }

  /** The invalid-point policy, record by record: a sample strictly beyond
      the cutoff gives z equal to the sample and finite x and y; any other
      sample (NaN included) gives NaN in x, y and z. */
  lemma PointValidity(rows: nat, cols: nat, src: seq<Sample>, colour: seq<bv8>,
                      cutoff: real, lens: Lens, k: nat)
    requires k < rows * cols <= |src|
    ensures var p := CloudOf(rows, cols, src, colour, cutoff, lens).points[k];
      if src[k].Num? && src[k].value > cutoff then
        p.z == src[k] && p.x.Num? && p.y.Num?
      else
        p.x.NaN? && p.y.NaN? && p.z.NaN?
  {
    RowMajor.Cell(k, rows, cols);
  }

  /** The dense flag agrees with the records: it is false exactly when some
      record has a NaN z. */
  lemma DenseIffNoNaNPoint(rows: nat, cols: nat, src: seq<Sample>, colour: seq<bv8>,
                           cutoff: real, lens: Lens)
    requires rows * cols <= |src|
    ensures var c := CloudOf(rows, cols, src, colour, cutoff, lens);
      !c.isDense <==> exists k :: 0 <= k < |c.points| && c.points[k].z.NaN?
  {
    var c := CloudOf(rows, cols, src, colour, cutoff, lens);
    if !c.isDense {
      var k :| 0 <= k < rows * cols && !Above(src[k], cutoff);
      PointValidity(rows, cols, src, colour, cutoff, lens, k);
    } else {
      forall k | 0 <= k < |c.points|
        ensures !c.points[k].z.NaN?
      {
        PointValidity(rows, cols, src, colour, cutoff, lens, k);
      }
    }
  }

  /** Degenerate and symmetric angles: a one-column image has yaw zero and a
      one-row image pitch zero; mirrored columns (rows) sit at opposite
      offsets from the centre. */
  lemma DegenerateAngles(lens: Lens, rows: nat, cols: nat, j: nat, i: nat)
    ensures cols == 1 ==> YawAngle(lens, cols, i) == 0.0
    ensures rows == 1 ==> PitchAngle(lens, rows, j) == 0.0
    ensures i < cols ==> FromCentre(cols - 1 - i, cols) == -FromCentre(i, cols)
    ensures j < rows ==> FromCentre(rows - 1 - j, rows) == -FromCentre(j, rows)
  {
  }

  /** The geometry of a valid record depends on the column only through the
      yaw and on the row only through the pitch. */
  lemma UnprojectionGeometry(rows: nat, cols: nat, src: seq<Sample>, colour: seq<bv8>,
                             cutoff: real, lens: Lens, j: nat, i: nat)
    requires j < rows && i < cols && rows * cols <= |src|
    ensures var p := PixelRecord(rows, cols, src, colour, cutoff, lens, j, i);
      p.z.Num? ==>
        p.x == Num(p.z.value * lens.tan(YawAngle(lens, cols, i)))
        && p.y == Num(p.z.value * lens.tan(PitchAngle(lens, rows, j)))
  {
  }

  /** The colour policy at flat index k: the three bytes at 3k for a
      three-channel image, the grey byte at k repeated for a one-channel
      image, black otherwise. */
  lemma ColourPolicy(rows: nat, cols: nat, src: seq<Sample>, colour: seq<bv8>,
                     cutoff: real, lens: Lens, k: nat)
    requires k < rows * cols <= |src|
    ensures var rgb := CloudOf(rows, cols, src, colour, cutoff, lens).points[k].rgb;
      if |colour| == 3 * (rows * cols) then
        3 * k + 2 < |colour| && rgb == Rgb(colour[3 * k], colour[3 * k + 1], colour[3 * k + 2])
      else if |colour| == rows * cols then
        rgb == Rgb(colour[k], colour[k], colour[k])
      else
        rgb == Rgb(0, 0, 0)
  {
    RowMajor.Cell(k, rows, cols);
  }

  /** A 4-by-4 frame at depth 1.0 beyond a 0.4 cutoff: sixteen valid records
      and a dense cloud. */
  lemma UniformFrameIsDense(colour: seq<bv8>, lens: Lens)
    ensures var src := seq(16, _ => Num(1.0));
      var c := CloudOf(4, 4, src, colour, 0.4, lens);
      c.isDense && |c.points| == 16
      && forall k :: 0 <= k < 16 ==> c.points[k].z == Num(1.0)
  {
    var src := seq(16, _ => Num(1.0));
    forall k | 0 <= k < 16
      ensures CloudOf(4, 4, src, colour, 0.4, lens).points[k].z == Num(1.0)
    {
      PointValidity(4, 4, src, colour, 0.4, lens, k);
    }
  }

  /** The same frame with one sample at 0.2: that record alone is NaN and
      the cloud is not dense. */
  lemma OneNearSampleBreaksDensity(colour: seq<bv8>, lens: Lens, m: nat)
    requires m < 16
    ensures var src := seq(16, k => if k == m then Num(0.2) else Num(1.0));
      var c := CloudOf(4, 4, src, colour, 0.4, lens);
      !c.isDense && c.points[m].x.NaN? && c.points[m].y.NaN? && c.points[m].z.NaN?
      && forall k :: 0 <= k < 16 && k != m ==> c.points[k].z == Num(1.0)
  {
    var src := seq(16, k => if k == m then Num(0.2) else Num(1.0));
    assert !Above(src[m], 0.4);
    forall k | 0 <= k < 16
      ensures var p := CloudOf(4, 4, src, colour, 0.4, lens).points[k];
        if k == m then p.z.NaN? && p.x.NaN? && p.y.NaN? else p.z == Num(1.0)
    {
      PointValidity(4, 4, src, colour, 0.4, lens, k);
    }
  }

  // ---------------------------------------------------------------------
  // Copy of a coloured source cloud

  /** The four floats x, y, z, rgb of source pixel p. */
  function RawRecord(pcd: seq<Sample>, p: nat): Point
    requires 4 * p + 3 < |pcd|
  {
    Point(pcd[4 * p], pcd[4 * p + 1], pcd[4 * p + 2], Packed(pcd[4 * p + 3]))
  }

  /** The source pixel feeding the n-th written record: n = i * height + j
      comes from row j, column i, that is pixel j * width + i. */
  function SourcePixel(width: nat, height: nat, n: nat): (p: nat)
    requires n < width * height
    ensures p < width * height
  {
    RowMajor.Cell(n, width, height);
    RowMajor.InRange(n % height, n / height, height, width);
    (n % height) * width + n / height
  }

  /** The copied cloud, declaratively: record n holds source pixel
      `SourcePixel(n)`; the cloud is declared dense whatever it holds. */
  function TransposedCloudOf(width: nat, height: nat, pcd: seq<Sample>): Cloud
    requires 4 * (width * height) <= |pcd|
  {
    Cloud(true, seq(width * height, n requires 0 <= n < width * height =>
                      RawRecord(pcd, SourcePixel(width, height, n))))
  }

  /** The copy loop: columns outer, rows inner, so consecutive records walk
      down a column of the source. */
  method CopyRgbPointCloud(width: nat, height: nat, pcd: seq<Sample>) returns (cloud: Cloud)
    requires 4 * (width * height) <= |pcd|
    ensures cloud == TransposedCloudOf(width, height, pcd)
  {
    var points: seq<Point> := [];
    var i := 0;
    while i < width
      invariant i <= width
      invariant |points| == i * height <= width * height
      invariant forall n :: 0 <= n < |points| ==>
                  points[n] == RawRecord(pcd, SourcePixel(width, height, n))
    {
      var j := 0;
      while j < height
        invariant j <= height
        invariant |points| == i * height + j <= width * height
        invariant forall n :: 0 <= n < |points| ==>
                    points[n] == RawRecord(pcd, SourcePixel(width, height, n))
      {
        RowMajor.InRange(j, i, height, width);
        RowMajor.InRange(i, j, width, height);
        RowMajor.Split(i, j, height);
        var index := j * width + i;
        points := points + [RawRecord(pcd, index)];
        j := j + 1;
      }
      RowMajor.NextRow(i, height);
      RowMajor.MulMono(i + 1, width, height);
      i := i + 1;
    }
    cloud := Cloud(true, points);
  }

  /** The copy is transposed: the record written n-th, n = i * height + j,
      holds the four floats at offset 4 * (j * width + i) of the source. */
  lemma TransposedContents(width: nat, height: nat, pcd: seq<Sample>, i: nat, j: nat)
    requires 4 * (width * height) <= |pcd|
    requires i < width && j < height
    ensures i * height + j < width * height && j * width + i < width * height
    ensures TransposedCloudOf(width, height, pcd).points[i * height + j]
            == RawRecord(pcd, j * width + i)
  {
    RowMajor.InRange(i, j, width, height);
    RowMajor.InRange(j, i, height, width);
    RowMajor.Split(i, j, height);
  }

  /** Where the copy writes source pixel p: row p / width, column
      p % width, hence record (p % width) * height + p / width. */
  function WrittenIndex(width: nat, height: nat, p: nat): (n: nat)
    requires p < width * height
    ensures n < width * height
  {
    RowMajor.Cell(p, height, width);
    RowMajor.InRange(p % width, p / width, width, height);
    (p % width) * height + p / width
  }

  /** No source pixel is lost or duplicated: distinct records come from
      distinct source pixels, and every pixel p is the one written at
      `WrittenIndex(p)`. */
  lemma TransposeIsPermutation(width: nat, height: nat, n1: nat, n2: nat, p: nat)
    requires n1 < width * height && n2 < width * height && p < width * height
    ensures SourcePixel(width, height, n1) == SourcePixel(width, height, n2) ==> n1 == n2
    ensures SourcePixel(width, height, WrittenIndex(width, height, p)) == p
  {
    SourcePixelSplits(width, height, n1);
    SourcePixelSplits(width, height, n2);
    if SourcePixel(width, height, n1) == SourcePixel(width, height, n2) {
      RowMajor.Cell(n1, width, height);
      RowMajor.Cell(n2, width, height);
    }
    WrittenOnce(width, height, p);
  }

  /** Row and column of the source pixel are recovered from its index. */
  lemma SourcePixelSplits(width: nat, height: nat, n: nat)
    requires n < width * height
    ensures SourcePixel(width, height, n) / width == n % height
    ensures SourcePixel(width, height, n) % width == n / height
  {
    RowMajor.Cell(n, width, height);
    RowMajor.Split(n % height, n / height, width);
  }

  lemma WrittenOnce(width: nat, height: nat, p: nat)
    requires p < width * height
    ensures SourcePixel(width, height, WrittenIndex(width, height, p)) == p
  {
    var j, i := p / width, p % width;
    RowMajor.Cell(p, height, width);
    var n := WrittenIndex(width, height, p);
    assert n == i * height + j;
    RowMajor.Split(i, j, height);
  }
}
