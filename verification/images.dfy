/**
 * The depth image and normals image fillers: a single-channel float image
 * with the near range blanked out, and a four-channel float image copied
 * as it is.
 */
module Images {
  import opened Samples
  import RowMajor

  /** Bytes per 32-bit float. */
  const FloatSize: nat := 4

  /** The two image encodings the plugin produces: 32-bit float with one
      channel (depth) and with four channels (normals). */
  datatype Encoding = Float32C1 | Float32C4

  /** An image message; `data` holds the floats, `ByteLength` their size in
      bytes. */
  datatype Image = Image(
    encoding: Encoding,
    height: nat,
    width: nat,
    step: nat,
    isBigEndian: bool,
    data: seq<Sample>)

  function ByteLength(img: Image): nat {
    FloatSize * |img.data|
  }

  /** A depth sample as the depth image shows it: the sample when it lies
      beyond the cutoff, NaN otherwise. */
  function DepthPixel(s: Sample, cutoff: real): Sample {
    if Above(s, cutoff) then s else NaN
  }

  /** The depth image of a rows-by-cols frame, pixel by pixel. */
  function DepthImageOf(rows: nat, cols: nat, src: seq<Sample>, cutoff: real): Image
    requires rows * cols <= |src|
  {
    Image(Float32C1, rows, cols, FloatSize * cols, false,
          seq(rows * cols, k requires 0 <= k < rows * cols => DepthPixel(src[k], cutoff)))
  }

  /** The row-major fill loop: a running read index over the source, and
      the pixel of column i of row j written at i + j * cols, which in this
      traversal order is always the next position, so it is appended. */
  method FillDepthImageHelper(rows: nat, cols: nat, src: seq<Sample>, cutoff: real)
    returns (img: Image)
    requires rows * cols <= |src|
    ensures img == DepthImageOf(rows, cols, src, cutoff)
  {
    var dest: seq<Sample> := [];
    var index := 0;
    var j := 0;
    while j < rows
      invariant j <= rows
      invariant index == |dest| == j * cols <= rows * cols
      invariant forall k :: 0 <= k < |dest| ==> dest[k] == DepthPixel(src[k], cutoff)
    {
      var i := 0;
      while i < cols
        invariant i <= cols
        invariant index == |dest| == j * cols + i <= rows * cols
        invariant forall k :: 0 <= k < |dest| ==> dest[k] == DepthPixel(src[k], cutoff)
      {
        RowMajor.InRange(j, i, rows, cols);
        assert index < |src|;
        var depth := src[index];
        index := index + 1;
        if Above(depth, cutoff) {
          dest := dest + [depth];
        } else {
          dest := dest + [NaN];
        }
        i := i + 1;
      }
      RowMajor.NextRow(j, cols);
      RowMajor.MulMono(j + 1, rows, cols);
      j := j + 1;
    }
    img := Image(Float32C1, rows, cols, FloatSize * cols, false, dest);
  }

  /** Shape of the depth image, and its contents: the pixel at column i of
      row j is the source sample j * cols + i when that sample is strictly
      beyond the cutoff, NaN otherwise. */
  lemma DepthImageContents(rows: nat, cols: nat, src: seq<Sample>, cutoff: real)
    requires rows * cols <= |src|
    ensures var img := DepthImageOf(rows, cols, src, cutoff);
      && img.encoding == Float32C1 && !img.isBigEndian
      && img.height == rows && img.width == cols
      && img.step == 4 * cols
      && ByteLength(img) == rows * cols * 4
      && (forall j: nat, i: nat {:trigger RowMajor.Flat(j, i, cols)} :: j < rows && i < cols ==>
            RowMajor.Flat(j, i, cols) < rows * cols
            && img.data[RowMajor.Flat(j, i, cols)] == DepthPixel(src[RowMajor.Flat(j, i, cols)], cutoff))
  {
    forall j: nat, i: nat | j < rows && i < cols
      ensures RowMajor.Flat(j, i, cols) < rows * cols
    {
      RowMajor.InRange(j, i, rows, cols);
    }
  }

  /** A sample equal to the cutoff is dropped; one just beyond it is kept;
      NaN is dropped whatever the cutoff. */
  lemma CutoffBoundary(cutoff: real, v: real)
    requires v > cutoff
    ensures DepthPixel(Num(cutoff), cutoff) == NaN
    ensures DepthPixel(Num(v), cutoff) == Num(v)
    ensures DepthPixel(NaN, cutoff) == NaN
  {
  }

  /** The normals image: every float of the rows-by-cols four-channel frame
      copied unfiltered. */
  function FillNormalsImageHelper(rows: nat, cols: nat, src: seq<Sample>): (img: Image)
    requires rows * cols * 4 <= |src|
    ensures img.encoding == Float32C4 && !img.isBigEndian
    ensures img.height == rows && img.width == cols
    ensures img.step == 16 * cols
    ensures ByteLength(img) == rows * cols * 4 * FloatSize
    ensures |img.data| == rows * cols * 4
    ensures forall k :: 0 <= k < |img.data| ==> img.data[k] == src[k]
  {
    Image(Float32C4, rows, cols, 4 * FloatSize * cols, false, src[..rows * cols * 4])
  }

  /** Normals are not filtered: a pixel's four channels reach the image even
      when they are NaN or would fall under the depth cutoff. */
  lemma NormalsUnfiltered(rows: nat, cols: nat, src: seq<Sample>, p: nat, ch: nat, cutoff: real)
    requires rows * cols * 4 <= |src|
    requires p < rows * cols && ch < 4
    requires !Above(src[4 * p + ch], cutoff)
    ensures FillNormalsImageHelper(rows, cols, src).data[4 * p + ch] == src[4 * p + ch]
    ensures DepthPixel(src[4 * p + ch], cutoff) == NaN
  {
  }
}
