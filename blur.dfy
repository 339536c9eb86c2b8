/**
 * The pixelation of `blur` and `blurlock`: an RGB image buffer is cut into bands of
 * `scale` rows; in each band the middle row is pixelated in place, group of
 * `scale` pixels by group, and then copied into every row of the band of the
 * target buffer. Both binaries share this code.
 *
 * The row-major byte buffer is modelled as a grid of pixels, `height` rows of
 * `width` pixels: a pixel is `Rgb::<u8>::CHANNEL_COUNT` = 3 bytes, and every slice
 * the source takes is a whole number of rows (a band of `width * 3 * scale` bytes,
 * a row of `width * 3`) or of pixels inside one row (a group of `scale * 3` bytes, a
 * pixel of 3). Each `clone_from_slice` of 3 bytes is one pixel assignment.
 */
module Blur {
  import opened Arith

  newtype u8 = x: int | 0 <= x < 256

  /** `Rgb<u8>`. */
  datatype Pixel = Pixel(r: u8, g: u8, b: u8)

  /**
   * The pixel whose colour pixel `q` of a row of `width` pixels takes in step 1: in
   * a full group of `scale` pixels, the group's pixel `scale / 2`; among the
   * `width % scale` pixels left over, the first of them.
   */
  function SourcePixel(q: nat, width: nat, scale: nat): (r: nat)
    requires scale > 0
    ensures q < width ==> r < width
  {
    var groupStart := q - Remainder(q, scale);
    if groupStart + scale <= width then groupStart + scale / 2 else groupStart
  }

  /** The first `n` pixels of the middle row after step 1. */
  function PixelatedPrefix(row: seq<Pixel>, scale: nat, n: nat): (r: seq<Pixel>)
    requires scale > 0 && n <= |row|
    ensures |r| == n
  {
    if n == 0 then [] else PixelatedPrefix(row, scale, n - 1) + [row[SourcePixel(n - 1, |row|, scale)]]
  }

  /** The middle row after step 1. */
  function Pixelate(row: seq<Pixel>, scale: nat): (r: seq<Pixel>)
    requires scale > 0
    ensures |r| == |row|
  {
    PixelatedPrefix(row, scale, |row|)
  }

  /** Every pixel of the middle row takes the colour of its source pixel. */
  lemma {:induction false} PixelateIndex(row: seq<Pixel>, scale: nat, q: nat)
    requires scale > 0 && q < |row|
    ensures Pixelate(row, scale)[q] == row[SourcePixel(q, |row|, scale)]
  {
    PrefixIndex(row, scale, |row|, q);
  }

  lemma {:induction false} PrefixIndex(row: seq<Pixel>, scale: nat, n: nat, q: nat)
    requires scale > 0 && q < n <= |row|
    ensures PixelatedPrefix(row, scale, n)[q] == row[SourcePixel(q, |row|, scale)]
    decreases n
  {
    if q < n - 1 {
      PrefixIndex(row, scale, n - 1, q);
    }
  }

  /** Inside a group that starts at a multiple of `scale`, the remainder counts up from zero. */
  lemma {:induction false} RemainderInGroup(p: nat, i: nat, scale: nat)
    requires scale > 0 && Remainder(p, scale) == 0 && i < scale
    ensures Remainder(p + i, scale) == i
    decreases p
  {
    if p > 0 {
      RemainderInGroup(p - scale, i, scale);
    }
  }

  /** Taking off the remainder leaves a multiple of `scale`: where a group, the leftover pixels or a band start. */
  lemma {:induction false} RoundedDown(width: nat, scale: nat)
    requires scale > 0
    ensures Remainder(width - Remainder(width, scale), scale) == 0
    decreases width
  {
    if width >= scale {
      RoundedDown(width - scale, scale);
      assert width - Remainder(width, scale) == scale + (width - scale - Remainder(width - scale, scale));
    }
  }

  /**
   * Pixel `i` of the full group starting at pixel `p` (a multiple of `scale`) takes
   * the colour of the group's pixel `scale / 2`.
   */
  lemma {:induction false} PixelateGroup(row: seq<Pixel>, scale: nat, p: nat, i: nat)
    requires scale > 0 && Remainder(p, scale) == 0 && p + scale <= |row| && i < scale
    ensures Pixelate(row, scale)[p + i] == row[p + scale / 2]
  {
    RemainderInGroup(p, i, scale);
    PixelateIndex(row, scale, p + i);
  }

  /**
   * Every pixel left over after the full groups takes the colour of the first
   * leftover pixel; a single leftover pixel therefore keeps its own colour.
   */
  lemma {:induction false} PixelateLeftover(row: seq<Pixel>, scale: nat, q: nat)
    requires scale > 0 && |row| - Remainder(|row|, scale) <= q < |row|
    ensures Pixelate(row, scale)[q] == row[|row| - Remainder(|row|, scale)]
  {
    var first := |row| - Remainder(|row|, scale);
    RoundedDown(|row|, scale);
    RemainderInGroup(first, q - first, scale);
    PixelateIndex(row, scale, q);
  }

  /** The source pixel of a source pixel is itself. */
  lemma {:induction false} SourcePixelFixed(q: nat, width: nat, scale: nat)
    requires scale > 0 && q < width
    ensures SourcePixel(SourcePixel(q, width, scale), width, scale) == SourcePixel(q, width, scale)
  {
    var groupStart := q - Remainder(q, scale);
    RoundedDown(q, scale);
    if groupStart + scale <= width {
      RemainderInGroup(groupStart, scale / 2, scale);
    } else {
      RemainderInGroup(groupStart, 0, scale);
    }
  }

  /** Pixelating a pixelated row changes nothing. */
  lemma {:induction false} PixelateIdempotent(row: seq<Pixel>, scale: nat)
    requires scale > 0
    ensures Pixelate(Pixelate(row, scale), scale) == Pixelate(row, scale)
  {
    var once := Pixelate(row, scale);
    forall q | 0 <= q < |row|
      ensures Pixelate(once, scale)[q] == once[q]
    {
      var src := SourcePixel(q, |row|, scale);
      PixelateIndex(once, scale, q);
      PixelateIndex(row, scale, src);
      PixelateIndex(row, scale, q);
      SourcePixelFixed(q, |row|, scale);
    }
  }

  /** `n` copies of `row`. */
  function Copies(row: seq<Pixel>, n: nat): (r: seq<seq<Pixel>>)
    ensures |r| == n
  {
    if n == 0 then [] else Copies(row, n - 1) + [row]
  }

  lemma {:induction false} CopiesIndex(row: seq<Pixel>, n: nat, k: nat)
    requires k < n
    ensures Copies(row, n)[k] == row
    decreases n
  {
    if k < n - 1 {
      CopiesIndex(row, n - 1, k);
    }
  }

  /** The number of rows of the band starting at row `start` of an image of `height` rows. */
  function BandRows(start: nat, height: nat, scale: nat): nat
    requires start <= height
  {
    if height - start < scale then height - start else scale
  }

  /**
   * The rows `blur_image` writes from row `lo` on: bands of `scale` rows, the last
   * one possibly shorter; every row of a band is the band's middle row after step 1.
   */
  function BlurredFrom(image: seq<seq<Pixel>>, scale: nat, lo: nat): (r: seq<seq<Pixel>>)
    requires scale > 0 && lo <= |image|
    ensures |r| == |image| - lo
    decreases |image| - lo
  {
    if lo == |image| then []
    else
      var rows := BandRows(lo, |image|, scale);
      Copies(Pixelate(image[lo + rows / 2], scale), rows) + BlurredFrom(image, scale, lo + rows)
  }

  /** The target image. */
  function Blurred(image: seq<seq<Pixel>>, scale: nat): seq<seq<Pixel>>
    requires scale > 0
  {
    BlurredFrom(image, scale, 0)
  }

  /** The first row of the band holding row `i`. */
  function BandStart(i: nat, scale: nat): nat
    requires scale > 0
  {
    i - Remainder(i, scale)
  }

  /**
   * The middle row of the band holding row `i`: the band starts at the multiple of
   * `scale` at or below `i` and has `scale` rows, or fewer at the bottom of the image.
   */
  function MiddleRow(i: nat, height: nat, scale: nat): (m: nat)
    requires scale > 0 && i < height
    ensures BandStart(i, scale) <= i < BandStart(i, scale) + BandRows(BandStart(i, scale), height, scale) <= height
    ensures BandStart(i, scale) <= m < BandStart(i, scale) + BandRows(BandStart(i, scale), height, scale)
  {
    var start := BandStart(i, scale);
    start + BandRows(start, height, scale) / 2
  }

  /** Every row of the band that starts at `lo`, a multiple of `scale`, has the band's middle row. */
  lemma {:induction false} MiddleOfBand(lo: nat, i: nat, height: nat, scale: nat)
    requires scale > 0 && lo < height && Remainder(lo, scale) == 0 && lo <= i < lo + BandRows(lo, height, scale)
    ensures MiddleRow(i, height, scale) == lo + BandRows(lo, height, scale) / 2
  {
    RemainderInGroup(lo, i - lo, scale);
  }

  /** Row `i` of the target is the pixelated middle row of the band holding it. */
  lemma {:induction false} BlurredRow(image: seq<seq<Pixel>>, scale: nat, i: nat)
    requires scale > 0 && i < |image|
    ensures Blurred(image, scale)[i] == Pixelate(image[MiddleRow(i, |image|, scale)], scale)
  {
    BlurredFromRow(image, scale, 0, i);
  }

  lemma {:induction false} BlurredFromRow(image: seq<seq<Pixel>>, scale: nat, lo: nat, i: nat)
    requires scale > 0 && Remainder(lo, scale) == 0 && lo <= i < |image|
    ensures BlurredFrom(image, scale, lo)[i - lo] == Pixelate(image[MiddleRow(i, |image|, scale)], scale)
    decreases |image| - lo
  {
    var rows := BandRows(lo, |image|, scale);
    if i < lo + rows {
      FirstBandRow(image, scale, lo, i);
    } else {
      var next := lo + rows;
      assert Remainder(next, scale) == Remainder(lo, scale);
      BlurredFromRow(image, scale, next, i);
      LaterBandRow(image, scale, lo, next, i);
    }
  }

  /** A row of the band starting at `lo`: the band's pixelated middle row. */
  lemma {:induction false} FirstBandRow(image: seq<seq<Pixel>>, scale: nat, lo: nat, i: nat)
    requires scale > 0 && lo < |image| && Remainder(lo, scale) == 0 && lo <= i < lo + BandRows(lo, |image|, scale)
    ensures BlurredFrom(image, scale, lo)[i - lo] == Pixelate(image[MiddleRow(i, |image|, scale)], scale)
  {
    var rows := BandRows(lo, |image|, scale);
    MiddleOfBand(lo, i, |image|, scale);
    CopiesIndex(Pixelate(image[lo + rows / 2], scale), rows, i - lo);
  }

  /** A row below the band starting at `lo` is the row the later bands give it. */
  lemma {:induction false} LaterBandRow(image: seq<seq<Pixel>>, scale: nat, lo: nat, next: nat, i: nat)
    requires scale > 0 && lo < |image| && next == lo + BandRows(lo, |image|, scale) && next <= i < |image|
    ensures BlurredFrom(image, scale, lo)[i - lo] == BlurredFrom(image, scale, next)[i - next]
  {
  }

  /**
   * Pixel `j` of row `i` of the target: the colour, in the middle row of the band
   * holding row `i`, of the pixel that step 1 copies to column `j`.
   */
  lemma {:induction false} BlurredPixel(image: seq<seq<Pixel>>, scale: nat, width: nat, i: nat, j: nat)
    requires scale > 0 && i < |image| && j < width
    requires forall k :: 0 <= k < |image| ==> |image[k]| == width
    ensures |Blurred(image, scale)[i]| == width
    ensures Blurred(image, scale)[i][j] == image[MiddleRow(i, |image|, scale)][SourcePixel(j, width, scale)]
  {
    BlurredRow(image, scale, i);
    PixelateIndex(image[MiddleRow(i, |image|, scale)], scale, j);
  }

  /** The middle row of a band is its own middle row. */
  lemma {:induction false} MiddleRowFixed(i: nat, height: nat, scale: nat)
    requires scale > 0 && i < height
    ensures MiddleRow(MiddleRow(i, height, scale), height, scale) == MiddleRow(i, height, scale)
  {
    var start := BandStart(i, scale);
    RoundedDown(i, scale);
    RemainderInGroup(start, BandRows(start, height, scale) / 2, scale);
  }

  /** Blurring a blurred image changes nothing. */
  lemma {:induction false} BlurIdempotent(image: seq<seq<Pixel>>, scale: nat)
    requires scale > 0
    ensures Blurred(Blurred(image, scale), scale) == Blurred(image, scale)
  {
    var once := Blurred(image, scale);
    forall i | 0 <= i < |image|
      ensures Blurred(once, scale)[i] == once[i]
    {
      var m := MiddleRow(i, |image|, scale);
      BlurredRow(once, scale, i);
      BlurredRow(image, scale, m);
      BlurredRow(image, scale, i);
      MiddleRowFixed(i, |image|, scale);
      PixelateIdempotent(image[m], scale);
    }
  }

  /** An image whose every row is the pixelated middle row of its band is the target. */
  lemma {:induction false} BlurredByRows(image: seq<seq<Pixel>>, scale: nat, x: seq<seq<Pixel>>)
    requires scale > 0 && |x| == |image|
    requires forall i :: 0 <= i < |x| ==> x[i] == Pixelate(image[MiddleRow(i, |image|, scale)], scale)
    ensures x == Blurred(image, scale)
  {
    forall i | 0 <= i < |x|
      ensures x[i] == Blurred(image, scale)[i]
    {
      BlurredRow(image, scale, i);
    }
  }

  /** `for pixel in chunk.chunks_mut(3) { pixel.clone_from_slice(px) }` over `count` pixels of row `r` from `from`. */
  method FillPixels(a: array2<Pixel>, r: nat, from: nat, count: nat, px: Pixel)
    requires r < a.Length0 && from + count <= a.Length1
    modifies a
    ensures forall j :: from <= j < from + count ==> a[r, j] == px
    ensures forall j :: 0 <= j < a.Length1 && !(from <= j < from + count) ==> a[r, j] == old(a[r, j])
    ensures forall i, j :: 0 <= i < a.Length0 && 0 <= j < a.Length1 && i != r ==> a[i, j] == old(a[i, j])
  {
    for q := from to from + count
      invariant forall j :: from <= j < q ==> a[r, j] == px
      invariant forall j :: 0 <= j < a.Length1 && !(from <= j < q) ==> a[r, j] == old(a[r, j])
      invariant forall i, j :: 0 <= i < a.Length0 && 0 <= j < a.Length1 && i != r ==> a[i, j] == old(a[i, j])
    {
      a[r, q] := px;
    }
  }

  /**
   * Step 1 of `blur_row_chunk` on row `r`, whose pixels are `row`: the
   * `chunks_exact_mut` groups, then the remainder, which is filled only when it
   * holds more than one pixel.
   */
  method PixelateRow(a: array2<Pixel>, r: nat, scale: nat, ghost row: seq<Pixel>)
    requires scale > 0 && r < a.Length0 && |row| == a.Length1
    requires forall j :: 0 <= j < |row| ==> a[r, j] == row[j]
    modifies a
    ensures forall j :: 0 <= j < |row| ==> a[r, j] == Pixelate(row, scale)[j]
    ensures forall i, j :: 0 <= i < a.Length0 && 0 <= j < a.Length1 && i != r ==> a[i, j] == old(a[i, j])
  {
    var width := a.Length1;
    var p := 0;
    while width - p >= scale
      invariant p <= width && Remainder(p, scale) == 0
      invariant forall j :: 0 <= j < p ==> a[r, j] == Pixelate(row, scale)[j]
      invariant forall j :: p <= j < width ==> a[r, j] == row[j]
      invariant forall i, j :: 0 <= i < a.Length0 && 0 <= j < a.Length1 && i != r ==> a[i, j] == old(a[i, j])
      decreases width - p
    {
      GroupStep(a, r, row, scale, p);
      assert Remainder(p + scale, scale) == Remainder(p, scale);
      p := p + scale;
    }
    RemainderInGroup(p, width - p, scale);
    if width - p > 1 {
      var first := a[r, p];
      FillPixels(a, r, p, width - p, first);
      forall j | p <= j < width
        ensures a[r, j] == Pixelate(row, scale)[j]
      {
        PixelateLeftover(row, scale, j);
      }
    } else if p < width {
      PixelateLeftover(row, scale, p);
    }
  }

  /** One full group of row `r`: its pixel `scale / 2` is copied over all `scale` of its pixels. */
  method GroupStep(a: array2<Pixel>, r: nat, ghost row: seq<Pixel>, scale: nat, p: nat)
    requires scale > 0 && r < a.Length0 && |row| == a.Length1
    requires Remainder(p, scale) == 0 && p + scale <= |row|
    requires forall j :: 0 <= j < p ==> a[r, j] == Pixelate(row, scale)[j]
    requires forall j :: p <= j < |row| ==> a[r, j] == row[j]
    modifies a
    ensures forall j :: 0 <= j < p + scale ==> a[r, j] == Pixelate(row, scale)[j]
    ensures forall j :: p + scale <= j < |row| ==> a[r, j] == row[j]
    ensures forall i, j :: 0 <= i < a.Length0 && 0 <= j < a.Length1 && i != r ==> a[i, j] == old(a[i, j])
  {
    var middle := a[r, p + scale / 2];
    FillPixels(a, r, p, scale, middle);
    forall j | p <= j < p + scale
      ensures a[r, j] == Pixelate(row, scale)[j]
    {
      PixelateGroup(row, scale, p, j - p);
    }
  }

  /** `row.clone_from_slice(source_middle_row)`: row `r` of `target` becomes row `m` of `source`. */
  method CopyRow(source: array2<Pixel>, m: nat, target: array2<Pixel>, r: nat)
    requires source != target && m < source.Length0 && r < target.Length0 && source.Length1 == target.Length1
    modifies target
    ensures forall j :: 0 <= j < target.Length1 ==> target[r, j] == source[m, j]
    ensures forall i, j :: 0 <= i < target.Length0 && 0 <= j < target.Length1 && i != r ==> target[i, j] == old(target[i, j])
  {
    for j := 0 to target.Length1
      invariant forall k :: 0 <= k < j ==> target[r, k] == source[m, k]
      invariant forall i, k :: 0 <= i < target.Length0 && 0 <= k < target.Length1 && i != r ==> target[i, k] == old(target[i, k])
    {
      target[r, j] := source[m, j];
    }
  }

  /**
   * `blur_row_chunk` on the band of `rows` rows starting at row `lo`, whose pixels in
   * `source` are those of `image`: of the source only the band's middle row changes,
   * and it becomes that row pixelated; every row of the band in `target` becomes the
   * pixelated middle row.
   */
  method BlurRowChunk(source: array2<Pixel>, target: array2<Pixel>, lo: nat, rows: nat, scale: nat, ghost image: seq<seq<Pixel>>)
    requires source != target && source.Length0 == target.Length0 && source.Length1 == target.Length1
    requires scale > 0 && rows > 0 && lo + rows <= source.Length0 && lo + rows <= |image|
    requires forall i :: lo <= i < lo + rows ==> |image[i]| == source.Length1
    requires forall i, j :: lo <= i < lo + rows && 0 <= j < source.Length1 ==> source[i, j] == image[i][j]
    modifies source, target
    ensures forall i, j :: 0 <= i < source.Length0 && 0 <= j < source.Length1 && i != lo + rows / 2 ==> source[i, j] == old(source[i, j])
    ensures forall i, j :: i == lo + rows / 2 && 0 <= j < source.Length1 ==> source[i, j] == Pixelate(image[i], scale)[j]
    ensures forall i, j :: lo <= i < lo + rows && 0 <= j < target.Length1 ==> target[i, j] == Pixelate(image[lo + rows / 2], scale)[j]
    ensures forall i, j :: 0 <= i < target.Length0 && 0 <= j < target.Length1 && !(lo <= i < lo + rows) ==> target[i, j] == old(target[i, j])
  {
    var middle := lo + rows / 2;
    ghost var row := image[middle];
    PixelateRow(source, middle, scale, row);
    label Pixelated:
    for k := 0 to rows
      invariant unchanged@Pixelated(source)
      invariant forall i, j :: lo <= i < lo + k && 0 <= j < target.Length1 ==> target[i, j] == Pixelate(row, scale)[j]
      invariant forall i, j :: 0 <= i < target.Length0 && 0 <= j < target.Length1 && !(lo <= i < lo + k) ==> target[i, j] == old(target[i, j])
    {
      CopyRow(source, middle, target, lo + k);
    }
  }

  /**
   * `blur_image`, with the parallel band loop run in order: the target buffer starts
   * as zeros and receives every band; the result is the target's rows.
   */
  method BlurImage(image: seq<seq<Pixel>>, width: nat, scale: nat) returns (blurred: seq<seq<Pixel>>)
    requires scale > 0 && width > 0
    requires forall k :: 0 <= k < |image| ==> |image[k]| == width
    ensures blurred == Blurred(image, scale)
  {
    var height := |image|;
    var source := new Pixel[height, width]((i, j) requires 0 <= i < height && 0 <= j < width => image[i][j]);
    var target := new Pixel[height, width]((i, j) => Pixel(0, 0, 0));
    var lo := 0;
    while lo < height
      invariant lo <= height && (lo < height ==> Remainder(lo, scale) == 0)
      invariant forall i, j :: lo <= i < height && 0 <= j < width ==> source[i, j] == image[i][j]
      invariant forall i, j :: 0 <= i < lo && 0 <= j < width ==> target[i, j] == Pixelate(image[MiddleRow(i, height, scale)], scale)[j]
      decreases height - lo
    {
      var rows := if height - lo < scale then height - lo else scale;
      BandStep(source, target, image, lo, rows, scale);
      lo := lo + rows;
    }
    blurred := GridRows(target);
    forall i | 0 <= i < height
      ensures blurred[i] == Pixelate(image[MiddleRow(i, height, scale)], scale)
    {
      assert forall j :: 0 <= j < width ==> blurred[i][j] == Pixelate(image[MiddleRow(i, height, scale)], scale)[j];
    }
    BlurredByRows(image, scale, blurred);
  }

  /** `RgbImage::from_raw` on the target buffer: its rows, top to bottom. */
  method GridRows(a: array2<Pixel>) returns (rows: seq<seq<Pixel>>)
    ensures |rows| == a.Length0
    ensures forall i :: 0 <= i < a.Length0 ==> |rows[i]| == a.Length1
    ensures forall i, j :: 0 <= i < a.Length0 && 0 <= j < a.Length1 ==> rows[i][j] == a[i, j]
  {
    rows := seq(a.Length0, i requires 0 <= i < a.Length0 reads a => seq(a.Length1, j requires 0 <= j < a.Length1 reads a => a[i, j]));
  }

  /** One band of the loop in `blur_image`, and the invariant it keeps. */
  method BandStep(source: array2<Pixel>, target: array2<Pixel>, ghost image: seq<seq<Pixel>>, lo: nat, rows: nat, scale: nat)
    requires source != target && source.Length0 == target.Length0 == |image| && source.Length1 == target.Length1
    requires scale > 0 && lo < |image| && Remainder(lo, scale) == 0 && rows == BandRows(lo, |image|, scale)
    requires forall k :: 0 <= k < |image| ==> |image[k]| == source.Length1
    requires forall i, j :: lo <= i < |image| && 0 <= j < source.Length1 ==> source[i, j] == image[i][j]
    modifies source, target
    ensures lo + rows < |image| ==> Remainder(lo + rows, scale) == 0
    ensures forall i, j :: lo + rows <= i < |image| && 0 <= j < source.Length1 ==> source[i, j] == image[i][j]
    ensures forall i, j :: 0 <= i < lo && 0 <= j < target.Length1 ==> target[i, j] == old(target[i, j])
    ensures forall i, j :: lo <= i < lo + rows && 0 <= j < target.Length1 ==> target[i, j] == Pixelate(image[MiddleRow(i, |image|, scale)], scale)[j]
  {
    BlurRowChunk(source, target, lo, rows, scale, image);
    forall i | lo <= i < lo + rows
      ensures MiddleRow(i, |image|, scale) == lo + rows / 2
    {
      MiddleOfBand(lo, i, |image|, scale);
    }
    assert Remainder(lo + scale, scale) == Remainder(lo, scale);
  }
}
