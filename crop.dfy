/** The crop half of the post-detection stage of `run_mtcnn`: pad a selected
    box by half the margin on every side, clamp it to the image, store it as
    four `int32` values, slice that region out of the image and resize it. */
module Crop {
  import opened Numeric
  import opened Boxes

  /** `bb`: left, top, right, bottom, as the `int32` array holds them. */
  datatype CropBox = CropBox(left: int32, top: int32, right: int32, bottom: int32)

  /** `margin / 2` under true division. */
  function HalfMargin(margin: int): real {
    margin as real / 2.0
  }

  /** The four clamped, truncated edges of the crop for box `det`.  Each edge
      is clamped on its own; nothing orders `left` before `right`. */
  function CropRect(det: Box, margin: int, dims: ImageDims): (bb: CropBox)
    ensures bb.right as int <= dims.width && bb.bottom as int <= dims.height
    ensures det.x1 - HalfMargin(margin) < (MaxInt32 + 1) as real ==> 0 <= bb.left
    ensures det.y1 - HalfMargin(margin) < (MaxInt32 + 1) as real ==> 0 <= bb.top
    // an edge whose padding leaves the image sits on the image border
    ensures det.x1 - HalfMargin(margin) <= 0.0 ==> bb.left == 0
    ensures det.y1 - HalfMargin(margin) <= 0.0 ==> bb.top == 0
    ensures dims.width <= MaxInt32 && dims.width as real <= det.x2 + HalfMargin(margin) ==>
      bb.right as int == dims.width
    ensures dims.height <= MaxInt32 && dims.height as real <= det.y2 + HalfMargin(margin) ==>
      bb.bottom as int == dims.height
    // an edge whose padding stays inside the image is the padded edge, truncated
    ensures 0.0 <= det.x1 - HalfMargin(margin) < (MaxInt32 + 1) as real ==>
      bb.left as int == Trunc(det.x1 - HalfMargin(margin))
    ensures 0.0 <= det.y1 - HalfMargin(margin) < (MaxInt32 + 1) as real ==>
      bb.top as int == Trunc(det.y1 - HalfMargin(margin))
    ensures 0.0 <= det.x2 + HalfMargin(margin) <= dims.width as real && dims.width <= MaxInt32 ==>
      bb.right as int == Trunc(det.x2 + HalfMargin(margin))
    ensures 0.0 <= det.y2 + HalfMargin(margin) <= dims.height as real && dims.height <= MaxInt32 ==>
      bb.bottom as int == Trunc(det.y2 + HalfMargin(margin))
  {
    var h := HalfMargin(margin);
    var right := RealMin(det.x2 + h, dims.width as real);
    var bottom := RealMin(det.y2 + h, dims.height as real);
    CropBox(ToInt32(RealMax(det.x1 - h, 0.0)), ToInt32(RealMax(det.y1 - h, 0.0)),
            ToInt32(right), ToInt32(bottom))
  }

  /** Lines 81-85: a zeroed `int32` array of four entries, each overwritten
      with one clamped edge. */
  method NewCropBox(det: Box, margin: int, dims: ImageDims) returns (bb: array<int32>)
    ensures fresh(bb) && bb.Length == 4
    ensures var r := CropRect(det, margin, dims);
      bb[0] == r.left && bb[1] == r.top && bb[2] == r.right && bb[3] == r.bottom
  {
    bb := new int32[4](_ => 0);
    var h := HalfMargin(margin);
    bb[0] := ToInt32(RealMax(det.x1 - h, 0.0));
    bb[1] := ToInt32(RealMax(det.y1 - h, 0.0));
    bb[2] := ToInt32(RealMin(det.x2 + h, dims.width as real));
    bb[3] := ToInt32(RealMin(det.y2 + h, dims.height as real));
  }

  /** The pixel rows and columns of the source image a crop covers. */
  datatype Region = Region(rows: Extent, cols: Extent)

  /** `img[bb[1]:bb[3], bb[0]:bb[2], :]`, with Python's slicing rules. */
  function CroppedRegion(dims: ImageDims, bb: CropBox): (r: Region)
    ensures r.rows.lo <= r.rows.hi <= dims.height && r.cols.lo <= r.cols.hi <= dims.width
    ensures 0 <= bb.top <= bb.bottom && bb.bottom as int <= dims.height ==>
      r.rows == Extent(bb.top as int, bb.bottom as int)
    ensures 0 <= bb.left <= bb.right && bb.right as int <= dims.width ==>
      r.cols == Extent(bb.left as int, bb.right as int)
  {
    Region(PySlice(dims.height, bb.top as int, bb.bottom as int),
           PySlice(dims.width, bb.left as int, bb.right as int))
  }

  /** An aligned face: what `misc.imresize(cropped, (image_size, image_size))`
      returns, seen only through its shape and the region it was made from;
      the interpolated pixel values are not modelled. */
  datatype Patch = Patch(height: nat, width: nat, source: Region)

  function Resize(region: Region, imageSize: nat): Patch {
    Patch(imageSize, imageSize, region)
  }

  /** The patch the per-box loop produces for one selected box. */
  function AlignedPatch(det: Box, dims: ImageDims, margin: int, imageSize: nat): (p: Patch)
    ensures p.height == imageSize && p.width == imageSize
    ensures p.source.rows.hi <= dims.height && p.source.cols.hi <= dims.width
    ensures p.source == CroppedRegion(dims, CropRect(det, margin, dims))
  {
    Resize(CroppedRegion(dims, CropRect(det, margin, dims)), imageSize)
  }

  lemma {:induction false} TruncMonotone(a: real, b: real)
    requires 0.0 <= a <= b
    ensures Trunc(a) <= Trunc(b)
  {
    assert a.Floor <= b.Floor;
  }

  /** When the padded box lies inside the image, the crop is exactly the
      padded box with its edges truncated. */
  lemma {:induction false} InteriorCrop(det: Box, margin: int, dims: ImageDims)
    requires dims.width <= MaxInt32 && dims.height <= MaxInt32
    requires 0.0 <= det.x1 - HalfMargin(margin) <= det.x2 + HalfMargin(margin) <= dims.width as real
    requires 0.0 <= det.y1 - HalfMargin(margin) <= det.y2 + HalfMargin(margin) <= dims.height as real
    ensures var h := HalfMargin(margin);
      CroppedRegion(dims, CropRect(det, margin, dims)) ==
        Region(Extent(Trunc(det.y1 - h), Trunc(det.y2 + h)), Extent(Trunc(det.x1 - h), Trunc(det.x2 + h)))
  {
    var h := HalfMargin(margin);
    TruncMonotone(det.x1 - h, det.x2 + h);
    TruncMonotone(det.y1 - h, det.y2 + h);
  }

  /** A box entirely off the right of the image yields an empty crop: the
      source does not reject it. */
  lemma EmptyCropIsPossible()
    ensures var dims := ImageDims(200, 200);
      var bb := CropRect(Box(300.0, 0.0, 310.0, 10.0), 0, dims);
      bb.right < bb.left && CroppedRegion(dims, bb).cols.Length() == 0
  {
    var dims := ImageDims(200, 200);
    var bb := CropRect(Box(300.0, 0.0, 310.0, 10.0), 0, dims);
    assert bb.left == 300 && bb.right == 200;
  }

  /** Only the upper bound of `right` is clamped, so a right edge padded to
      the left of the image is a negative slice stop.  Padded to `(-1, 0)` it
      truncates to 0 and the crop is empty; padded into `(-width, -1]` it is
      read from the end of the row and the columns run from `left` to
      `width + right`; padded further left, the stop reads as 0 and the crop
      is empty again. */
  lemma {:induction false} RightEdgeLeftOfImage(det: Box, margin: int, dims: ImageDims)
    requires dims.width <= MaxInt32
    requires det.x1 - HalfMargin(margin) < (MaxInt32 + 1) as real
    requires det.x2 + HalfMargin(margin) < 0.0
    ensures var v := det.x2 + HalfMargin(margin);
      var bb := CropRect(det, margin, dims);
      var cols := CroppedRegion(dims, bb).cols;
      && bb.right <= 0
      && (-(dims.width as real) < v <= -1.0 ==>
            && bb.right as int == Trunc(v) < 0
            && (bb.left as int <= dims.width + bb.right as int ==>
                  cols == Extent(bb.left as int, dims.width + bb.right as int))
            && (dims.width + bb.right as int < bb.left as int ==> cols.Length() == 0))
      && (-1.0 < v || v <= -(dims.width as real) ==> cols.Length() == 0)
  {
    var bb := CropRect(det, margin, dims);
    NegativeStop(dims.width, bb.left as int, det.x2 + HalfMargin(margin));
  }

  /** The same holds for a bottom edge padded above the image. */
  lemma {:induction false} BottomEdgeAboveImage(det: Box, margin: int, dims: ImageDims)
    requires dims.height <= MaxInt32
    requires det.y1 - HalfMargin(margin) < (MaxInt32 + 1) as real
    requires det.y2 + HalfMargin(margin) < 0.0
    ensures var v := det.y2 + HalfMargin(margin);
      var bb := CropRect(det, margin, dims);
      var rows := CroppedRegion(dims, bb).rows;
      && bb.bottom <= 0
      && (-(dims.height as real) < v <= -1.0 ==>
            && bb.bottom as int == Trunc(v) < 0
            && (bb.top as int <= dims.height + bb.bottom as int ==>
                  rows == Extent(bb.top as int, dims.height + bb.bottom as int))
            && (dims.height + bb.bottom as int < bb.top as int ==> rows.Length() == 0))
      && (-1.0 < v || v <= -(dims.height as real) ==> rows.Length() == 0)
  {
    var bb := CropRect(det, margin, dims);
    NegativeStop(dims.height, bb.top as int, det.y2 + HalfMargin(margin));
  }

  /** An instance of the wrap: a box lying wholly left of a 200-pixel-wide
      image, padded by 22 on each side, crops almost the whole width. */
  lemma NegativeRightEdgeWraps()
    ensures var dims := ImageDims(200, 200);
      var bb := CropRect(Box(-80.0, 10.0, -30.0, 60.0), 44, dims);
      bb.left == 0 && bb.right == -8 && CroppedRegion(dims, bb).cols == Extent(0, 192)
  {
    var dims := ImageDims(200, 200);
    var bb := CropRect(Box(-80.0, 10.0, -30.0, 60.0), 44, dims);
    assert Trunc(-8.0) == -8;
    assert bb.right == -8;
  }

  /** A 200 by 200 image, the box (50, 50, 150, 150) and margin 20 give the
      crop (40, 40, 160, 160), a 120 by 120 region. */
  lemma CentredBoxScenario()
    ensures var dims := ImageDims(200, 200);
      var bb := CropRect(Box(50.0, 50.0, 150.0, 150.0), 20, dims);
      bb == CropBox(40, 40, 160, 160) &&
      CroppedRegion(dims, bb) == Region(Extent(40, 160), Extent(40, 160))
  {
    var dims := ImageDims(200, 200);
    assert Trunc(40.0) == 40 && Trunc(160.0) == 160;
  }

  /** A box at the top-left corner of a 100 by 100 image with margin 44: the
      left and top edges clamp to 0 and the crop is (0, 0, 42, 42). */
  lemma CornerBoxScenario()
    ensures CropRect(Box(0.0, 0.0, 20.0, 20.0), 44, ImageDims(100, 100)) == CropBox(0, 0, 42, 42)
  {
    assert Trunc(0.0) == 0 && Trunc(42.0) == 42;
  }
}
