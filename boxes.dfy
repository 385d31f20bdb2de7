/** The values the face detector hands to the alignment stage. */
module Boxes {

  /** One row of the detector's `bounding_boxes` array: the corners
      `(x1, y1, x2, y2)` in pixel coordinates followed by a confidence. */
  datatype Detection = Detection(x1: real, y1: real, x2: real, y2: real, confidence: real)

  /** The first four columns of a detection, `det[i, 0:4]`. */
  datatype Box = Box(x1: real, y1: real, x2: real, y2: real)

  /** `img.shape[0:2]`: the height comes first, then the width. */
  datatype ImageDims = ImageDims(height: nat, width: nat)

  /** `det[i, 0:4]`: a detection without its confidence. */
  function Corners(d: Detection): Box {
    Box(d.x1, d.y1, d.x2, d.y2)
  }

  /** `bounding_boxes[:, 0:4]`: the corners of every detection, in detector order. */
  function CornersOf(ds: seq<Detection>): (bs: seq<Box>)
    ensures |bs| == |ds|
    ensures forall i :: 0 <= i < |ds| ==> bs[i] == Corners(ds[i])
  {
    if ds == [] then [] else [Corners(ds[0])] + CornersOf(ds[1..])
  }
}
