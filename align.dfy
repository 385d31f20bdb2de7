/** The post-detection stage of `run_mtcnn` and its copy in `main`: select
    boxes from the detector's output, then crop and resize one patch per
    selected box, in selection order. */
module AlignDatasetMtcnn {
  import opened Numeric
  import opened Boxes
  import opened BoxSelection
  import opened Crop

  /** Keyword defaults of `run_mtcnn`; `image_size` has none. */
  const RunMargin: int := 32
  const RunDetectMultipleFaces: bool := true

  /** The patches for `sel`, one per box, in the same order. */
  function AlignAll(sel: seq<Box>, dims: ImageDims, margin: int, imageSize: nat): (ps: seq<Patch>)
    ensures |ps| == |sel|
  {
    if sel == [] then []
    else [AlignedPatch(sel[0], dims, margin, imageSize)] + AlignAll(sel[1..], dims, margin, imageSize)
  }

  /** Patch `k` is made from selected box `k`. */
  lemma {:induction false} AlignAllAt(sel: seq<Box>, dims: ImageDims, margin: int, imageSize: nat, k: nat)
    requires k < |sel|
    ensures AlignAll(sel, dims, margin, imageSize)[k] == AlignedPatch(sel[k], dims, margin, imageSize)
  {
    if k > 0 {
      AlignAllAt(sel[1..], dims, margin, imageSize, k - 1);
    }
  }

  /** Appending a box appends its patch: the shape of the per-box loop. */
  lemma {:induction false} AlignAllSnoc(sel: seq<Box>, b: Box, dims: ImageDims, margin: int, imageSize: nat)
    ensures AlignAll(sel + [b], dims, margin, imageSize) ==
      AlignAll(sel, dims, margin, imageSize) + [AlignedPatch(b, dims, margin, imageSize)]
  {
    if sel != [] {
      assert (sel + [b])[1..] == sel[1..] + [b];
      AlignAllSnoc(sel[1..], b, dims, margin, imageSize);
    }
  }

  /** What the stage returns for detector output `detections` on an image of
      shape `dims`: the selection, aligned. */
  function AlignedFaces(detections: seq<Detection>, dims: ImageDims, imageSize: nat, margin: int,
                        detectMultipleFaces: bool): seq<Patch>
  {
    AlignAll(Selection(CornersOf(detections), dims, detectMultipleFaces), dims, margin, imageSize)
  }

  /** Lines 55-93 of `run_mtcnn`, after the call to the detector, whose
      output arrives as `detections`.  `nrof_successfully_aligned` is a local
      of the source that is never returned; it is an out-parameter here so
      that its final value can be stated. */
  method RunMtcnn(dims: ImageDims, detections: seq<Detection>, imageSize: nat, margin: int,
                  detectMultipleFaces: bool)
    returns (boundingBoxes: seq<Detection>, patches: seq<Patch>, nrofSuccessfullyAligned: nat)
    ensures boundingBoxes == detections
    ensures patches == AlignedFaces(detections, dims, imageSize, margin, detectMultipleFaces)
    ensures nrofSuccessfullyAligned == |patches|
    ensures detections == [] ==> patches == []
    ensures forall k :: 0 <= k < |patches| ==>
      patches[k].height == imageSize && patches[k].width == imageSize
  {
    patches := [];
    nrofSuccessfullyAligned := 0;
    boundingBoxes := detections;
    var nrofFaces := |boundingBoxes|;
    ghost var sel := Selection(CornersOf(detections), dims, detectMultipleFaces);
    if nrofFaces > 0 {
      var det := CornersOf(boundingBoxes);
      var detArr := SelectBoxes(det, dims, detectMultipleFaces);
      for i := 0 to |detArr|
        invariant patches == AlignAll(detArr[..i], dims, margin, imageSize)
        invariant nrofSuccessfullyAligned == i
      {
        var bb := NewCropBox(detArr[i], margin, dims);
        var cropped := CroppedRegion(dims, CropBox(bb[0], bb[1], bb[2], bb[3]));
        var scaled := Resize(cropped, imageSize);
        nrofSuccessfullyAligned := nrofSuccessfullyAligned + 1;
        assert detArr[..i + 1] == detArr[..i] + [detArr[i]];
        AlignAllSnoc(detArr[..i], detArr[i], dims, margin, imageSize);
        patches := patches + [scaled];
      }
      assert detArr[..|detArr|] == detArr;
    }
    forall k | 0 <= k < |patches|
      ensures patches[k].height == imageSize && patches[k].width == imageSize
    {
      AlignAllAt(sel, dims, margin, imageSize, k);
    }
  }

  /** Patch `k` of the stage's result comes from box `k` of the selection. */
  lemma PatchesFollowSelection(detections: seq<Detection>, dims: ImageDims, imageSize: nat, margin: int,
                               detectMultipleFaces: bool, k: nat)
    requires k < |Selection(CornersOf(detections), dims, detectMultipleFaces)|
    ensures var sel := Selection(CornersOf(detections), dims, detectMultipleFaces);
      |AlignedFaces(detections, dims, imageSize, margin, detectMultipleFaces)| == |sel| &&
      AlignedFaces(detections, dims, imageSize, margin, detectMultipleFaces)[k] ==
        AlignedPatch(sel[k], dims, margin, imageSize)
  {
    AlignAllAt(Selection(CornersOf(detections), dims, detectMultipleFaces), dims, margin, imageSize, k);
  }

  /** With multiple faces wanted (the `run_mtcnn` default), there is one patch
      per detection, patch `k` cropped from detection `k`. */
  lemma {:induction false} AllFacesAligned(detections: seq<Detection>, dims: ImageDims, imageSize: nat,
                                           margin: int, k: nat)
    requires k < |detections|
    ensures |AlignedFaces(detections, dims, imageSize, margin, RunDetectMultipleFaces)| == |detections|
    ensures AlignedFaces(detections, dims, imageSize, margin, RunDetectMultipleFaces)[k] ==
      AlignedPatch(Corners(detections[k]), dims, margin, imageSize)
  {
    PatchesFollowSelection(detections, dims, imageSize, margin, RunDetectMultipleFaces, k);
  }

  /** Under both defaults of `run_mtcnn`, every detection is cropped, and a
      detection at least 16 pixels inside the image is cropped to its edges
      moved out by 16 pixels and truncated. */
  lemma {:induction false} RunDefaultsPadBySixteen(detections: seq<Detection>, dims: ImageDims,
                                                   imageSize: nat, k: nat)
    requires k < |detections|
    requires dims.width <= MaxInt32 && dims.height <= MaxInt32
    requires var d := detections[k];
      0.0 <= d.x1 - 16.0 <= d.x2 + 16.0 <= dims.width as real &&
      0.0 <= d.y1 - 16.0 <= d.y2 + 16.0 <= dims.height as real
    ensures var ps := AlignedFaces(detections, dims, imageSize, RunMargin, RunDetectMultipleFaces);
      var d := detections[k];
      |ps| == |detections| &&
      ps[k].source == Region(Extent(Trunc(d.y1 - 16.0), Trunc(d.y2 + 16.0)),
                             Extent(Trunc(d.x1 - 16.0), Trunc(d.x2 + 16.0)))
  {
    AllFacesAligned(detections, dims, imageSize, RunMargin, k);
    assert HalfMargin(RunMargin) == 16.0;
    InteriorCrop(Corners(detections[k]), RunMargin, dims);
  }

  /** With a single face wanted, any non-empty detector output gives exactly
      one patch, cropped from the first box of highest score. */
  lemma {:induction false} OneFaceAligned(detections: seq<Detection>, dims: ImageDims, imageSize: nat,
                                          margin: int)
    requires |detections| > 0
    ensures var boxes := CornersOf(detections);
      exists k :: IsFirstMax(Scores(boxes, dims), k) &&
        AlignedFaces(detections, dims, imageSize, margin, false) == [AlignedPatch(boxes[k], dims, margin, imageSize)]
  {
    var boxes := CornersOf(detections);
    var k := ArgMax(Scores(boxes, dims));
    if |boxes| > 1 {
      LargestCentredIsFirstBest(boxes, dims, k);
    }
    PatchesFollowSelection(detections, dims, imageSize, margin, false, 0);
    assert AlignedFaces(detections, dims, imageSize, margin, false) == [AlignedPatch(boxes[k], dims, margin, imageSize)];
  }

  /** The command-line options `parse_arguments` recognises.  `input` is
      replaced by the image shape and the detector output given to
      `AlignMain`. */
  datatype Arguments = Arguments(imageSize: nat, margin: int, randomOrder: bool,
                                 gpuMemoryFraction: real, detectMultipleFaces: bool)

  /** The defaults of `parse_arguments`. */
  const CliDefaults: Arguments := Arguments(182, 44, false, 1.0, false)

  /** Lines 126-159 of `main`: the same stage with its parameters taken from
      `args`.  `main` repeats `run_mtcnn`'s code line for line; the model
      states that logic once, in `RunMtcnn`. */
  method AlignMain(dims: ImageDims, detections: seq<Detection>, args: Arguments)
    returns (boundingBoxes: seq<Detection>, patches: seq<Patch>)
    ensures boundingBoxes == detections
    ensures patches == AlignedFaces(detections, dims, args.imageSize, args.margin, args.detectMultipleFaces)
    ensures detections == [] ==> patches == []
  {
    var nrofSuccessfullyAligned;
    boundingBoxes, patches, nrofSuccessfullyAligned :=
      RunMtcnn(dims, detections, args.imageSize, args.margin, args.detectMultipleFaces);
  }

  /** Under the command-line defaults, a non-empty detector output gives
      exactly one 182 by 182 patch. */
  lemma CliDefaultsAlignOneFace(detections: seq<Detection>, dims: ImageDims)
    requires |detections| > 0
    ensures var ps := AlignedFaces(detections, dims, CliDefaults.imageSize, CliDefaults.margin,
                                   CliDefaults.detectMultipleFaces);
      |ps| == 1 && ps[0].height == 182 && ps[0].width == 182
  {
    PatchesFollowSelection(detections, dims, CliDefaults.imageSize, CliDefaults.margin,
                           CliDefaults.detectMultipleFaces, 0);
  }
}
