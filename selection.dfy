/** Which detected faces go on to cropping (the selection half of the
    post-detection stage of `run_mtcnn`). */
module BoxSelection {
  import opened Boxes

  /** `(x2 - x1) * (y2 - y1)`; negative when the corners are out of order. */
  function Area(b: Box): real {
    (b.x2 - b.x1) * (b.y2 - b.y1)
  }

  /** Signed horizontal offset of the box centre from the image centre: the
      x centre is measured against half the width, `img_size[1] / 2`. */
  function OffsetX(b: Box, dims: ImageDims): real {
    (b.x1 + b.x2) / 2.0 - dims.width as real / 2.0
  }

  /** Signed vertical offset, measured against half the height, `img_size[0] / 2`. */
  function OffsetY(b: Box, dims: ImageDims): real {
    (b.y1 + b.y2) / 2.0 - dims.height as real / 2.0
  }

  /** `np.power(v, 2.0)`. */
  function Squared(v: real): real {
    v * v
  }

  /** Squared distance of the box centre from the image centre. */
  function OffsetDistSquared(b: Box, dims: ImageDims): real {
    Squared(OffsetX(b, dims)) + Squared(OffsetY(b, dims))
  }

  /** The quantity `np.argmax` maximises: the area, less twice the squared
      distance from the centre ("some extra weight on the centering"). */
  function Score(b: Box, dims: ImageDims): real {
    Area(b) - OffsetDistSquared(b, dims) * 2.0
  }

  predicate IsCentred(b: Box, dims: ImageDims) {
    OffsetX(b, dims) == 0.0 && OffsetY(b, dims) == 0.0
  }

  lemma SquaredPositive(v: real)
    requires v != 0.0
    ensures 0.0 < Squared(v)
  {
    calc {
      Squared(v);
    ==
      v * v;
    >
      0.0;
    }
  }

  lemma SquaredSign(v: real)
    ensures v == 0.0 ==> Squared(v) == 0.0
    ensures v != 0.0 ==> 0.0 < Squared(v)
  {
    if v != 0.0 {
      SquaredPositive(v);
    }
  }

  /** The squared distance vanishes exactly for a centred box. */
  lemma OffsetDistSquaredSign(b: Box, dims: ImageDims)
    ensures IsCentred(b, dims) ==> OffsetDistSquared(b, dims) == 0.0
    ensures !IsCentred(b, dims) ==> 0.0 < OffsetDistSquared(b, dims)
  {
    SquaredSign(OffsetX(b, dims));
    SquaredSign(OffsetY(b, dims));
  }

  /** The centring term only ever lowers a box's score: a centred box scores
      its area, any other box strictly less. */
  lemma ScoreAtMostArea(b: Box, dims: ImageDims)
    ensures IsCentred(b, dims) ==> Score(b, dims) == Area(b)
    ensures !IsCentred(b, dims) ==> Score(b, dims) < Area(b)
  {
    OffsetDistSquaredSign(b, dims);
  }

  /** Of two boxes of the same area, a centred one outscores an off-centre one. */
  lemma CentredWinsAtEqualArea(a: Box, b: Box, dims: ImageDims)
    requires Area(a) == Area(b)
    requires IsCentred(a, dims) && !IsCentred(b, dims)
    ensures Score(b, dims) < Score(a, dims)
  {
    ScoreAtMostArea(a, dims);
    ScoreAtMostArea(b, dims);
  }

  /** The vector `bounding_box_size - offset_dist_squared * 2.0`. */
  function Scores(boxes: seq<Box>, dims: ImageDims): seq<real> {
    seq(|boxes|, i requires 0 <= i < |boxes| => Score(boxes[i], dims))
  }

  /** `k` holds a largest entry of `s`, and no earlier entry is as large. */
  predicate IsFirstMax(s: seq<real>, k: int) {
    && 0 <= k < |s|
    && (forall j :: 0 <= j < |s| ==> s[j] <= s[k])
    && (forall j :: 0 <= j < k ==> s[j] < s[k])
  }

  /** `np.argmax`: the index of the first occurrence of the maximum. */
  function ArgMax(s: seq<real>): (k: nat)
    requires |s| > 0
    ensures IsFirstMax(s, k)
  {
    if |s| == 1 then 0
    else
      var k := ArgMax(s[..|s| - 1]);
      if s[k] < s[|s| - 1] then |s| - 1 else k
  }

  /** The first-maximum property pins the index down: ties go to the
      smallest index and to no other. */
  lemma FirstMaxIsArgMax(s: seq<real>, k: int)
    requires |s| > 0
    ensures IsFirstMax(s, k) <==> k == ArgMax(s)
  {
    var a := ArgMax(s);
    if IsFirstMax(s, k) {
      assert s[a] <= s[k] && s[k] <= s[a];
    }
  }

  /** The boxes that go on to cropping, `det_arr`.  With several detections
      and `detect_multiple_faces` unset, the one box of highest score is kept. */
  function Selection(boxes: seq<Box>, dims: ImageDims, detectMultipleFaces: bool): (sel: seq<Box>)
    ensures sel == [] <==> boxes == []
    ensures |boxes| == 1 ==> sel == boxes
    ensures |boxes| > 1 && detectMultipleFaces ==> sel == boxes
    ensures |boxes| > 1 && !detectMultipleFaces ==>
      |sel| == 1 && sel[0] in boxes &&
      forall j :: 0 <= j < |boxes| ==> Score(boxes[j], dims) <= Score(sel[0], dims)
    ensures sel == boxes || |sel| == 1
    ensures forall b :: b in sel ==> b in boxes
  {
    if |boxes| > 1 && !detectMultipleFaces then
      var k := ArgMax(Scores(boxes, dims));
      assert forall j :: 0 <= j < |boxes| ==> Scores(boxes, dims)[j] == Score(boxes[j], dims);
      [boxes[k]]
    else boxes
  }

  /** Under the largest-centred policy the kept box is the first one, in
      detector order, that attains the highest score. */
  lemma {:induction false} LargestCentredIsFirstBest(boxes: seq<Box>, dims: ImageDims, k: int)
    requires |boxes| > 1
    requires IsFirstMax(Scores(boxes, dims), k)
    ensures Selection(boxes, dims, false) == [boxes[k]]
  {
    FirstMaxIsArgMax(Scores(boxes, dims), k);
  }

  /** Of two faces of the same area, one centred and one not, the centred
      one is kept, whichever the detector lists first. */
  lemma {:induction false} CentredFaceChosen(a: Box, b: Box, dims: ImageDims)
    requires Area(a) == Area(b)
    requires IsCentred(a, dims) && !IsCentred(b, dims)
    ensures Selection([a, b], dims, false) == [a]
    ensures Selection([b, a], dims, false) == [a]
  {
    CentredWinsAtEqualArea(a, b, dims);
    LargestCentredIsFirstBest([a, b], dims, 0);
    LargestCentredIsFirstBest([b, a], dims, 1);
  }

  /** Lines 61-77 of `run_mtcnn`: `det_arr` is filled by appending to an empty
      list, every box in turn or the single best one. */
  method SelectBoxes(det: seq<Box>, dims: ImageDims, detectMultipleFaces: bool) returns (detArr: seq<Box>)
    requires |det| > 0
    ensures detArr == Selection(det, dims, detectMultipleFaces)
  {
    detArr := [];
    if |det| > 1 {
      if detectMultipleFaces {
        for i := 0 to |det|
          invariant detArr == det[..i]
        {
          detArr := detArr + [det[i]];
        }
      } else {
        var index := ArgMax(Scores(det, dims));
        detArr := detArr + [det[index]];
      }
    } else {
      detArr := detArr + [det[0]];
    }
  }
}
