# MTCNN face alignment: box selection and cropping

This project models the post-detection stage of `run_mtcnn` in
`core/src/align/align_dataset_mtcnn.py`. The MTCNN detector returns a list of
bounding boxes for an image. The stage then:

1. chooses which boxes to keep: none for no detection, the only box for one
   detection, every box in detector order when `detect_multiple_faces` is set,
   and otherwise the single box maximising
   `area - 2 * (squared distance of the box centre from the image centre)`,
   the first such box on a tie (`np.argmax`);
2. pads each kept box by `margin / 2` on every side, clamps left and top to 0
   and right and bottom to the width and height, and stores the four edges in
   an `int32` array;
3. slices that region out of the image, resizes it to
   `image_size x image_size` and appends it to `patches`, counting successes.

`main` repeats the same code with its parameters taken from the command line.
The model states the logic once, in `AlignDatasetMtcnn.RunMtcnn`.
`AlignDatasetMtcnn.AlignMain` passes the command-line arguments to it.

Modules, in dependency order:

- `Numeric` (`numeric.dfy`): NumPy's `int32`, the truncating float-to-`int32`
  store, and Python's `start:stop` slicing.
- `Boxes` (`boxes.dfy`): detector rows, their corner boxes, image shape.
- `BoxSelection` (`selection.dfy`): the score, `np.argmax`, the selection
  function, and the method that builds `det_arr` by appending.
- `Crop` (`crop.dfy`): the clamped crop edges, the method that fills the
  `int32` array, the sliced region and the abstract resize.
- `AlignDatasetMtcnn` (`align.dfy`): the per-box loop, `run_mtcnn`, `main` and
  the command-line defaults.

Modelling choices:

- Coordinates are exact `real`s. `margin / 2` is true division, because the
  file imports `division` from `__future__`.
- Storing into the `int32` array truncates toward zero. In C, converting a
  value outside the 32-bit range has no defined result. The model takes the
  result x86 hardware gives, the most negative `int32`.
- The image is represented only by its shape `(height, width)`. The detector
  output is a parameter. The resize returns a patch recorded only by its size
  and the region it was made from.
- The crop slice follows Python's rules. A negative stop counts from the end
  of the row, and bounds are clamped to the row. The code clamps `right` and
  `bottom` only from above, so a right edge padded to the left of the image
  is a negative stop (`Crop.RightEdgeLeftOfImage`; `Crop.BottomEdgeAboveImage`
  for the bottom edge). Padded into `(-width, -1]`, it is read from the end
  of the row: the crop wraps and runs from `left` to `width + right`, which
  is empty only when `left` lies beyond that. Padded into `(-1, 0)`, it
  truncates to 0 and the crop is empty. Padded to `-width` or further, the
  stop reads as 0 and the crop is empty too. `Crop.NegativeRightEdgeWraps`
  shows a box lying wholly left of the image that yields a crop nearly the
  full image width.
- The code has no check for an empty crop. A box can clamp to
  `right < left`. The slice is then empty, and the code resizes it like any
  other (`Crop.EmptyCropIsPossible`). The model keeps this behaviour and has
  no empty-crop error.
- `nrof_successfully_aligned` is a local that the source never returns. It is
  an out-parameter of `RunMtcnn` so that its final value can be stated.
- Defaults: `run_mtcnn` uses `margin=32` and `detect_multiple_faces=True`
  (`RunMargin`, `RunDetectMultipleFaces`). The command line uses
  `image_size=182`, `margin=44` and `detect_multiple_faces=False`
  (`CliDefaults`).

## Model

| member | source | states |
|---|---|---|
| `Numeric.Trunc` | core/src/align/align_dataset_mtcnn.py:82-85 | storing a float into the `int32` array rounds toward zero: the stored integer is within 1 of the value, on the zero side |
| `Numeric.ToInt32` | core/src/align/align_dataset_mtcnn.py:81-85 | the store is never above a positive value, so a value at most a non-negative bound (the width or height of lines 84-85) is stored at most that bound, overflow included; a non-negative value (lines 82-83) is stored non-negative exactly when it is below 2^31 |
| `Numeric.PySlice` | core/src/align/align_dataset_mtcnn.py:86 | a slice picks indices inside the sequence, is the identity on in-range bounds, and is empty exactly when the stop does not come after the start; a negative stop no further back than the length selects up to the length plus the stop; a zero stop, or one at or beyond minus the length, selects nothing |
| `Numeric.NegativeStop` | core/src/align/align_dataset_mtcnn.py:84-86 | a negative value stored as a slice stop is 0 in `(-1, 0)` and selects nothing; in `(-n, -1]` it is its truncation and selects from the start up to `n` plus it; at `-n` or below it selects nothing |
| `Boxes.CornersOf` | core/src/align/align_dataset_mtcnn.py:61 | `bounding_boxes[:, 0:4]` keeps one corner box per detection, in detector order |
| `BoxSelection.OffsetDistSquaredSign` | core/src/align/align_dataset_mtcnn.py:70-73 | the squared offset, with x measured against half the width and y against half the height, is zero for a centred box and positive for any other |
| `BoxSelection.ScoreAtMostArea` | core/src/align/align_dataset_mtcnn.py:69-74 | the score equals the area for a centred box and is strictly below it for any other |
| `BoxSelection.CentredWinsAtEqualArea` | core/src/align/align_dataset_mtcnn.py:69-74 | of two boxes of equal area, a centred one scores strictly higher than an off-centre one |
| `BoxSelection.ArgMax` | core/src/align/align_dataset_mtcnn.py:74 | `np.argmax` returns an index of a maximum with every earlier entry strictly smaller |
| `BoxSelection.FirstMaxIsArgMax` | core/src/align/align_dataset_mtcnn.py:74 | an index is the argmax if and only if it holds a maximum and no earlier index does |
| `BoxSelection.Selection` | core/src/align/align_dataset_mtcnn.py:59-77 | no boxes select nothing; one box is kept whatever the flag; several boxes with the flag are all kept in order; without it exactly one input box is kept, and its score is at least every other's |
| `BoxSelection.LargestCentredIsFirstBest` | core/src/align/align_dataset_mtcnn.py:69-75 | without the flag, the kept box is the first box in detector order of highest score, so ties go to the earlier box |
| `BoxSelection.CentredFaceChosen` | core/src/align/align_dataset_mtcnn.py:69-75 | of two faces of equal area, the centred one is kept whichever order the detector lists them in |
| `BoxSelection.SelectBoxes` | core/src/align/align_dataset_mtcnn.py:61-77 | filling `det_arr` by appending yields exactly the selection |
| `Crop.CropRect` | core/src/align/align_dataset_mtcnn.py:82-85 | right and bottom never pass the width and height; left and top are non-negative unless the store overflows; an edge padded out of the image sits on the border, and one padded inside is the truncated padded edge |
| `Crop.NewCropBox` | core/src/align/align_dataset_mtcnn.py:81-85 | the fresh four-entry `int32` array holds left, top, right and bottom of the crop |
| `Crop.CroppedRegion` | core/src/align/align_dataset_mtcnn.py:86 | the sliced rows and columns lie inside the image, and equal the crop edges when those are ordered and in range |
| `Crop.AlignedPatch` | core/src/align/align_dataset_mtcnn.py:80-87 | each patch is `image_size` by `image_size` whatever the crop's shape, and is made from a region inside the image cut at the box's crop edges |
| `Crop.InteriorCrop` | core/src/align/align_dataset_mtcnn.py:82-86 | a padded box inside the image is cropped to exactly its truncated edges |
| `Crop.EmptyCropIsPossible` | core/src/align/align_dataset_mtcnn.py:82-86 | a box beyond the right edge clamps to `right < left` and gives an empty crop |
| `Crop.RightEdgeLeftOfImage` | core/src/align/align_dataset_mtcnn.py:82-86 | a right edge padded left of the image is stored at most 0; in `(-width, -1]` it is the truncated padded edge and the columns run from `left` to `width + right`, empty when `left` is beyond that; in `(-1, 0)` or at `-width` or below, the crop has no columns |
| `Crop.BottomEdgeAboveImage` | core/src/align/align_dataset_mtcnn.py:83-86 | the same for a bottom edge padded above the image and the rows of the crop |
| `Crop.NegativeRightEdgeWraps` | core/src/align/align_dataset_mtcnn.py:84-86 | a box left of a 200-wide image, margin 44, gets right edge -8, which the slice reads from the end of the row: columns 0 to 192 |
| `Crop.CentredBoxScenario` | core/src/align/align_dataset_mtcnn.py:82-86 | a 200x200 image, box (50,50,150,150) and margin 20 give the crop (40,40,160,160), 120 by 120 pixels |
| `Crop.CornerBoxScenario` | core/src/align/align_dataset_mtcnn.py:82-85 | a 100x100 image, box (0,0,20,20) and margin 44 give the crop (0,0,42,42) |
| `AlignDatasetMtcnn.AlignAll` | core/src/align/align_dataset_mtcnn.py:79-89 | the per-box loop gives one patch per selected box |
| `AlignDatasetMtcnn.AlignAllAt` | core/src/align/align_dataset_mtcnn.py:79-89 | patch `k` is made from selected box `k` |
| `AlignDatasetMtcnn.AlignAllSnoc` | core/src/align/align_dataset_mtcnn.py:88-89 | appending a box to the selection appends its patch to the result |
| `AlignDatasetMtcnn.RunMtcnn` | core/src/align/align_dataset_mtcnn.py:55-93 | returns the raw detector output unchanged and the aligned selection; the success count equals the patch count; no detections give no patches; every patch is `image_size` square |
| `AlignDatasetMtcnn.PatchesFollowSelection` | core/src/align/align_dataset_mtcnn.py:79-89 | there are as many patches as selected boxes, and patch `k` comes from selected box `k` |
| `AlignDatasetMtcnn.AllFacesAligned` | core/src/align/align_dataset_mtcnn.py:65-67 | with the flag set, as `run_mtcnn` sets it by default, there is one patch per detection and patch `k` is cropped from detection `k` |
| `AlignDatasetMtcnn.RunDefaultsPadBySixteen` | core/src/align/align_dataset_mtcnn.py:47 | under `run_mtcnn`'s defaults (`margin=32`, multiple faces), every detection is cropped, and one at least 16 pixels inside the image is cropped to its edges moved out by 16 and truncated |
| `AlignDatasetMtcnn.OneFaceAligned` | core/src/align/align_dataset_mtcnn.py:64-77 | with the flag unset, any non-empty detector output gives exactly one patch, cropped from the first box of highest score |
| `AlignDatasetMtcnn.AlignMain` | core/src/align/align_dataset_mtcnn.py:126-159 | `main` returns the raw detector output and the aligned selection for its command-line parameters |
| `AlignDatasetMtcnn.CliDefaultsAlignOneFace` | core/src/align/align_dataset_mtcnn.py:166-175 | under the command-line defaults, a non-empty detector output gives exactly one 182 by 182 patch |

## Left out

- The MTCNN detector (`detect_face`, `create_mtcnn`, `load_mtcnn`) and the TensorFlow session and GPU options: a neural network and its runtime. Its output is a parameter of `RunMtcnn` and `AlignMain`. `minsize`, `threshold` and `factor` only reach the detector, so they are not modelled.
- The pixel values of `misc.imresize`'s bilinear interpolation: a foreign library call. A patch carries only its size and source region, so what `imresize` does with an empty region is not modelled either.
- `facenet.to_rgb` and the channel slice `img[:, :, 0:3]`: a foreign call and array plumbing. The slice keeps `min(c, 3)` channels and does not guarantee three. The model carries no channel count.
- The `ndim < 2` branch: it only prints and does not stop processing.
- Floating-point rounding of detector coordinates and of the score: coordinates are exact reals.
- `parse_arguments` and argument parsing: `Arguments` and `CliDefaults` hold the options and their defaults. `main` reads `args.input` (a path string) and uses it directly as the image array. The model takes the image shape and detector output as given. `random_order` and `gpu_memory_fraction` are carried but never used by this stage.
- `print` logging and the `__main__` entry point.
- `Crop.CropRect`: left and top are non-negative only while the padded edge is below 2^31. Beyond that the `int32` store has no defined result, and the most negative `int32` is assumed.
