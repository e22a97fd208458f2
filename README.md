# Depth-aware non-maximum suppression — a Dafny model

This project models the post-processing core of a YOLOv4 object detector, `utils.py`:

- the conversion between centre-form boxes `(cx, cy, w, h)` and corner-form boxes `(x1, y1, x2, y2)`;
- `bbox_iou`, an intersection-over-union that counts pixels inclusively (`+1` on every side) and adds `1e-16` to the union;
- `nms_with_depth`, a depth-aware suppressor. It makes one sweep over the pairs `(i, j)`, `i < j`, in lexicographic order. A pair is handled when its IoU is above the IoU threshold and its signed centre-depth difference `D_i - D_j` is below the depth threshold. Then the member with the lower score (confidence plus a region bonus) has its confidence set to 0, and a tie zeroes `i`. The result is the mask `confidence != 0`;
- `get_bboxes_from_anchors`, which does this for each image of a batch: a confidence filter, conversion to corners, suppression, then a label from the label table for the argmax class.

Modules:

- `Wrappers`: `Result` and `Option` types.
- `BoxFormat`: the two box forms and the conversions.
- `Iou`: `bbox_iou`.
- `DepthNms`: the suppressor.
- `Pipeline`: the per-batch function.

Floats are modelled as `real`. The suppressor works in place on a confidence `array<real>`. It is proved against the functional sweep `Sweep`, built from `Step`, `SweepRow` and `SweepFrom`. The batch loop is proved against `BatchResult`, which combines the per-image `ImageResult`.

Four parts of the source are parameters rather than code:

- the depth at a box centre and the region bonus `1/log(depth)`: the two functions of `DepthLayer`;
- the optional depth layer: an `Option`;
- torchvision's plain `nms`: a function parameter of type `PlainNms`;
- Python exceptions: `Result.Failure` values. These are an empty class-score vector for argmax, a missing label key, an out-of-range index from plain NMS, and the IndexError of a float tensor used as an index (`FloatIndex`, see "## Findings").

In three places the code does something other than what IoU and NMS usually promise, and the model follows the code:

- A score tie suppresses the earlier box `i`.
- The depth test uses the signed difference `D_i - D_j < depth_threshold`, not its absolute value.
- A single box, or a box in a non-conflicting pair, is kept only when its confidence is non-zero (`SingleBoxKept`, `DisjointPairKept`).

Values are exact reals, so `IouBounds` and `SelfIou` state that the IoU of a well-formed box with itself is `A / (A + 1e-16)`, strictly below 1. The code computes in float32 or float64. There `A + 1e-16 == A` for every `A >= 1`, and a well-formed box always has area at least 1, so the code returns exactly 1.0 for a box against itself (see "## Left out").

The model also fixes the intended meaning in two places where the code cannot run as written:

- `utils.py:101` passes one-dimensional rows to `bbox_iou`, which indexes columns with `[:, 0]`. The model uses the IoU of the two boxes.
- `utils.py:107-110` add a depth slice, not a number. The model uses one real bonus per box.

`img_anchor[:, 4]` is a view, so the suppressor's writes reach the anchor rows. `WithConfidences` models this, and `DepthKeptRowsUnchanged` proves it never changes a row that is kept.

## Model

| member | source | states |
|---|---|---|
| BoxFormat.XywhToXyxy | utils.py:18-25 | the corners it returns are `w`/`h` apart and have `(cx, cy)` as their midpoint; the box is well formed exactly when `w, h >= 0` |
| BoxFormat.XyxyToXywh | utils.py:8-15 | the centre plus or minus half the size gives back both corners; `w, h >= 0` exactly when the input is well formed |
| BoxFormat.CenterRoundTrip | utils.py:8-25 | converting centre form to corners and back returns the original box |
| BoxFormat.CornerRoundTrip | utils.py:8-25 | converting corners to centre form and back returns the original box |
| BoxFormat.XywhToXyxyAll | utils.py:18-25 | converts an array of rows one box each, keeping the length; each row converts back to its input |
| Iou.Exceeds | utils.py:102 | no contract of its own; `ExceedsQuotient` states its meaning |
| Iou.Divide | utils.py:92 | a non-zero union gives the exact quotient; a zero union gives a non-finite value |
| Iou.ClampMin0 | utils.py:80-82 | `clamp(min=0)` is non-negative, at least its argument, and either the argument or 0 |
| Iou.InterArea | utils.py:74-82 | the clamped intersection area is never negative |
| Iou.Area | utils.py:84-85 | a well-formed box has an inclusive-pixel area of at least 1 |
| Iou.UnionArea | utils.py:84-86 | for well-formed boxes the union is at least either box's area plus `1e-16`, and at least the intersection plus `1e-16` |
| Iou.ExceedsQuotient | utils.py:102 | `iou > iou_threshold` on the quotient: for a positive union it holds exactly when `inter > threshold * union`; for a zero union (`+inf`, `-inf` or NaN) exactly when `inter > 0` |
| Iou.BboxIou | utils.py:59-93 | returns the `(inter, union)` pair exactly when `get_areas` is set |
| Iou.BboxIouCenter | utils.py:63-68 | the `x1y1x2y2=False` mode: returns areas exactly under `get_areas`; for boxes with `w, h >= 0` the ratio is finite and in `[0, 1)` |
| Iou.IouSymmetric | utils.py:75-93 | swapping the boxes gives the same areas and the same ratio |
| Iou.IouFromAreas | utils.py:89-93 | the plain result is the `get_areas` intersection divided by the `get_areas` union |
| Iou.InterBelowArea | utils.py:80-84 | for a well-formed box, the intersection never exceeds its area |
| Iou.IouBounds | utils.py:80-93 | for well-formed boxes, over exact reals: `inter >= 0`, `union >= inter + 1e-16`, and the ratio is finite with `0 <= iou < 1` |
| Iou.SelfIou | utils.py:80-93 | over exact reals, a well-formed box against itself scores `area / (area + 1e-16)`, which is strictly below 1 (the float code returns 1.0; see "## Left out") |
| Iou.DisjointIou | utils.py:75-93 | boxes a whole pixel apart on one axis have intersection 0 and IoU exactly 0 |
| DepthNms.Fires | utils.py:101-106 | no contract of its own; `FiresOnAreas` and `FiringPairsOverlap` state its meaning |
| DepthNms.FiresOnAreas | utils.py:101-106 | for well-formed boxes a pair fires exactly when `inter > iou_threshold * union` and `D_i - D_j < depth_threshold` |
| DepthNms.FiringPairsOverlap | utils.py:101-106 | with a non-negative IoU threshold, two well-formed boxes fire only when their intersection is positive |
| DepthNms.Score | utils.py:109-110 | a zeroed box still scores its region bonus; the score exceeds the bonus exactly when the confidence is positive |
| DepthNms.Step | utils.py:101-114 | one pair only sets confidences to 0 and touches nothing outside `i` and `j`. A pair that does not fire changes nothing. A firing pair zeroes `j` and leaves `i` when `score_i > score_j`, and otherwise zeroes `i` and leaves `j` |
| DepthNms.SweepRow | utils.py:100-114 | the inner loop only ever sets confidences to 0 |
| DepthNms.SweepFrom | utils.py:99-114 | the outer loop only ever sets confidences to 0 |
| DepthNms.Sweep | utils.py:99-114 | the whole sweep keeps the length, and each entry is either unchanged or 0 |
| DepthNms.KeepMask | utils.py:116 | the keep flag is true exactly at the non-zero confidences |
| DepthNms.DepthKeep | utils.py:95-116 | one flag per box; a box with zero input confidence is never kept |
| DepthNms.KeptPairsDoNotFire | utils.py:95-116 | no two boxes the returned mask keeps form a firing pair |
| DepthNms.SweepRowResolves | utils.py:100-114 | after row `i`'s inner loop, every firing pair `(i, q)` with `q` at or after the starting column has a zeroed member |
| DepthNms.SweepFromResolves | utils.py:99-114 | after the sweep from row `i`, every firing pair `(a, b)` with `a >= i` has a zeroed member |
| DepthNms.SweepRowJustified | utils.py:100-114 | a non-zero confidence becomes 0 in an inner loop only when its box is in a firing pair |
| DepthNms.SweepFromJustified | utils.py:99-114 | a non-zero confidence becomes 0 in the sweep only when its box is in a firing pair |
| DepthNms.SuppressedHasConflict | utils.py:99-116 | a box that had non-zero confidence and is not kept conflicts with some other box |
| DepthNms.NoConflictKeepsAll | utils.py:99-116 | when no pair fires, the sweep changes nothing and the mask is `confidence != 0` for the input |
| DepthNms.EmptyKeep | utils.py:96-97 | empty input gives an empty mask |
| DepthNms.SingleBoxKept | utils.py:99-116 | one box is kept exactly when its confidence is non-zero |
| DepthNms.TwoBoxes | utils.py:99-116 | for two boxes with non-zero confidence: a firing pair keeps exactly the higher scorer (the second box on a tie); otherwise both are kept |
| DepthNms.DisjointPairKept | utils.py:75-116 | two well-formed boxes a pixel apart are both kept when the IoU threshold is non-negative and both confidences are non-zero |
| DepthNms.SuppressedBoxStillSuppresses | utils.py:99-116 | a concrete three-box sweep: box 1 is already suppressed, yet it suppresses box 2, although box 2 does not conflict with the surviving box 0 |
| DepthNms.NmsWithDepth | utils.py:95-116 | the in-place nested loops leave `confidence` equal to `Sweep` of its old contents and return `DepthKeep` of the old contents |
| Pipeline.MaskIndices | utils.py:128 | the flagged positions of a mask, each in range and flagged, in strictly increasing order |
| Pipeline.MaskIndicesComplete | utils.py:128 | every flagged position is among them, so together with `MaskIndices` each flagged position appears exactly once, in order |
| Pipeline.Masked | utils.py:128 | boolean-mask indexing: position `t` of the result is the element at the `t`-th flagged position, so the result has exactly one entry per set flag, in input order; it is a subsequence holding only flagged elements, empty exactly when no flag is set |
| Pipeline.AboveThreshold | utils.py:127 | one flag per anchor, set exactly when its confidence is above the threshold |
| Pipeline.ConfidenceFilter | utils.py:127-128 | the filtered anchors are a subsequence of the input anchors; every filtered anchor is an input anchor above the threshold, and every input anchor above it is included |
| Pipeline.ConfidenceFilterOrder | utils.py:127-128 | position `t` of the filtered anchors is the anchor at the `t`-th input position above the threshold, and every such position is counted, so duplicates are kept and order is preserved |
| Pipeline.Confidences | utils.py:130 | the confidence column `img_anchor[:, 4]` has one entry per anchor |
| Pipeline.CornerBoxes | utils.py:130 | one corner box per anchor, each converting back to the anchor's centre box |
| Pipeline.WithConfidences | utils.py:130 | the suppressor's writes through the confidence-column view: each row keeps its box and class scores and takes the new confidence; writing back the rows' own confidences changes nothing |
| Pipeline.Gather | utils.py:132-134 | succeeds exactly when every index is in range, and then returns `s[idx[k]]` at each position; otherwise it names an out-of-range index |
| Pipeline.Argmax | utils.py:139 | returns an index of a maximal score, with every earlier score strictly smaller (the first maximum) |
| Pipeline.LookupLabels | utils.py:139 | succeeds exactly when every index is a key, and then returns the table entry at each position; otherwise it names the first missing key |
| Pipeline.ImageLabels | utils.py:136-139 | a successful result has one label per anchor, the table entry of the anchor's argmax; it succeeds whenever every score vector is non-empty and every argmax is a key |
| Pipeline.KeptAnchors | utils.py:129-134 | no contract of its own; `KeptAnchorsSound` states its meaning |
| Pipeline.KeptAnchorsSound | utils.py:129-134 | with a depth layer the result never fails and is the filtered rows chosen by `DepthKeep`, unchanged; with plain NMS it fails exactly when an index is past the rows; every kept anchor is a filtered anchor |
| Pipeline.ImageResult | utils.py:126-139 | a result has one label per kept anchor; with a depth layer the only errors are an empty class-score vector or a missing label, never an index error |
| Pipeline.ImageResultParts | utils.py:126-139 | a successful result holds exactly the anchors the suppression keeps and the labels looked up for them |
| Pipeline.MaskedAgrees | utils.py:134 | masking two sequences that agree at every flagged position gives the same result |
| Pipeline.DepthKeptRowsUnchanged | utils.py:130-134 | the kept rows are unchanged by the suppressor's writes into the confidence column |
| Pipeline.ImageResultSound | utils.py:125-139 | one image's result has as many labels as boxes (none for no boxes). Every kept anchor is one of the image's anchors, has confidence above the threshold, has non-empty class scores whose argmax is a key of the table, and is labelled with that key's entry |
| Pipeline.DepthBranchSelects | utils.py:129-134 | with a depth layer, the kept anchors are the filtered anchors chosen by `DepthKeep`, so they form a subsequence of the filtered anchors |
| Pipeline.DepthKeptAsWritten | utils.py:129-134 | the depth branch with utils.py:97 and :134 as written, taking the intended IoU of utils.py:101 and the intended bonus of utils.py:107-110: it raises exactly when no anchor passed the filter (a float tensor used as an index), and otherwise keeps the rows `DepthKeep` chooses |
| Pipeline.EmptyImageRaisesAsWritten | utils.py:127-134 | as written, a depth-branch image with no anchor above the threshold raises |
| Pipeline.EmptyImage | utils.py:127-138 | the intended behaviour: an image with no anchor above the threshold gives empty boxes and empty labels |
| Pipeline.SuppressWithDepth | utils.py:130-134 | running the in-place suppressor on a fresh confidence array and masking the rows returns the filtered rows `DepthKeep` selects, unchanged |
| Pipeline.ProcessImage | utils.py:126-139 | the loop body for one image computes `ImageResult`, including its error cases |
| Pipeline.Collect | utils.py:125-141 | a combined success has one box list and one label list per image; a combined failure is the error of some image |
| Pipeline.ImageResultsAt | utils.py:125-139 | entry `b` of the per-image results is what the loop body computes for batch image `b` |
| Pipeline.BatchResult | utils.py:120-141 | a success has one box list and one label list per batch image; an empty batch gives two empty lists |
| Pipeline.CollectFailureExtends | utils.py:125-141 | once a prefix of the batch raises, the whole batch raises the same error |
| Pipeline.CollectStep | utils.py:125-141 | appending one image's success extends both lists by that image's entries; an image's failure is the batch's failure |
| Pipeline.CollectPerImage | utils.py:125-141 | combining per-image results succeeds exactly when every image does. On success each output entry is that image's own result; on failure the error is that of the first failing image |
| Pipeline.BatchPerImage | utils.py:120-141 | the function returns exactly one box list and one label list per batch image, each that image's own result, or else raises the first image's error |
| Pipeline.GetBboxesFromAnchors | utils.py:120-141 | the batch loop that appends to `batch_bboxes` and `labels` returns `BatchResult` |

## Left out

- `get_img_with_bboxes` (utils.py:27-56): image conversion and cv2 drawing, with no logic to verify.
- torchvision `nms` (utils.py:6, 132) is foreign code. The model takes it as a function from boxes, scores and threshold to kept indices, and proves nothing about which indices it picks.
- The centre-depth lookup `depth_layer[(x1+x2)//2, (y1+y2)//2]` and the bonus `1/torch.log(...)` (utils.py:104-110) are left as the `DepthLayer` functions of a box. Floor division, the depth map's row/column order, out-of-range depth indices and a logarithm that is zero or negative are not modelled.
- Pipeline.DepthKeptAsWritten: models utils.py:97 and :134 as written but keeps the intended IoU at utils.py:101 and bonus at utils.py:107-110; as written those lines raise for two or more filtered anchors, which it does not capture.
- DepthNms.NmsWithDepth: on empty input it returns an empty mask, whereas the source returns the empty float `bboxes` tensor (utils.py:96-97). `DepthKeptAsWritten` models what that does to the caller.
- Pipeline.EmptyImage: the code as written raises IndexError for a depth-branch image with no anchor above the threshold, because utils.py:134 indexes with the float tensor returned at utils.py:97. The model returns the intended empty lists (see "## Findings").
- Iou.SelfIou: holds over exact reals only. In float32 and float64, `1e-16` is absorbed into any area of at least 1, so the code returns exactly 1.0 for a well-formed box against itself.
- Iou.IouBounds: the strict bound `iou < 1` holds over exact reals only. In floating point the epsilon is lost when the union is at least 1, so two identical boxes reach 1.0.
- Floating point: every value is an exact real. Rounding, the absorption of `1e-16` into areas of 1 or more, and NaN confidences or bonuses are not modelled. Only division by a zero union gives `+inf`, `-inf` or NaN, and the model treats a zero union as `+0`.
- Tensor and ndarray dispatch, and batched column evaluation (utils.py:10, 20, 71-72): the model works on single boxes and sequences of boxes. The class-score vectors of one image need not share a length, as they would in a tensor.
- The default `depth_threshold = 0.1` (utils.py:120): the model always passes the threshold explicitly.
- `depth_layer != None` (utils.py:129) is modelled as `Option<DepthLayer>`.

## Findings

| source | as written | input that shows it | evidently intended | confidence | as-written member | corrected member |
|---|---|---|---|---|---|---|
| utils.py:134 | with a depth layer, an image with no anchor above the threshold makes `nms_with_depth` return the empty float box tensor, and `img_anchor[keep]` then raises IndexError, since a float tensor cannot index | any batch image whose confidences are all at or below `confidence_threshold`, with `depth_layer` given | the image contributes an empty box list and an empty label list, as it does on the plain-NMS path | not executed; follows from torch's rule that index tensors must be long, int, byte or bool | Pipeline.EmptyImageRaisesAsWritten | Pipeline.EmptyImage |
