/**
 * nms_with_depth: a single greedy sweep over every pair (i, j), i < j, in
 * lexicographic order. A pair that overlaps by more than the IoU threshold
 * and whose signed centre-depth difference is below the depth threshold
 * zeroes the confidence of its lower-scoring member; the keep mask is
 * "confidence is non-zero" after the sweep.
 */
module DepthNms {
  import opened BoxFormat
  import opened Iou

  /**
   * What the suppressor reads from the depth map: the depth at a box's centre
   * cell and the region bonus 1/log(depth over the box), both as functions of
   * the box.
   */
  datatype DepthLayer = DepthLayer(centerDepth: CornerBox -> real, bonus: CornerBox -> real)

  /** The thresholds and depth map one sweep runs with. */
  datatype Params = Params(iouThreshold: real, layer: DepthLayer, depthThreshold: real)

  /** The pair (bi, bj), bi the earlier box, overlaps and passes the depth test. */
  predicate Fires(bi: CornerBox, bj: CornerBox, p: Params) {
    Exceeds(BboxIou(bi, bj, false).ratio, p.iouThreshold)
    && p.layer.centerDepth(bi) - p.layer.centerDepth(bj) < p.depthThreshold
  }

  /** Boxes k and m, in whichever order they are visited, form a firing pair. */
  predicate Conflicts(boxes: seq<CornerBox>, k: int, m: int, p: Params) {
    0 <= k < |boxes| && 0 <= m < |boxes| &&
    ((k < m && Fires(boxes[k], boxes[m], p)) || (m < k && Fires(boxes[m], boxes[k], p)))
  }

  /**
   * The combined score: current confidence plus region bonus. A zeroed box
   * still scores its bonus, and at a fixed bonus the score ranks by confidence.
   */
  function Score(conf: real, b: CornerBox, layer: DepthLayer): (s: real)
    ensures conf == 0.0 ==> s == layer.bonus(b)
    ensures s > layer.bonus(b) <==> conf > 0.0
  {
    conf + layer.bonus(b)
  }

  /**
   * For well-formed boxes the pair fires exactly when the intersection is
   * more than the IoU threshold times the union and the earlier box's centre
   * is less than the depth threshold deeper than the later one's.
   */
  lemma FiresOnAreas(bi: CornerBox, bj: CornerBox, p: Params)
    requires WellFormed(bi) && WellFormed(bj)
    ensures Fires(bi, bj, p) <==>
      InterArea(bi, bj) > p.iouThreshold * UnionArea(bi, bj)
      && p.layer.centerDepth(bi) - p.layer.centerDepth(bj) < p.depthThreshold
  {
    ExceedsQuotient(InterArea(bi, bj), UnionArea(bi, bj), p.iouThreshold);
  }

  /** With a non-negative IoU threshold, only overlapping well-formed boxes fire. */
  lemma FiringPairsOverlap(bi: CornerBox, bj: CornerBox, p: Params)
    requires WellFormed(bi) && WellFormed(bj) && p.iouThreshold >= 0.0
    ensures Fires(bi, bj, p) ==> InterArea(bi, bj) > 0.0
  {
    FiresOnAreas(bi, bj, p);
    if Fires(bi, bj, p) {
      assert p.iouThreshold * UnionArea(bi, bj) >= 0.0;
    }
  }

  /** d is c with some entries set to 0 and no other change. */
  predicate Weakens(c: seq<real>, d: seq<real>) {
    |d| == |c| && forall k :: 0 <= k < |c| ==> d[k] == c[k] || d[k] == 0.0
  }

  /** The effect of visiting one pair (i, j) on the confidences. */
  function Step(boxes: seq<CornerBox>, c: seq<real>, i: nat, j: nat, p: Params): (r: seq<real>)
    requires i < j < |boxes| == |c|
    ensures Weakens(c, r)
    ensures forall k :: 0 <= k < |c| && k != i && k != j ==> r[k] == c[k]
    ensures !Fires(boxes[i], boxes[j], p) ==> r == c
    ensures Fires(boxes[i], boxes[j], p) ==> r[i] == 0.0 || r[j] == 0.0
    ensures Fires(boxes[i], boxes[j], p) && Score(c[i], boxes[i], p.layer) > Score(c[j], boxes[j], p.layer) ==>
      r[j] == 0.0 && r[i] == c[i]
    ensures Fires(boxes[i], boxes[j], p) && Score(c[i], boxes[i], p.layer) <= Score(c[j], boxes[j], p.layer) ==>
      r[i] == 0.0 && r[j] == c[j]
  {
    if Fires(boxes[i], boxes[j], p) then
      if Score(c[i], boxes[i], p.layer) > Score(c[j], boxes[j], p.layer) then c[j := 0.0]
      else c[i := 0.0]
    else c
  }

  /** The inner loop of row i: pairs (i, j), (i, j + 1), ..., (i, n - 1). */
  function SweepRow(boxes: seq<CornerBox>, c: seq<real>, i: nat, j: nat, p: Params): (r: seq<real>)
    requires i < j <= |boxes| == |c|
    ensures Weakens(c, r)
    decreases |boxes| - j
  {
    if j == |boxes| then c
    else SweepRow(boxes, Step(boxes, c, i, j, p), i, j + 1, p)
  }

  /** The outer loop from row i on. */
  function SweepFrom(boxes: seq<CornerBox>, c: seq<real>, i: nat, p: Params): (r: seq<real>)
    requires i <= |boxes| == |c|
    ensures Weakens(c, r)
    decreases |boxes| - i
  {
    if i == |boxes| then c
    else SweepFrom(boxes, SweepRow(boxes, c, i, i + 1, p), i + 1, p)
  }

  /** The confidences after the whole sweep. */
  function Sweep(boxes: seq<CornerBox>, conf: seq<real>, p: Params): (r: seq<real>)
    requires |boxes| == |conf|
    ensures Weakens(conf, r)
  {
    SweepFrom(boxes, conf, 0, p)
  }

  /** The keep flags: a box is kept when its confidence is not zero. */
  function KeepMask(c: seq<real>): (keep: seq<bool>)
    ensures |keep| == |c|
    ensures forall k :: 0 <= k < |c| ==> (keep[k] <==> c[k] != 0.0)
  {
    seq(|c|, k requires 0 <= k < |c| => c[k] != 0.0)
  }

  /**
   * The mask nms_with_depth returns. A box with zero input confidence is never
   * kept (KeptPairsDoNotFire says no two kept boxes form a firing pair).
   */
  function DepthKeep(boxes: seq<CornerBox>, conf: seq<real>, p: Params): (keep: seq<bool>)
    requires |boxes| == |conf|
    ensures |keep| == |boxes|
    ensures forall k :: 0 <= k < |keep| && keep[k] ==> conf[k] != 0.0
  {
    KeepMask(Sweep(boxes, conf, p))
  }

  /** No two boxes the mask keeps form a firing pair. */
  lemma KeptPairsDoNotFire(boxes: seq<CornerBox>, conf: seq<real>, p: Params)
    requires |boxes| == |conf|
    ensures var keep := DepthKeep(boxes, conf, p);
      forall a, b :: 0 <= a < b < |keep| && keep[a] && keep[b] ==> !Fires(boxes[a], boxes[b], p)
  {
    SweepFromResolves(boxes, conf, 0, p);
  }

  /** Every firing pair (i, q) with q >= j has a zeroed member after row i's inner loop. */
  lemma {:induction false} SweepRowResolves(boxes: seq<CornerBox>, c: seq<real>, i: nat, j: nat, p: Params)
    requires i < j <= |boxes| == |c|
    ensures var r := SweepRow(boxes, c, i, j, p);
      forall q :: j <= q < |boxes| && Fires(boxes[i], boxes[q], p) ==> r[i] == 0.0 || r[q] == 0.0
    decreases |boxes| - j
  {
    if j < |boxes| {
      var s := Step(boxes, c, i, j, p);
      SweepRowResolves(boxes, s, i, j + 1, p);
    }
  }

  /** Every firing pair (a, b) with a >= i has a zeroed member after the sweep from row i. */
  lemma {:induction false} SweepFromResolves(boxes: seq<CornerBox>, c: seq<real>, i: nat, p: Params)
    requires i <= |boxes| == |c|
    ensures var r := SweepFrom(boxes, c, i, p);
      forall a, b :: i <= a < b < |boxes| && Fires(boxes[a], boxes[b], p) ==> r[a] == 0.0 || r[b] == 0.0
    decreases |boxes| - i
  {
    if i < |boxes| {
      var s := SweepRow(boxes, c, i, i + 1, p);
      SweepRowResolves(boxes, c, i, i + 1, p);
      SweepFromResolves(boxes, s, i + 1, p);
    }
  }

  /** A box loses its confidence in row i's inner loop only through a firing pair. */
  lemma {:induction false} SweepRowJustified(boxes: seq<CornerBox>, c: seq<real>, i: nat, j: nat, p: Params)
    requires i < j <= |boxes| == |c|
    ensures var r := SweepRow(boxes, c, i, j, p);
      forall k :: 0 <= k < |c| && c[k] != 0.0 && r[k] == 0.0 ==>
        exists m :: Conflicts(boxes, k, m, p)
    decreases |boxes| - j
  {
    if j < |boxes| {
      var s := Step(boxes, c, i, j, p);
      SweepRowJustified(boxes, s, i, j + 1, p);
      var r := SweepRow(boxes, c, i, j, p);
      forall k | 0 <= k < |c| && c[k] != 0.0 && r[k] == 0.0
        ensures exists m :: Conflicts(boxes, k, m, p)
      {
        if s[k] == 0.0 {
          if k == i {
            assert Conflicts(boxes, k, j, p);
          } else {
            assert Conflicts(boxes, k, i, p);
          }
        }
      }
    }
  }

  /** A box loses its confidence in the sweep from row i only through a firing pair. */
  lemma {:induction false} SweepFromJustified(boxes: seq<CornerBox>, c: seq<real>, i: nat, p: Params)
    requires i <= |boxes| == |c|
    ensures var r := SweepFrom(boxes, c, i, p);
      forall k :: 0 <= k < |c| && c[k] != 0.0 && r[k] == 0.0 ==>
        exists m :: Conflicts(boxes, k, m, p)
    decreases |boxes| - i
  {
    if i < |boxes| {
      var s := SweepRow(boxes, c, i, i + 1, p);
      SweepRowJustified(boxes, c, i, i + 1, p);
      SweepFromJustified(boxes, s, i + 1, p);
    }
  }

  /** A box with non-zero confidence is suppressed only if it conflicts with another box. */
  lemma SuppressedHasConflict(boxes: seq<CornerBox>, conf: seq<real>, p: Params, k: nat)
    requires |boxes| == |conf| && k < |boxes|
    requires conf[k] != 0.0 && !DepthKeep(boxes, conf, p)[k]
    ensures exists m :: Conflicts(boxes, k, m, p)
  {
    SweepFromJustified(boxes, conf, 0, p);
  }

  /** If no pair fires, the sweep changes nothing and every non-zero box is kept. */
  lemma NoConflictKeepsAll(boxes: seq<CornerBox>, conf: seq<real>, p: Params)
    requires |boxes| == |conf|
    requires forall a, b :: 0 <= a < b < |boxes| ==> !Fires(boxes[a], boxes[b], p)
    ensures Sweep(boxes, conf, p) == conf
    ensures DepthKeep(boxes, conf, p) == KeepMask(conf)
  {
    var r := Sweep(boxes, conf, p);
    SweepFromJustified(boxes, conf, 0, p);
    forall k | 0 <= k < |conf| ensures r[k] == conf[k] {
      assert forall m :: !Conflicts(boxes, k, m, p);
    }
  }

  /** No input gives no result. */
  lemma EmptyKeep(p: Params)
    ensures DepthKeep([], [], p) == []
  {
  }

  /** A single box is kept exactly when its confidence is non-zero. */
  lemma SingleBoxKept(b: CornerBox, c: real, p: Params)
    ensures DepthKeep([b], [c], p) == [c != 0.0]
  {
    assert SweepRow([b], [c], 0, 1, p) == [c];
    assert SweepFrom([b], [c], 1, p) == [c];
  }

  /**
   * Two boxes: a firing pair keeps exactly the higher-scoring box (the second on
   * a tie); a non-firing pair keeps both.
   */
  lemma TwoBoxes(b0: CornerBox, b1: CornerBox, c0: real, c1: real, p: Params)
    requires c0 != 0.0 && c1 != 0.0
    ensures var keep := DepthKeep([b0, b1], [c0, c1], p);
      if Fires(b0, b1, p) then
        var first := Score(c0, b0, p.layer) > Score(c1, b1, p.layer);
        keep == [first, !first]
      else keep == [true, true]
  {
    var boxes, c := [b0, b1], [c0, c1];
    var s := Step(boxes, c, 0, 1, p);
    assert SweepRow(boxes, c, 0, 1, p) == s by {
      assert SweepRow(boxes, s, 0, 2, p) == s;
    }
    assert SweepFrom(boxes, s, 1, p) == s by {
      assert SweepRow(boxes, s, 1, 2, p) == s;
    }
  }

  /** Two boxes a full pixel apart along one axis are both kept for any non-negative IoU threshold. */
  lemma DisjointPairKept(b0: CornerBox, b1: CornerBox, c0: real, c1: real, p: Params)
    requires WellFormed(b0) && WellFormed(b1) && p.iouThreshold >= 0.0
    requires b0.x2 + 1.0 <= b1.x1 || b1.x2 + 1.0 <= b0.x1 || b0.y2 + 1.0 <= b1.y1 || b1.y2 + 1.0 <= b0.y1
    requires c0 != 0.0 && c1 != 0.0
    ensures DepthKeep([b0, b1], [c0, c1], p) == [true, true]
  {
    DisjointIou(b0, b1);
    TwoBoxes(b0, b1, c0, c1, p);
  }

  /** A depth map at the same depth everywhere. */
  function FlatDepth(b: CornerBox): real { 0.0 }

  /** Region bonuses for the example below, told apart by the left edge. */
  function ExampleBonus(b: CornerBox): real {
    if b.x1 == 0.0 then 0.5 else if b.x1 == 2.0 then 0.4 else 0.0
  }

  /**
   * Suppressed boxes are not skipped: box 1 loses to box 0, yet with its zeroed
   * confidence still outscores box 2 through its region bonus and suppresses
   * it, although box 2 does not conflict with the surviving box 0.
   */
  lemma SuppressedBoxStillSuppresses()
    ensures var boxes := [CornerBox(0.0, 0.0, 10.0, 10.0), CornerBox(2.0, 0.0, 12.0, 10.0), CornerBox(4.0, 0.0, 14.0, 10.0)];
      var layer := DepthLayer(FlatDepth, ExampleBonus);
      var p := Params(0.5, layer, 0.1);
      !Fires(boxes[0], boxes[2], p)
      && DepthKeep(boxes, [0.9, 0.5, 0.3], p) == [true, false, false]
  {
  }

  /** nms_with_depth: the in-place sweep over the confidence array, then the non-zero mask. */
  method NmsWithDepth(bboxes: seq<CornerBox>, confidence: array<real>, iouThreshold: real,
                      depthLayer: DepthLayer, depthThreshold: real)
    returns (keep: seq<bool>)
    requires confidence.Length == |bboxes|
    modifies confidence
    ensures confidence[..] == Sweep(bboxes, old(confidence[..]), Params(iouThreshold, depthLayer, depthThreshold))
    ensures keep == DepthKeep(bboxes, old(confidence[..]), Params(iouThreshold, depthLayer, depthThreshold))
  {
    ghost var p := Params(iouThreshold, depthLayer, depthThreshold);
    ghost var final := Sweep(bboxes, confidence[..], p);
    if |bboxes| == 0 {
      return [];
    }
    var n := |bboxes|;
    for i := 0 to n
      invariant SweepFrom(bboxes, confidence[..], i, p) == final
    {
      for j := i + 1 to n
        invariant SweepFrom(bboxes, SweepRow(bboxes, confidence[..], i, j, p), i + 1, p) == final
      {
        var iou := BboxIou(bboxes[i], bboxes[j], false);
        if Exceeds(iou.ratio, iouThreshold) {
          var dOi := depthLayer.centerDepth(bboxes[i]);
          var dOj := depthLayer.centerDepth(bboxes[j]);
          if dOi - dOj < depthThreshold {
            var scoreOi := confidence[i] + depthLayer.bonus(bboxes[i]);
            var scoreOj := confidence[j] + depthLayer.bonus(bboxes[j]);
            if scoreOi > scoreOj {
              confidence[j] := 0.0;
            } else {
              confidence[i] := 0.0;
            }
          }
        }
      }
    }
    keep := KeepMask(confidence[..]);
  }
}
