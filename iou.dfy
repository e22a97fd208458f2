/**
 * bbox_iou: intersection over union of two boxes, counting coordinates as
 * inclusive pixel indices (the +1 on every side length) and adding a small
 * epsilon to the union.
 */
module Iou {
  import opened BoxFormat

  /** The epsilon added to every union area. */
  const Eps: real := 1e-16

  /**
   * The value of a floating-point division. Real arithmetic is exact; only
   * division by a zero union (possible for malformed boxes alone) leaves the
   * reals, and then yields an infinity or NaN as the tensor division does.
   */
  datatype Ratio = Finite(value: real) | PosInf | NegInf | NaN

  function Divide(a: real, b: real): (r: Ratio)
    ensures b != 0.0 ==> r == Finite(a / b)
    ensures b == 0.0 ==> !r.Finite?
  {
    if b != 0.0 then Finite(a / b)
    else if a > 0.0 then PosInf
    else if a < 0.0 then NegInf
    else NaN
  }

  /**
   * The IEEE comparison "ratio greater than t": +inf lies above every finite
   * threshold, -inf below every one, and NaN compares false with everything.
   */
  predicate Exceeds(r: Ratio, t: real)
  {
    match r
    case Finite(v) => v > t
    case PosInf => true
    case NegInf => false
    case NaN => false
  }

  /** Clamping from below at 0. */
  function ClampMin0(x: real): (r: real)
    ensures r >= 0.0 && r >= x
    ensures r == x || r == 0.0
  {
    if x < 0.0 then 0.0 else x
  }

  function Max(a: real, b: real): real { if a >= b then a else b }

  function Min(a: real, b: real): real { if a <= b then a else b }

  /** Area of the (clamped) intersection rectangle, in inclusive pixels. */
  function InterArea(b1: CornerBox, b2: CornerBox): (r: real)
    ensures r >= 0.0
  {
    ClampMin0(Min(b1.x2, b2.x2) - Max(b1.x1, b2.x1) + 1.0)
      * ClampMin0(Min(b1.y2, b2.y2) - Max(b1.y1, b2.y1) + 1.0)
  }

  /**
   * Area of one box, in inclusive pixels (not clamped). A well-formed box
   * covers at least one pixel.
   */
  function Area(b: CornerBox): (a: real)
    ensures WellFormed(b) ==> a >= 1.0
  {
    var w, h := b.x2 - b.x1 + 1.0, b.y2 - b.y1 + 1.0;
    if WellFormed(b) then MulMono(1.0, 1.0, w, h); w * h else w * h
  }

  /**
   * The union of two boxes plus the epsilon. For well-formed boxes it is at
   * least either box's area, and the intersection, plus the epsilon.
   */
  function UnionArea(b1: CornerBox, b2: CornerBox): (u: real)
    ensures WellFormed(b1) && WellFormed(b2) ==>
      u >= Area(b1) + Eps && u >= Area(b2) + Eps && u >= InterArea(b1, b2) + Eps
  {
    var a1, a2, i := Area(b1), Area(b2), InterArea(b1, b2);
    if WellFormed(b1) && WellFormed(b2) then
      InterBelowBoth(b1, b2);
      UnionBelow(a1, a2, i);
      a1 + a2 - i + Eps
    else a1 + a2 - i + Eps
  }

  /** For well-formed boxes the intersection lies between 0 and either box's area. */
  lemma InterBelowBoth(b1: CornerBox, b2: CornerBox)
    requires WellFormed(b1) && WellFormed(b2)
    ensures 0.0 <= InterArea(b1, b2) <= Area(b1) && InterArea(b1, b2) <= Area(b2)
  {
    InterBelowArea(b1, b2);
    InterBelowArea(b2, b1);
    InterSymmetric(b1, b2);
  }

  /** The intersection does not depend on the order of the boxes. */
  lemma InterSymmetric(b1: CornerBox, b2: CornerBox)
    ensures InterArea(b1, b2) == InterArea(b2, b1)
  {
    assert Min(b1.x2, b2.x2) == Min(b2.x2, b1.x2) && Max(b1.x1, b2.x1) == Max(b2.x1, b1.x1);
    assert Min(b1.y2, b2.y2) == Min(b2.y2, b1.y2) && Max(b1.y1, b2.y1) == Max(b2.y1, b1.y1);
  }

  /** Adding a second area no smaller than the overlap never shrinks the first. */
  lemma UnionBelow(a1: real, a2: real, i: real)
    requires 0.0 <= i <= a1 && i <= a2
    ensures a1 + a2 - i + Eps >= a1 + Eps && a1 + a2 - i + Eps >= a2 + Eps && a1 + a2 - i + Eps >= i + Eps
  {
  }

  /**
   * The IoU test on a quotient, without division: for a positive union the
   * ratio exceeds t exactly when the intersection exceeds t times the union;
   * for a zero union exactly when the intersection is positive (+inf).
   */
  lemma ExceedsQuotient(inter: real, union: real, t: real)
    requires union >= 0.0
    ensures union > 0.0 ==> (Exceeds(Divide(inter, union), t) <==> inter > t * union)
    ensures union == 0.0 ==> (Exceeds(Divide(inter, union), t) <==> inter > 0.0)
  {
    if union > 0.0 {
      assert inter / union * union == inter;
      if inter / union > t {
        assert inter / union * union > t * union;
      } else {
        assert inter / union * union <= t * union;
      }
    }
  }

  /** What bbox_iou returns: the ratio, or with get_areas the pair (inter, union). */
  datatype IouResult = IouRatio(ratio: Ratio) | Areas(inter: real, union: real)

  /** bbox_iou for corner-form boxes (x1y1x2y2 set). */
  function BboxIou(box1: CornerBox, box2: CornerBox, getAreas: bool): (r: IouResult)
    ensures getAreas <==> r.Areas?
  {
    if getAreas then Areas(InterArea(box1, box2), UnionArea(box1, box2))
    else IouRatio(Divide(InterArea(box1, box2), UnionArea(box1, box2)))
  }

  /** bbox_iou with x1y1x2y2 unset: both boxes are first read in centre form. */
  function BboxIouCenter(box1: CenterBox, box2: CenterBox, getAreas: bool): (r: IouResult)
    ensures getAreas <==> r.Areas?
    ensures !getAreas && box1.w >= 0.0 && box1.h >= 0.0 && box2.w >= 0.0 && box2.h >= 0.0 ==>
      r.ratio.Finite? && 0.0 <= r.ratio.value < 1.0
  {
    var c1, c2 := XywhToXyxy(box1), XywhToXyxy(box2);
    var r := BboxIou(c1, c2, getAreas);
    if WellFormed(c1) && WellFormed(c2) then IouBounds(c1, c2); r else r
  }

  /** Swapping the two boxes changes neither areas nor ratio. */
  lemma IouSymmetric(box1: CornerBox, box2: CornerBox, getAreas: bool)
    ensures BboxIou(box1, box2, getAreas) == BboxIou(box2, box1, getAreas)
  {
    InterSymmetric(box1, box2);
    assert UnionArea(box1, box2) == UnionArea(box2, box1);
  }

  /** The get_areas pair divides to the plain result. */
  lemma IouFromAreas(box1: CornerBox, box2: CornerBox)
    ensures var a := BboxIou(box1, box2, true);
      BboxIou(box1, box2, false) == IouRatio(Divide(a.inter, a.union))
  {
  }

  /** 0 <= p <= P and 0 <= q <= Q give p * q <= P * Q. */
  lemma MulMono(p: real, q: real, bp: real, bq: real)
    requires 0.0 <= p <= bp && 0.0 <= q <= bq
    ensures p * q <= bp * bq
  {
    assert p * q <= bp * q;
    assert bp * q <= bp * bq;
  }

  /** For a well-formed box, the intersection never exceeds its area. */
  lemma InterBelowArea(b1: CornerBox, b2: CornerBox)
    requires WellFormed(b1)
    ensures InterArea(b1, b2) <= Area(b1)
  {
    var dx := ClampMin0(Min(b1.x2, b2.x2) - Max(b1.x1, b2.x1) + 1.0);
    var dy := ClampMin0(Min(b1.y2, b2.y2) - Max(b1.y1, b2.y1) + 1.0);
    MulMono(dx, dy, b1.x2 - b1.x1 + 1.0, b1.y2 - b1.y1 + 1.0);
  }

  /**
   * For well-formed boxes the union exceeds the intersection by at least the
   * epsilon, so the ratio is finite, non-negative and strictly below 1.
   */
  lemma IouBounds(box1: CornerBox, box2: CornerBox)
    requires WellFormed(box1) && WellFormed(box2)
    ensures 0.0 <= InterArea(box1, box2)
    ensures InterArea(box1, box2) + Eps <= UnionArea(box1, box2)
    ensures var r := BboxIou(box1, box2, false).ratio;
      r.Finite? && 0.0 <= r.value < 1.0
  {
    QuotientBelowOne(InterArea(box1, box2), UnionArea(box1, box2));
  }

  /** A non-negative part over a whole that exceeds it by the epsilon is in [0, 1). */
  lemma QuotientBelowOne(i: real, u: real)
    requires 0.0 <= i && i + Eps <= u
    ensures u > 0.0 && 0.0 <= i / u < 1.0
  {
    assert i / u * u == i;
  }

  /**
   * Over exact reals, a box scored against itself gets area / (area +
   * epsilon), just below 1. (In floating point the epsilon is lost against an
   * area of at least 1 and the quotient is exactly 1.)
   */
  lemma SelfIou(b: CornerBox)
    requires WellFormed(b)
    ensures Area(b) >= 1.0
    ensures BboxIou(b, b, false) == IouRatio(Finite(Area(b) / (Area(b) + Eps)))
    ensures BboxIou(b, b, false).ratio.value < 1.0
  {
    MulMono(1.0, 1.0, b.x2 - b.x1 + 1.0, b.y2 - b.y1 + 1.0);
    InterBelowArea(b, b);
    IouBounds(b, b);
    assert InterArea(b, b) == Area(b);
  }

  /** Boxes a full pixel apart along one axis have IoU 0. */
  lemma DisjointIou(box1: CornerBox, box2: CornerBox)
    requires WellFormed(box1) && WellFormed(box2)
    requires box1.x2 + 1.0 <= box2.x1 || box2.x2 + 1.0 <= box1.x1
          || box1.y2 + 1.0 <= box2.y1 || box2.y2 + 1.0 <= box1.y1
    ensures BboxIou(box1, box2, true).inter == 0.0
    ensures BboxIou(box1, box2, false) == IouRatio(Finite(0.0))
  {
    IouBounds(box1, box2);
  }
}
