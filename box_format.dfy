/**
 * Bounding boxes and the conversion between centre form (cx, cy, w, h)
 * and corner form (x1, y1, x2, y2), as done column by column by
 * xyxy2xywh and xywh2xyxy on one box row at a time.
 */
module BoxFormat {

  /** A box given by its centre and its width and height. */
  datatype CenterBox = CenterBox(cx: real, cy: real, w: real, h: real)

  /** A box given by its top-left and bottom-right corners. */
  datatype CornerBox = CornerBox(x1: real, y1: real, x2: real, y2: real)

  /** The corner-form invariant that conversion does not enforce. */
  predicate WellFormed(b: CornerBox) {
    b.x1 <= b.x2 && b.y1 <= b.y2
  }

  /** xywh2xyxy on one box: the corners lie half a width (height) either side of the centre. */
  function XywhToXyxy(b: CenterBox): (r: CornerBox)
    ensures r.x2 - r.x1 == b.w && r.y2 - r.y1 == b.h
    ensures (r.x1 + r.x2) / 2.0 == b.cx && (r.y1 + r.y2) / 2.0 == b.cy
    ensures WellFormed(r) <==> b.w >= 0.0 && b.h >= 0.0
  {
    CornerBox(b.cx - b.w / 2.0, b.cy - b.h / 2.0, b.cx + b.w / 2.0, b.cy + b.h / 2.0)
  }

  /** xyxy2xywh on one box: the centre and size recover both corners. */
  function XyxyToXywh(b: CornerBox): (r: CenterBox)
    ensures r.cx - r.w / 2.0 == b.x1 && r.cx + r.w / 2.0 == b.x2
    ensures r.cy - r.h / 2.0 == b.y1 && r.cy + r.h / 2.0 == b.y2
    ensures WellFormed(b) <==> r.w >= 0.0 && r.h >= 0.0
  {
    CenterBox((b.x1 + b.x2) / 2.0, (b.y1 + b.y2) / 2.0, b.x2 - b.x1, b.y2 - b.y1)
  }

  /** Centre form to corner form and back is the identity. */
  lemma CenterRoundTrip(b: CenterBox)
    ensures XyxyToXywh(XywhToXyxy(b)) == b
  {
  }

  /** Corner form to centre form and back is the identity. */
  lemma CornerRoundTrip(b: CornerBox)
    ensures XywhToXyxy(XyxyToXywh(b)) == b
  {
  }

  /** xywh2xyxy applied to every row of a box array. */
  function XywhToXyxyAll(s: seq<CenterBox>): (r: seq<CornerBox>)
    ensures |r| == |s|
    ensures forall k :: 0 <= k < |s| ==> XyxyToXywh(r[k]) == s[k]
  {
    seq(|s|, k requires 0 <= k < |s| => XywhToXyxy(s[k]))
  }
}
