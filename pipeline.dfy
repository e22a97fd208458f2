/**
 * get_bboxes_from_anchors: per batch image, keep the anchors above the
 * confidence threshold, suppress overlaps (depth-aware when a depth layer is
 * given, torchvision's plain NMS otherwise), and label each surviving anchor
 * with the table entry of its highest class score.
 */
module Pipeline {
  import opened Wrappers
  import opened BoxFormat
  import opened DepthNms

  /** One anchor row: box (centre form), confidence, class scores (columns 0:4, 4, 5:). */
  datatype Anchor = Anchor(box: CenterBox, confidence: real, classScores: seq<real>)

  /** The exceptions the source can raise past its callers. */
  datatype Error =
    | EmptyClassScores          // argmax over zero class columns
    | MissingLabel(index: nat)  // KeyError from the label table
    | IndexOutOfRange(index: nat)  // plain NMS returned an index past the rows
    | FloatIndex                // IndexError: a float tensor used as an index

  /** What one image contributes: its kept anchors and their labels. */
  datatype Detections = Detections(bboxes: seq<Anchor>, labels: seq<string>)

  /** The pair of lists the function returns, one entry per batch image. */
  datatype BatchDetections = BatchDetections(batchBboxes: seq<seq<Anchor>>, labels: seq<seq<string>>)

  /** The foreign plain-NMS primitive: corner boxes, scores, threshold to kept indices. */
  type PlainNms = (seq<CornerBox>, seq<real>, real) -> seq<nat>

  /** a can be obtained from b by deleting elements. */
  predicate IsSubsequence<T(==)>(a: seq<T>, b: seq<T>)
    decreases |b|
  {
    if a == [] then true
    else if b == [] then false
    else (a[0] == b[0] && IsSubsequence(a[1..], b[1..])) || IsSubsequence(a, b[1..])
  }

  /** The positions whose flag is set, counted from off, in increasing order. */
  function MaskFrom(m: seq<bool>, off: nat): (idx: seq<nat>)
    ensures forall t :: 0 <= t < |idx| ==> off <= idx[t] < off + |m|
    ensures forall t :: 0 <= t < |idx| ==> m[idx[t] - off]
    ensures forall t, u :: 0 <= t < u < |idx| ==> idx[t] < idx[u]
  {
    if m == [] then []
    else
      var rest := MaskFrom(m[1..], off + 1);
      if m[0] then [off] + rest else rest
  }

  /** Every flagged position is listed. */
  lemma {:induction false} MaskFromComplete(m: seq<bool>, off: nat)
    ensures forall k :: off <= k < off + |m| && m[k - off] ==> k in MaskFrom(m, off)
  {
    if m != [] {
      MaskFromComplete(m[1..], off + 1);
      forall j | 1 <= j < |m| && m[j]
        ensures off + j in MaskFrom(m[1..], off + 1)
      {
        assert m[1..][(off + j) - (off + 1)];
      }
    }
  }

  /** Counting from one further on moves every position by one. */
  lemma {:induction false} MaskFromShift(m: seq<bool>, off: nat)
    ensures |MaskFrom(m, off + 1)| == |MaskFrom(m, off)|
    ensures forall t :: 0 <= t < |MaskFrom(m, off)| ==> MaskFrom(m, off + 1)[t] == MaskFrom(m, off)[t] + 1
  {
    if m != [] {
      MaskFromShift(m[1..], off + 1);
      var lo, hi := MaskFrom(m[1..], off + 1), MaskFrom(m[1..], off + 2);
      if m[0] {
        assert MaskFrom(m, off) == [off] + lo && MaskFrom(m, off + 1) == [off + 1] + hi;
      } else {
        assert MaskFrom(m, off) == lo && MaskFrom(m, off + 1) == hi;
      }
    }
  }

  /** The flagged positions of m, in increasing order. */
  function MaskIndices(m: seq<bool>): (idx: seq<nat>)
    ensures forall t :: 0 <= t < |idx| ==> idx[t] < |m| && m[idx[t]]
    ensures forall t, u :: 0 <= t < u < |idx| ==> idx[t] < idx[u]
  {
    MaskFrom(m, 0)
  }

  /** Every flagged position of m is among MaskIndices(m). */
  lemma MaskIndicesComplete(m: seq<bool>)
    ensures forall k :: 0 <= k < |m| && m[k] ==> k in MaskIndices(m)
  {
    MaskFromComplete(m, 0);
  }

  /**
   * Boolean-mask indexing: the elements whose flag is set, each once, in their
   * original order (position t of the result is the t-th flagged position).
   */
  function Masked<T>(s: seq<T>, m: seq<bool>): (r: seq<T>)
    requires |m| == |s|
    ensures |r| == |MaskIndices(m)|
    ensures forall t :: 0 <= t < |r| ==> r[t] == s[MaskIndices(m)[t]]
    ensures IsSubsequence(r, s)
    ensures forall k :: 0 <= k < |s| && m[k] ==> s[k] in r
    ensures forall x :: x in r ==> exists k :: 0 <= k < |s| && m[k] && s[k] == x
    ensures (forall k :: 0 <= k < |m| ==> !m[k]) <==> r == []
  {
    if s == [] then []
    else
      var rest := Masked(s[1..], m[1..]);
      var r := if m[0] then [s[0]] + rest else rest;
      ConsIndexed(s, m, rest);
      assert m[0] ==> r[1..] == rest;
      IndexedMembers(r, s, m);
      r
  }

  /** The flagged positions of a non-empty mask: maybe 0, then those of its tail moved by one. */
  lemma MaskIndicesCons(m: seq<bool>)
    requires |m| > 0
    ensures var d := if m[0] then 1 else 0;
      |MaskIndices(m)| == |MaskIndices(m[1..])| + d
      && (m[0] ==> MaskIndices(m)[0] == 0)
      && forall t :: 0 <= t < |MaskIndices(m[1..])| ==> MaskIndices(m)[t + d] == MaskIndices(m[1..])[t] + 1
  {
    MaskFromShift(m[1..], 0);
  }

  /** Putting the flagged head in front of the tail's masked elements lists the flagged elements. */
  lemma ConsIndexed<T>(s: seq<T>, m: seq<bool>, rest: seq<T>)
    requires |m| == |s| > 0
    requires |rest| == |MaskIndices(m[1..])|
    requires forall t :: 0 <= t < |rest| ==> rest[t] == s[1..][MaskIndices(m[1..])[t]]
    ensures var r := if m[0] then [s[0]] + rest else rest;
      |r| == |MaskIndices(m)| && forall t :: 0 <= t < |r| ==> r[t] == s[MaskIndices(m)[t]]
  {
    MaskIndicesCons(m);
    var r := if m[0] then [s[0]] + rest else rest;
    var d := if m[0] then 1 else 0;
    var tail, idx := MaskIndices(m[1..]), MaskIndices(m);
    forall t | 0 <= t < |r|
      ensures r[t] == s[idx[t]]
    {
      if t >= d {
        var u := t - d;
        assert r[t] == rest[u];
        assert rest[u] == s[1..][tail[u]] == s[tail[u] + 1];
        assert idx[u + d] == tail[u] + 1;
      }
    }
  }

  /** A sequence that lists the flagged elements by position has exactly those elements. */
  lemma IndexedMembers<T>(r: seq<T>, s: seq<T>, m: seq<bool>)
    requires |m| == |s|
    requires |r| == |MaskIndices(m)| && forall t :: 0 <= t < |r| ==> r[t] == s[MaskIndices(m)[t]]
    ensures forall k :: 0 <= k < |s| && m[k] ==> s[k] in r
    ensures forall x :: x in r ==> exists k :: 0 <= k < |s| && m[k] && s[k] == x
    ensures (forall k :: 0 <= k < |m| ==> !m[k]) <==> r == []
  {
    var idx := MaskIndices(m);
    MaskIndicesComplete(m);
    forall k | 0 <= k < |s| && m[k]
      ensures s[k] in r
    {
      var t :| 0 <= t < |idx| && idx[t] == k;
      assert r[t] == s[k];
    }
    forall x | x in r
      ensures exists k :: 0 <= k < |s| && m[k] && s[k] == x
    {
      var t :| 0 <= t < |r| && r[t] == x;
      assert m[idx[t]] && s[idx[t]] == x;
    }
    if r != [] {
      assert m[idx[0]];
    }
  }

  /** Which anchors have a confidence above the threshold. */
  function AboveThreshold(anchors: seq<Anchor>, threshold: real): (m: seq<bool>)
    ensures |m| == |anchors|
    ensures forall k :: 0 <= k < |anchors| ==> (m[k] <==> anchors[k].confidence > threshold)
  {
    seq(|anchors|, k requires 0 <= k < |anchors| => anchors[k].confidence > threshold)
  }

  /**
   * The confidence filter: every anchor whose confidence is above the
   * threshold, each once and in the image's order, and no other anchor.
   */
  function ConfidenceFilter(anchors: seq<Anchor>, threshold: real): (r: seq<Anchor>)
    ensures IsSubsequence(r, anchors)
    ensures forall a :: a in r ==> a in anchors && a.confidence > threshold
    ensures forall a :: a in anchors && a.confidence > threshold ==> a in r
  {
    Masked(anchors, AboveThreshold(anchors, threshold))
  }

  /**
   * Count and order of the filter: position t of the result is the anchor at
   * the t-th position whose confidence is above the threshold.
   */
  lemma ConfidenceFilterOrder(anchors: seq<Anchor>, threshold: real)
    ensures var r, idx := ConfidenceFilter(anchors, threshold), MaskIndices(AboveThreshold(anchors, threshold));
      |r| == |idx| && (forall t :: 0 <= t < |r| ==> r[t] == anchors[idx[t]])
      && forall k :: 0 <= k < |anchors| && anchors[k].confidence > threshold ==> k in idx
  {
    MaskIndicesComplete(AboveThreshold(anchors, threshold));
  }

  /** Column 4 of the rows. */
  function Confidences(anchors: seq<Anchor>): (r: seq<real>)
    ensures |r| == |anchors|
  {
    seq(|anchors|, k requires 0 <= k < |anchors| => anchors[k].confidence)
  }

  /** The corner form of each anchor's box. */
  function CornerBoxes(anchors: seq<Anchor>): (r: seq<CornerBox>)
    ensures |r| == |anchors|
    ensures forall k :: 0 <= k < |anchors| ==> XyxyToXywh(r[k]) == anchors[k].box
  {
    XywhToXyxyAll(seq(|anchors|, k requires 0 <= k < |anchors| => anchors[k].box))
  }

  /**
   * The rows with their confidence column replaced. The suppressor is handed a
   * view of that column, so its writes land in the rows themselves; nothing
   * else in a row changes.
   */
  function WithConfidences(anchors: seq<Anchor>, c: seq<real>): (r: seq<Anchor>)
    requires |c| == |anchors|
    ensures |r| == |anchors|
    ensures forall k :: 0 <= k < |anchors| ==>
      r[k].box == anchors[k].box && r[k].classScores == anchors[k].classScores && r[k].confidence == c[k]
    ensures c == Confidences(anchors) ==> r == anchors
  {
    seq(|anchors|, k requires 0 <= k < |anchors| => anchors[k].(confidence := c[k]))
  }

  /** Selecting rows by a list of indices, failing on the first index past the end. */
  function Gather(s: seq<Anchor>, idx: seq<nat>): (r: Result<seq<Anchor>, Error>)
    ensures r.Success? <==> forall k :: 0 <= k < |idx| ==> idx[k] < |s|
    ensures r.Success? ==> |r.value| == |idx| && forall k :: 0 <= k < |idx| ==> r.value[k] == s[idx[k]]
    ensures r.Failure? ==> exists k :: 0 <= k < |idx| && idx[k] >= |s| && r.error == IndexOutOfRange(idx[k])
  {
    if idx == [] then Success([])
    else if idx[0] >= |s| then Failure(IndexOutOfRange(idx[0]))
    else
      var rest := Gather(s, idx[1..]);
      if rest.Failure? then rest else Success([s[idx[0]]] + rest.value)
  }

  /** torch argmax: the index of the first maximal score. */
  function Argmax(s: seq<real>): (k: nat)
    requires |s| > 0
    ensures k < |s|
    ensures forall i :: 0 <= i < |s| ==> s[i] <= s[k]
    ensures forall i :: 0 <= i < k ==> s[i] < s[k]
  {
    if |s| == 1 then 0
    else
      var m := Argmax(s[..|s| - 1]);
      if s[|s| - 1] > s[m] then |s| - 1 else m
  }

  /** The table entry of each index in turn; the first missing key raises. */
  function LookupLabels(idx: seq<nat>, labelsDict: map<int, string>): (r: Result<seq<string>, Error>)
    ensures r.Success? <==> forall k :: 0 <= k < |idx| ==> idx[k] in labelsDict
    ensures r.Success? ==> |r.value| == |idx| && forall k :: 0 <= k < |idx| ==> r.value[k] == labelsDict[idx[k]]
    ensures r.Failure? ==> exists k :: (0 <= k < |idx| && idx[k] !in labelsDict && r.error == MissingLabel(idx[k])
      && forall i :: 0 <= i < k ==> idx[i] in labelsDict)
  {
    if idx == [] then Success([])
    else if idx[0] !in labelsDict then Failure(MissingLabel(idx[0]))
    else
      var rest := LookupLabels(idx[1..], labelsDict);
      if rest.Failure? then rest else Success([labelsDict[idx[0]]] + rest.value)
  }

  /**
   * The label of each kept anchor: the table entry of its first maximal class
   * score, after every anchor's argmax has been taken.
   */
  function ImageLabels(kept: seq<Anchor>, labelsDict: map<int, string>): (r: Result<seq<string>, Error>)
    ensures r.Success? ==> |r.value| == |kept|
    ensures r.Success? ==> forall k :: 0 <= k < |kept| ==>
      |kept[k].classScores| > 0 && Argmax(kept[k].classScores) in labelsDict
      && r.value[k] == labelsDict[Argmax(kept[k].classScores)]
    ensures (forall k :: 0 <= k < |kept| ==>
      |kept[k].classScores| > 0 && Argmax(kept[k].classScores) in labelsDict) ==> r.Success?
  {
    if forall k :: 0 <= k < |kept| ==> |kept[k].classScores| > 0 then
      var idx := seq(|kept|, k requires 0 <= k < |kept| => Argmax(kept[k].classScores));
      assert forall k :: 0 <= k < |kept| ==> idx[k] == Argmax(kept[k].classScores);
      LookupLabels(idx, labelsDict)
    else Failure(EmptyClassScores)
  }

  /** The anchors of one image that survive suppression. */
  function KeptAnchors(filtered: seq<Anchor>, iouThreshold: real, depthLayer: Option<DepthLayer>,
                       depthThreshold: real, plainNms: PlainNms): Result<seq<Anchor>, Error>
  {
    var boxes := CornerBoxes(filtered);
    match depthLayer
    case Some(layer) =>
      var p := Params(iouThreshold, layer, depthThreshold);
      var c := Sweep(boxes, Confidences(filtered), p);
      Success(Masked(WithConfidences(filtered, c), DepthKeep(boxes, Confidences(filtered), p)))
    case None =>
      Gather(filtered, plainNms(boxes, Confidences(filtered), iouThreshold))
  }

  /**
   * The depth branch cannot fail and keeps the filtered rows its mask
   * selects, unchanged by the suppressor's writes; the plain branch fails
   * exactly when plain NMS returns an index past the rows. Every kept anchor
   * is one of the filtered ones.
   */
  lemma KeptAnchorsSound(filtered: seq<Anchor>, iouThreshold: real, depthLayer: Option<DepthLayer>,
                         depthThreshold: real, plainNms: PlainNms)
    ensures var r := KeptAnchors(filtered, iouThreshold, depthLayer, depthThreshold, plainNms);
      (depthLayer.Some? ==> r == Success(Masked(filtered,
        DepthKeep(CornerBoxes(filtered), Confidences(filtered), Params(iouThreshold, depthLayer.value, depthThreshold)))))
      && (depthLayer.None? ==> var idx := plainNms(CornerBoxes(filtered), Confidences(filtered), iouThreshold);
        (r.Success? <==> forall k :: 0 <= k < |idx| ==> idx[k] < |filtered|))
      && (r.Success? ==> forall a :: a in r.value ==> a in filtered)
  {
    if depthLayer.Some? {
      DepthKeptRowsUnchanged(filtered, Params(iouThreshold, depthLayer.value, depthThreshold));
    }
  }

  /**
   * What the loop body computes for one batch image. A result has one label
   * per kept anchor; with a depth layer the only errors are those of the label
   * lookup (ImageResultSound says which anchors are kept).
   */
  function ImageResult(img: seq<Anchor>, confidenceThreshold: real, iouThreshold: real,
                       labelsDict: map<int, string>, depthLayer: Option<DepthLayer>,
                       depthThreshold: real, plainNms: PlainNms): (r: Result<Detections, Error>)
    ensures r.Success? ==> |r.value.labels| == |r.value.bboxes|
    ensures depthLayer.Some? && r.Failure? ==> r.error == EmptyClassScores || r.error.MissingLabel?
  {
    var filtered := ConfidenceFilter(img, confidenceThreshold);
    var kept :- KeptAnchors(filtered, iouThreshold, depthLayer, depthThreshold, plainNms);
    var labels :- ImageLabels(kept, labelsDict);
    Success(Detections(kept, labels))
  }

  /** Masking two sequences that agree wherever the mask is set gives the same result. */
  lemma {:induction false} MaskedAgrees<T>(s: seq<T>, t: seq<T>, m: seq<bool>)
    requires |s| == |t| == |m|
    requires forall k :: 0 <= k < |m| && m[k] ==> s[k] == t[k]
    ensures Masked(s, m) == Masked(t, m)
  {
    if s != [] {
      MaskedAgrees(s[1..], t[1..], m[1..]);
    }
  }

  /**
   * The suppressor's writes into the confidence column never reach a kept row:
   * a kept row's confidence is non-zero, hence unchanged by the sweep.
   */
  lemma DepthKeptRowsUnchanged(filtered: seq<Anchor>, p: Params)
    ensures var boxes, conf := CornerBoxes(filtered), Confidences(filtered);
      Masked(WithConfidences(filtered, Sweep(boxes, conf, p)), DepthKeep(boxes, conf, p))
        == Masked(filtered, DepthKeep(boxes, conf, p))
  {
    var boxes, conf := CornerBoxes(filtered), Confidences(filtered);
    var c := Sweep(boxes, conf, p);
    var keep := DepthKeep(boxes, conf, p);
    forall k | 0 <= k < |keep| && keep[k]
      ensures WithConfidences(filtered, c)[k] == filtered[k]
    {
      assert c[k] != 0.0;
    }
    MaskedAgrees(WithConfidences(filtered, c), filtered, keep);
  }

  /** A successful image result is made of the kept anchors and their looked-up labels. */
  lemma ImageResultParts(img: seq<Anchor>, confidenceThreshold: real, iouThreshold: real,
                         labelsDict: map<int, string>, depthLayer: Option<DepthLayer>,
                         depthThreshold: real, plainNms: PlainNms)
    requires ImageResult(img, confidenceThreshold, iouThreshold, labelsDict, depthLayer, depthThreshold, plainNms).Success?
    ensures var d := ImageResult(img, confidenceThreshold, iouThreshold, labelsDict, depthLayer, depthThreshold, plainNms).value;
      var kept := KeptAnchors(ConfidenceFilter(img, confidenceThreshold), iouThreshold, depthLayer, depthThreshold, plainNms);
      kept == Success(d.bboxes) && ImageLabels(d.bboxes, labelsDict) == Success(d.labels)
  {
  }

  /**
   * One image's result: a label per kept anchor, each the table entry of the
   * anchor's first maximal class score, and every kept anchor above the
   * confidence threshold and among the image's anchors.
   */
  lemma ImageResultSound(img: seq<Anchor>, confidenceThreshold: real, iouThreshold: real,
                         labelsDict: map<int, string>, depthLayer: Option<DepthLayer>,
                         depthThreshold: real, plainNms: PlainNms)
    requires ImageResult(img, confidenceThreshold, iouThreshold, labelsDict, depthLayer, depthThreshold, plainNms).Success?
    ensures var d := ImageResult(img, confidenceThreshold, iouThreshold, labelsDict, depthLayer, depthThreshold, plainNms).value;
      |d.labels| == |d.bboxes|
      && (d.bboxes == [] ==> d.labels == [])
      && (forall k :: 0 <= k < |d.bboxes| ==>
            d.bboxes[k] in img && d.bboxes[k].confidence > confidenceThreshold
            && |d.bboxes[k].classScores| > 0 && Argmax(d.bboxes[k].classScores) in labelsDict
            && d.labels[k] == labelsDict[Argmax(d.bboxes[k].classScores)])
  {
    var filtered := ConfidenceFilter(img, confidenceThreshold);
    KeptAnchorsSound(filtered, iouThreshold, depthLayer, depthThreshold, plainNms);
    ImageResultParts(img, confidenceThreshold, iouThreshold, labelsDict, depthLayer, depthThreshold, plainNms);
    var d := ImageResult(img, confidenceThreshold, iouThreshold, labelsDict, depthLayer, depthThreshold, plainNms).value;
    forall k | 0 <= k < |d.bboxes|
      ensures d.bboxes[k] in img && d.bboxes[k].confidence > confidenceThreshold
    {
      assert d.bboxes[k] in d.bboxes;
    }
  }

  /**
   * With a depth layer, the kept anchors are the filtered anchors selected by
   * the depth-aware mask (so a subsequence of them, no two of them a firing
   * pair) with their original rows.
   */
  lemma DepthBranchSelects(img: seq<Anchor>, confidenceThreshold: real, iouThreshold: real,
                           labelsDict: map<int, string>, layer: DepthLayer,
                           depthThreshold: real, plainNms: PlainNms)
    requires ImageResult(img, confidenceThreshold, iouThreshold, labelsDict, Some(layer), depthThreshold, plainNms).Success?
    ensures var filtered := ConfidenceFilter(img, confidenceThreshold);
      var d := ImageResult(img, confidenceThreshold, iouThreshold, labelsDict, Some(layer), depthThreshold, plainNms).value;
      var keep := DepthKeep(CornerBoxes(filtered), Confidences(filtered), Params(iouThreshold, layer, depthThreshold));
      d.bboxes == Masked(filtered, keep) && IsSubsequence(d.bboxes, filtered)
  {
    ImageResultParts(img, confidenceThreshold, iouThreshold, labelsDict, Some(layer), depthThreshold, plainNms);
    KeptAnchorsSound(ConfidenceFilter(img, confidenceThreshold), iouThreshold, Some(layer), depthThreshold, plainNms);
  }

  /**
   * The depth branch with utils.py:97 and :134 as written, but with the
   * intended pairwise IoU at :101 and the intended per-box bonus at :107-110
   * (as written, those lines raise for two or more filtered anchors). For an
   * image with no anchor above the threshold the suppressor hands back the
   * empty float box tensor instead of a mask, and indexing the rows with a
   * float tensor raises IndexError. Otherwise it agrees with KeptAnchors.
   */
  function DepthKeptAsWritten(filtered: seq<Anchor>, p: Params): (r: Result<seq<Anchor>, Error>)
    ensures r.Failure? <==> filtered == []
    ensures r.Failure? ==> r.error == FloatIndex
    ensures r.Success? ==> r.value == Masked(filtered, DepthKeep(CornerBoxes(filtered), Confidences(filtered), p))
  {
    if filtered == [] then Failure(FloatIndex)
    else
      var boxes := CornerBoxes(filtered);
      DepthKeptRowsUnchanged(filtered, p);
      Success(Masked(WithConfidences(filtered, Sweep(boxes, Confidences(filtered), p)), DepthKeep(boxes, Confidences(filtered), p)))
  }

  /** As written, a depth-branch image with no anchor above the threshold raises. */
  lemma EmptyImageRaisesAsWritten(img: seq<Anchor>, confidenceThreshold: real, p: Params)
    requires forall k :: 0 <= k < |img| ==> img[k].confidence <= confidenceThreshold
    ensures DepthKeptAsWritten(ConfidenceFilter(img, confidenceThreshold), p) == Failure(FloatIndex)
  {
  }

  /**
   * The intended behaviour the model follows: an image with no anchor above
   * the threshold yields no boxes and no labels (as written, the depth branch
   * raises there instead; see DepthKeptAsWritten).
   */
  lemma EmptyImage(img: seq<Anchor>, confidenceThreshold: real, iouThreshold: real,
                   labelsDict: map<int, string>, layer: DepthLayer, depthThreshold: real, plainNms: PlainNms)
    requires forall k :: 0 <= k < |img| ==> img[k].confidence <= confidenceThreshold
    ensures ImageResult(img, confidenceThreshold, iouThreshold, labelsDict, Some(layer), depthThreshold, plainNms)
      == Success(Detections([], []))
  {
  }

  /**
   * The depth branch of one image: run the in-place suppressor on the
   * confidence column and keep the rows of its mask. The rows come back as
   * they were, since the suppressor only writes into rows it drops.
   */
  method SuppressWithDepth(imgAnchor: seq<Anchor>, iouThreshold: real, layer: DepthLayer, depthThreshold: real)
    returns (kept: seq<Anchor>)
    ensures kept == Masked(imgAnchor,
      DepthKeep(CornerBoxes(imgAnchor), Confidences(imgAnchor), Params(iouThreshold, layer, depthThreshold)))
  {
    var boxes := CornerBoxes(imgAnchor);
    var confidence := new real[|imgAnchor|](k => if 0 <= k < |imgAnchor| then imgAnchor[k].confidence else 0.0);
    assert confidence[..] == Confidences(imgAnchor);
    var keep := NmsWithDepth(boxes, confidence, iouThreshold, layer, depthThreshold);
    kept := Masked(WithConfidences(imgAnchor, confidence[..]), keep);
    DepthKeptRowsUnchanged(imgAnchor, Params(iouThreshold, layer, depthThreshold));
  }

  /** The loop body of get_bboxes_from_anchors for one batch image. */
  method ProcessImage(img: seq<Anchor>, confidenceThreshold: real, iouThreshold: real,
                      labelsDict: map<int, string>, depthLayer: Option<DepthLayer>,
                      depthThreshold: real, plainNms: PlainNms)
    returns (r: Result<Detections, Error>)
    ensures r == ImageResult(img, confidenceThreshold, iouThreshold, labelsDict, depthLayer, depthThreshold, plainNms)
  {
    var imgAnchor := ConfidenceFilter(img, confidenceThreshold);
    var boxes := CornerBoxes(imgAnchor);
    var imgBboxes: seq<Anchor>;
    match depthLayer {
      case Some(layer) =>
        imgBboxes := SuppressWithDepth(imgAnchor, iouThreshold, layer, depthThreshold);
      case None =>
        var kept := Gather(imgAnchor, plainNms(boxes, Confidences(imgAnchor), iouThreshold));
        if kept.Failure? {
          return Failure(kept.error);
        }
        imgBboxes := kept.value;
    }
    KeptAnchorsSound(imgAnchor, iouThreshold, depthLayer, depthThreshold, plainNms);
    assert Success(imgBboxes) == KeptAnchors(imgAnchor, iouThreshold, depthLayer, depthThreshold, plainNms);
    if |imgBboxes| == 0 {
      return Success(Detections(imgBboxes, []));
    }
    var imgLabels := ImageLabels(imgBboxes, labelsDict);
    if imgLabels.Failure? {
      return Failure(imgLabels.error);
    }
    return Success(Detections(imgBboxes, imgLabels.value));
  }

  /**
   * Combining per-image results in batch order: the lists of every image, or
   * the error of the first image that raises.
   */
  function Collect(rs: seq<Result<Detections, Error>>): (r: Result<BatchDetections, Error>)
    ensures r.Success? ==> |r.value.batchBboxes| == |rs| && |r.value.labels| == |rs|
    ensures r.Failure? ==> exists b :: 0 <= b < |rs| && rs[b] == Failure(r.error)
    decreases |rs|
  {
    if rs == [] then Success(BatchDetections([], []))
    else
      var done :- Collect(rs[..|rs| - 1]);
      var d :- rs[|rs| - 1];
      Success(BatchDetections(done.batchBboxes + [d.bboxes], done.labels + [d.labels]))
  }

  /** The result of every batch image on its own. */
  function ImageResults(anchors: seq<seq<Anchor>>, confidenceThreshold: real, iouThreshold: real,
                        labelsDict: map<int, string>, depthLayer: Option<DepthLayer>,
                        depthThreshold: real, plainNms: PlainNms): (rs: seq<Result<Detections, Error>>)
    ensures |rs| == |anchors|
  {
    seq(|anchors|, b requires 0 <= b < |anchors| =>
      ImageResult(anchors[b], confidenceThreshold, iouThreshold, labelsDict, depthLayer, depthThreshold, plainNms))
  }

  /** Entry b of the per-image results is batch image b's own result. */
  lemma ImageResultsAt(anchors: seq<seq<Anchor>>, confidenceThreshold: real, iouThreshold: real,
                       labelsDict: map<int, string>, depthLayer: Option<DepthLayer>,
                       depthThreshold: real, plainNms: PlainNms)
    ensures var rs := ImageResults(anchors, confidenceThreshold, iouThreshold, labelsDict, depthLayer, depthThreshold, plainNms);
      forall b :: 0 <= b < |anchors| ==>
        rs[b] == ImageResult(anchors[b], confidenceThreshold, iouThreshold, labelsDict, depthLayer, depthThreshold, plainNms)
  {
  }

  /** What get_bboxes_from_anchors returns (or raises) for a batch. */
  function BatchResult(anchors: seq<seq<Anchor>>, confidenceThreshold: real, iouThreshold: real,
                       labelsDict: map<int, string>, depthLayer: Option<DepthLayer>,
                       depthThreshold: real, plainNms: PlainNms): (r: Result<BatchDetections, Error>)
    ensures r.Success? ==> |r.value.batchBboxes| == |anchors| && |r.value.labels| == |anchors|
    ensures anchors == [] ==> r == Success(BatchDetections([], []))
  {
    Collect(ImageResults(anchors, confidenceThreshold, iouThreshold, labelsDict, depthLayer, depthThreshold, plainNms))
  }

  /** Once a prefix of the results raises, the whole batch raises the same error. */
  lemma {:induction false} CollectFailureExtends(rs: seq<Result<Detections, Error>>, k: nat)
    requires k <= |rs| && Collect(rs[..k]).Failure?
    ensures Collect(rs) == Collect(rs[..k])
    decreases |rs|
  {
    if k < |rs| {
      var init := rs[..|rs| - 1];
      assert init[..k] == rs[..k];
      CollectFailureExtends(init, k);
    } else {
      assert rs[..k] == rs;
    }
  }

  /** Adding one image's result to a combined prefix. */
  lemma CollectStep(rs: seq<Result<Detections, Error>>, n: nat, done: BatchDetections)
    requires n < |rs| && Collect(rs[..n]) == Success(done)
    ensures rs[n].Success? ==> (Collect(rs[..n + 1]) ==
      Success(BatchDetections(done.batchBboxes + [rs[n].value.bboxes], done.labels + [rs[n].value.labels])))
    ensures rs[n].Failure? ==> Collect(rs) == Failure(rs[n].error)
  {
    assert rs[..n + 1][..n] == rs[..n];
    if rs[n].Failure? {
      CollectFailureExtends(rs, n + 1);
    }
  }

  /**
   * Combining succeeds exactly when every image does, and then holds one box
   * list and one label list per image, each that image's own; a failure is the
   * error of the first failing image.
   */
  lemma {:induction false} CollectPerImage(rs: seq<Result<Detections, Error>>)
    ensures var r := Collect(rs);
      (r.Success? <==> forall b :: 0 <= b < |rs| ==> rs[b].Success?)
      && (r.Success? ==>
        |r.value.batchBboxes| == |rs| && |r.value.labels| == |rs|
        && forall b :: 0 <= b < |rs| ==>
          r.value.batchBboxes[b] == rs[b].value.bboxes && r.value.labels[b] == rs[b].value.labels)
      && (r.Failure? ==> exists b :: (0 <= b < |rs| && rs[b] == Failure(r.error)
        && forall c :: 0 <= c < b ==> rs[c].Success?))
    decreases |rs|
  {
    if rs != [] {
      var init := rs[..|rs| - 1];
      CollectPerImage(init);
      assert forall b :: 0 <= b < |init| ==> init[b] == rs[b];
    }
  }

  /**
   * get_bboxes_from_anchors yields exactly one box list and one label list per
   * batch image, each that image's own result, or raises the error of its
   * first failing image.
   */
  lemma BatchPerImage(anchors: seq<seq<Anchor>>, confidenceThreshold: real, iouThreshold: real,
                      labelsDict: map<int, string>, depthLayer: Option<DepthLayer>,
                      depthThreshold: real, plainNms: PlainNms)
    ensures var r := BatchResult(anchors, confidenceThreshold, iouThreshold, labelsDict, depthLayer, depthThreshold, plainNms);
      var rs := ImageResults(anchors, confidenceThreshold, iouThreshold, labelsDict, depthLayer, depthThreshold, plainNms);
      |rs| == |anchors|
      && (forall b :: 0 <= b < |anchors| ==>
        rs[b] == ImageResult(anchors[b], confidenceThreshold, iouThreshold, labelsDict, depthLayer, depthThreshold, plainNms))
      && (r.Success? <==> forall b :: 0 <= b < |anchors| ==> rs[b].Success?)
      && (r.Success? ==>
        |r.value.batchBboxes| == |anchors| && |r.value.labels| == |anchors|
        && forall b :: 0 <= b < |anchors| ==>
          r.value.batchBboxes[b] == rs[b].value.bboxes && r.value.labels[b] == rs[b].value.labels)
      && (r.Failure? ==> exists b :: (0 <= b < |anchors| && rs[b] == Failure(r.error)
        && forall c :: 0 <= c < b ==> rs[c].Success?))
  {
    var rs := ImageResults(anchors, confidenceThreshold, iouThreshold, labelsDict, depthLayer, depthThreshold, plainNms);
    ImageResultsAt(anchors, confidenceThreshold, iouThreshold, labelsDict, depthLayer, depthThreshold, plainNms);
    CollectPerImage(rs);
  }

  /** get_bboxes_from_anchors: the batch loop, appending one image's lists per iteration. */
  method GetBboxesFromAnchors(anchors: seq<seq<Anchor>>, confidenceThreshold: real, iouThreshold: real,
                              labelsDict: map<int, string>, depthLayer: Option<DepthLayer>,
                              depthThreshold: real, plainNms: PlainNms)
    returns (r: Result<BatchDetections, Error>)
    ensures r == BatchResult(anchors, confidenceThreshold, iouThreshold, labelsDict, depthLayer, depthThreshold, plainNms)
  {
    ghost var rs := ImageResults(anchors, confidenceThreshold, iouThreshold, labelsDict, depthLayer, depthThreshold, plainNms);
    ImageResultsAt(anchors, confidenceThreshold, iouThreshold, labelsDict, depthLayer, depthThreshold, plainNms);
    var batchBboxes: seq<seq<Anchor>> := [];
    var labels: seq<seq<string>> := [];
    for nbatch := 0 to |anchors|
      invariant Collect(rs[..nbatch]) == Success(BatchDetections(batchBboxes, labels))
    {
      var d := ProcessImage(anchors[nbatch], confidenceThreshold, iouThreshold, labelsDict, depthLayer, depthThreshold, plainNms);
      CollectStep(rs, nbatch, BatchDetections(batchBboxes, labels));
      if d.Failure? {
        return Failure(d.error);
      }
      batchBboxes := batchBboxes + [d.value.bboxes];
      labels := labels + [d.value.labels];
    }
    assert rs[..|anchors|] == rs;
    return Success(BatchDetections(batchBboxes, labels));
  }
}
