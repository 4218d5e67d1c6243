/**
 * The region-proposal box check: the projected 2D points of the proposal volume
 * are clipped to the image, their axis-aligned bounding box is computed, and the
 * box is rejected when it covers too small a fraction of the image or is too
 * skewed; otherwise its corners are rounded to integers.
 *
 * numpy float division is IEEE: a zero image area makes the area ratio nan
 * (never below the threshold), and a zero box width makes the aspect ratio
 * +inf (above every finite maximum) or nan (0/0, never out of bounds).
 */
module BBoxCheck {
  import opened Wrappers
  import opened Rounding

  datatype Point = Point(x: real, y: real)

  /** An accepted proposal box, `[x1, y1, x2, y2]`. */
  datatype Box = Box(x1: int, y1: int, x2: int, y2: int)

  datatype Thresholds = Thresholds(areaRatio: real, maxAspect: real, minAspect: real)

  /** The keyword defaults `bbox_thres`, `max_aspect_ratio_thres`, `min_aspect_ratio_thres`. */
  const DefaultThresholds := Thresholds(0.005, 5.0, 0.5)

  /** Both bounds are inclusive. */
  predicate InFrame(p: Point, width: int, height: int) {
    0.0 <= p.x <= width as real && 0.0 <= p.y <= height as real
  }

  /** The boolean mask of lines 40-46: keeps the in-frame points, in order. */
  function KeepInFrame(pts: seq<Point>, width: int, height: int): (kept: seq<Point>)
    ensures forall p :: p in kept <==> p in pts && InFrame(p, width, height)
    ensures |kept| <= |pts|
    decreases |pts|
  {
    if pts == [] then []
    else (if InFrame(pts[0], width, height) then [pts[0]] else [])
         + KeepInFrame(pts[1..], width, height)
  }

  function Xs(pts: seq<Point>): (xs: seq<real>)
    ensures |xs| == |pts|
    ensures forall i :: 0 <= i < |pts| ==> xs[i] == pts[i].x
  {
    seq(|pts|, i requires 0 <= i < |pts| => pts[i].x)
  }

  function Ys(pts: seq<Point>): (ys: seq<real>)
    ensures |ys| == |pts|
    ensures forall i :: 0 <= i < |pts| ==> ys[i] == pts[i].y
  {
    seq(|pts|, i requires 0 <= i < |pts| => pts[i].y)
  }

  function MinOf(xs: seq<real>): (m: real)
    requires |xs| > 0
    ensures m in xs
    ensures forall i :: 0 <= i < |xs| ==> m <= xs[i]
    decreases |xs|
  {
    if |xs| == 1 then xs[0]
    else
      var rest := MinOf(xs[1..]);
      assert forall i :: 1 <= i < |xs| ==> xs[i] == xs[1..][i - 1];
      if xs[0] <= rest then xs[0] else rest
  }

  function MaxOf(xs: seq<real>): (m: real)
    requires |xs| > 0
    ensures m in xs
    ensures forall i :: 0 <= i < |xs| ==> xs[i] <= m
    decreases |xs|
  {
    if |xs| == 1 then xs[0]
    else
      var rest := MaxOf(xs[1..]);
      assert forall i :: 1 <= i < |xs| ==> xs[i] == xs[1..][i - 1];
      if xs[0] >= rest then xs[0] else rest
  }

  /** Line 65: the area ratio is below the threshold (nan when the image area is 0). */
  predicate TooSmall(boxWidth: real, boxHeight: real, width: int, height: int, t: Thresholds) {
    var imageArea := (width * height) as real;
    imageArea != 0.0 && (boxWidth * boxHeight) / imageArea < t.areaRatio
  }

  /** Line 71: height/width is outside `[minAspect, maxAspect]`; a zero width gives
    * +inf when the height is positive and nan when it is 0. */
  predicate TooSkewed(boxWidth: real, boxHeight: real, t: Thresholds) {
    if boxWidth == 0.0 then boxHeight > 0.0
    else boxHeight / boxWidth > t.maxAspect || boxHeight / boxWidth < t.minAspect
  }

  /** `check_and_convert_bbox`. An accepted box lies inside the image with its
    * corners ordered. */
  function CheckAndConvertBBox(pts: seq<Point>, width: int, height: int, t: Thresholds): (r: Option<Box>)
    ensures r.Some? ==> exists p :: p in pts && InFrame(p, width, height)
    ensures r.Some? ==> 0 <= r.value.x1 <= r.value.x2 <= width
    ensures r.Some? ==> 0 <= r.value.y1 <= r.value.y2 <= height
  {
    var kept := KeepInFrame(pts, width, height);
    if |kept| == 0 then None
    else
      KeptBoxInBounds(pts, width, height);
      assert kept[0] in kept;
      Decide(MinOf(Xs(kept)), MaxOf(Xs(kept)), MinOf(Ys(kept)), MaxOf(Ys(kept)), width, height, t)
  }

  /** Lines 57-78 on the box `x1..x2 × y1..y2` of the kept points. */
  function Decide(x1: real, x2: real, y1: real, y2: real, width: int, height: int, t: Thresholds): (r: Option<Box>)
    requires 0.0 <= x1 <= x2 <= width as real && 0.0 <= y1 <= y2 <= height as real
    ensures r.Some? ==> 0 <= r.value.x1 <= r.value.x2 <= width
    ensures r.Some? ==> 0 <= r.value.y1 <= r.value.y2 <= height
  {
    if TooSmall(x2 - x1, y2 - y1, width, height, t) then None
    else if TooSkewed(x2 - x1, y2 - y1, t) then None
    else
      RoundWithin(x1, 0, width);
      RoundMonotone(x1, x2);
      RoundWithin(x2, 0, width);
      RoundWithin(y1, 0, height);
      RoundMonotone(y1, y2);
      RoundWithin(y2, 0, height);
      Some(Box(RoundHalfEven(x1), RoundHalfEven(y1), RoundHalfEven(x2), RoundHalfEven(y2)))
  }

  /** `x1..x2 × y1..y2` is the tight box of the in-frame points of `pts`: each bound
    * is attained by an in-frame point and bounds all of them. */
  ghost predicate TightBox(pts: seq<Point>, width: int, height: int, x1: real, x2: real, y1: real, y2: real) {
    && (exists p :: p in pts && InFrame(p, width, height) && p.x == x1)
    && (exists p :: p in pts && InFrame(p, width, height) && p.x == x2)
    && (exists p :: p in pts && InFrame(p, width, height) && p.y == y1)
    && (exists p :: p in pts && InFrame(p, width, height) && p.y == y2)
    && (forall p :: p in pts && InFrame(p, width, height) ==> x1 <= p.x <= x2 && y1 <= p.y <= y2)
  }

  lemma MinUnique(xs: seq<real>, v: real)
    requires v in xs && forall i :: 0 <= i < |xs| ==> v <= xs[i]
    ensures v == MinOf(xs)
  {
  }

  lemma MaxUnique(xs: seq<real>, v: real)
    requires v in xs && forall i :: 0 <= i < |xs| ==> xs[i] <= v
    ensures v == MaxOf(xs)
  {
  }

  /** The values of `xs`/`ys` are the coordinates of the points of `s`. */
  lemma CoordinatesListed(s: seq<Point>, p: Point)
    requires p in s
    ensures p.x in Xs(s) && p.y in Ys(s)
  {
    var i :| 0 <= i < |s| && s[i] == p;
    assert Xs(s)[i] == p.x && Ys(s)[i] == p.y;
  }

  /** Every kept point is in frame, so its coordinates lie in `[0, width] × [0, height]`. */
  lemma KeptInBounds(pts: seq<Point>, width: int, height: int)
    ensures var kept := KeepInFrame(pts, width, height);
      forall i :: 0 <= i < |kept| ==> InFrame(kept[i], width, height)
  {
    var kept := KeepInFrame(pts, width, height);
    assert forall i :: 0 <= i < |kept| ==> kept[i] in kept;
  }

  /** The unrounded box of the kept points lies in `[0, width] × [0, height]` with ordered corners. */
  lemma KeptBoxInBounds(pts: seq<Point>, width: int, height: int)
    requires |KeepInFrame(pts, width, height)| > 0
    ensures var kept := KeepInFrame(pts, width, height);
      && 0.0 <= MinOf(Xs(kept)) <= MaxOf(Xs(kept)) <= width as real
      && 0.0 <= MinOf(Ys(kept)) <= MaxOf(Ys(kept)) <= height as real
  {
    var kept := KeepInFrame(pts, width, height);
    KeptInBounds(pts, width, height);
    var xs, ys := Xs(kept), Ys(kept);
    var a :| 0 <= a < |xs| && xs[a] == MinOf(xs);
    var b :| 0 <= b < |xs| && xs[b] == MaxOf(xs);
    var c :| 0 <= c < |ys| && ys[c] == MinOf(ys);
    var d :| 0 <= d < |ys| && ys[d] == MaxOf(ys);
    assert InFrame(kept[a], width, height) && InFrame(kept[b], width, height);
    assert InFrame(kept[c], width, height) && InFrame(kept[d], width, height);
  }

  /** The in-frame points of `pts` have exactly one tight box, the one the check computes. */
  lemma TightBoxIsComputed(pts: seq<Point>, width: int, height: int, x1: real, x2: real, y1: real, y2: real)
    requires TightBox(pts, width, height, x1, x2, y1, y2)
    ensures var kept := KeepInFrame(pts, width, height);
      |kept| > 0 && x1 == MinOf(Xs(kept)) && x2 == MaxOf(Xs(kept))
      && y1 == MinOf(Ys(kept)) && y2 == MaxOf(Ys(kept))
  {
    var kept := KeepInFrame(pts, width, height);
    var xs, ys := Xs(kept), Ys(kept);
    assert forall i :: 0 <= i < |kept| ==> kept[i] in kept;
    assert forall i :: 0 <= i < |kept| ==> x1 <= xs[i] <= x2 && y1 <= ys[i] <= y2;
    var p1 :| p1 in pts && InFrame(p1, width, height) && p1.x == x1;
    CoordinatesListed(kept, p1);
    MinUnique(xs, x1);
    var p2 :| p2 in pts && InFrame(p2, width, height) && p2.x == x2;
    CoordinatesListed(kept, p2);
    MaxUnique(xs, x2);
    var p3 :| p3 in pts && InFrame(p3, width, height) && p3.y == y1;
    CoordinatesListed(kept, p3);
    MinUnique(ys, y1);
    var p4 :| p4 in pts && InFrame(p4, width, height) && p4.y == y2;
    CoordinatesListed(kept, p4);
    MaxUnique(ys, y2);
  }

  /** Given the tight box of the in-frame points, the check is `Decide` on it. */
  lemma CheckDecidesTightBox(pts: seq<Point>, width: int, height: int, t: Thresholds,
                             x1: real, x2: real, y1: real, y2: real)
    requires TightBox(pts, width, height, x1, x2, y1, y2)
    ensures 0.0 <= x1 <= x2 <= width as real && 0.0 <= y1 <= y2 <= height as real
    ensures CheckAndConvertBBox(pts, width, height, t) == Decide(x1, x2, y1, y2, width, height, t)
  {
    TightBoxIsComputed(pts, width, height, x1, x2, y1, y2);
    KeptBoxInBounds(pts, width, height);
  }

  /** Lines 48-50: no point inside the image, no box. */
  lemma OutOfFrameRejected(pts: seq<Point>, width: int, height: int, t: Thresholds)
    requires forall p :: p in pts ==> !InFrame(p, width, height)
    ensures CheckAndConvertBBox(pts, width, height, t) == None
  {
  }

  /** Lines 57-66: a box covering less than `areaRatio` of the image is rejected. */
  lemma SmallBoxRejected(pts: seq<Point>, width: int, height: int, t: Thresholds,
                         x1: real, x2: real, y1: real, y2: real)
    requires TightBox(pts, width, height, x1, x2, y1, y2)
    requires width * height != 0
    requires ((x2 - x1) * (y2 - y1)) / (width * height) as real < t.areaRatio
    ensures CheckAndConvertBBox(pts, width, height, t) == None
  {
    CheckDecidesTightBox(pts, width, height, t, x1, x2, y1, y2);
    assert TooSmall(x2 - x1, y2 - y1, width, height, t);
  }

  /** Lines 68-72: a box whose height/width is above `maxAspect` or below `minAspect`
    * is rejected; so is a zero-width box of positive height, whose ratio numpy makes
    * infinite. */
  lemma SkewedBoxRejected(pts: seq<Point>, width: int, height: int, t: Thresholds,
                          x1: real, x2: real, y1: real, y2: real)
    requires TightBox(pts, width, height, x1, x2, y1, y2)
    requires || (x2 > x1 && ((y2 - y1) / (x2 - x1) > t.maxAspect || (y2 - y1) / (x2 - x1) < t.minAspect))
             || (x2 == x1 && y2 > y1)
    ensures CheckAndConvertBBox(pts, width, height, t) == None
  {
    CheckDecidesTightBox(pts, width, height, t, x1, x2, y1, y2);
    assert TooSkewed(x2 - x1, y2 - y1, t);
  }

  /** Lines 74-78: a box that passes both tests is returned as its rounded corners. */
  lemma ValidBoxAccepted(pts: seq<Point>, width: int, height: int, t: Thresholds,
                         x1: real, x2: real, y1: real, y2: real)
    requires TightBox(pts, width, height, x1, x2, y1, y2)
    requires !TooSmall(x2 - x1, y2 - y1, width, height, t)
    requires !TooSkewed(x2 - x1, y2 - y1, t)
    ensures CheckAndConvertBBox(pts, width, height, t)
         == Some(Box(RoundHalfEven(x1), RoundHalfEven(y1), RoundHalfEven(x2), RoundHalfEven(y2)))
  {
    CheckDecidesTightBox(pts, width, height, t, x1, x2, y1, y2);
  }

  /** With a positive area threshold and a non-empty image, a box that survives the
    * area test has positive width and height, so the aspect-ratio division of line
    * 68 never divides by zero. */
  lemma AreaTestGuardsDivision(boxWidth: real, boxHeight: real, width: int, height: int, t: Thresholds)
    requires t.areaRatio > 0.0 && width > 0 && height > 0
    requires boxWidth >= 0.0 && boxHeight >= 0.0
    requires !TooSmall(boxWidth, boxHeight, width, height, t)
    ensures boxWidth > 0.0 && boxHeight > 0.0
  {
  }

  /** An aspect ratio exactly at either bound is accepted. */
  lemma AspectBoundsInclusive(boxWidth: real, boxHeight: real, t: Thresholds)
    requires boxWidth > 0.0 && t.minAspect <= t.maxAspect
    requires boxHeight / boxWidth == t.maxAspect || boxHeight / boxWidth == t.minAspect
    ensures !TooSkewed(boxWidth, boxHeight, t)
  {
  }

  /** The result depends only on the set of in-frame points: out-of-frame points
    * and the order and multiplicity of the points do not matter. */
  lemma {:induction false} OnlyInFrameSetMatters(pts: seq<Point>, qts: seq<Point>, width: int, height: int, t: Thresholds)
    requires forall p :: (p in pts && InFrame(p, width, height)) <==> (p in qts && InFrame(p, width, height))
    ensures CheckAndConvertBBox(pts, width, height, t) == CheckAndConvertBBox(qts, width, height, t)
  {
    var kept := KeepInFrame(pts, width, height);
    if |kept| > 0 {
      var x1, x2, y1, y2 := MinOf(Xs(kept)), MaxOf(Xs(kept)), MinOf(Ys(kept)), MaxOf(Ys(kept));
      ComputedBoxIsTight(pts, width, height);
      assert TightBox(qts, width, height, x1, x2, y1, y2);
      CheckDecidesTightBox(pts, width, height, t, x1, x2, y1, y2);
      CheckDecidesTightBox(qts, width, height, t, x1, x2, y1, y2);
    } else {
      assert forall p :: p in qts ==> !InFrame(p, width, height);
    }
  }

  /** The box the check computes is the tight box of the in-frame points. */
  lemma ComputedBoxIsTight(pts: seq<Point>, width: int, height: int)
    requires |KeepInFrame(pts, width, height)| > 0
    ensures var kept := KeepInFrame(pts, width, height);
      TightBox(pts, width, height, MinOf(Xs(kept)), MaxOf(Xs(kept)), MinOf(Ys(kept)), MaxOf(Ys(kept)))
  {
    var kept := KeepInFrame(pts, width, height);
    var xs, ys := Xs(kept), Ys(kept);
    var x1, x2, y1, y2 := MinOf(xs), MaxOf(xs), MinOf(ys), MaxOf(ys);
    var a :| 0 <= a < |xs| && xs[a] == x1;
    var b :| 0 <= b < |xs| && xs[b] == x2;
    var c :| 0 <= c < |ys| && ys[c] == y1;
    var d :| 0 <= d < |ys| && ys[d] == y2;
    assert kept[a] in kept && kept[b] in kept && kept[c] in kept && kept[d] in kept;
    forall p | p in pts && InFrame(p, width, height)
      ensures x1 <= p.x <= x2 && y1 <= p.y <= y2
    {
      assert p in kept;
      var i :| 0 <= i < |kept| && kept[i] == p;
      assert xs[i] == p.x && ys[i] == p.y;
    }
  }

  /** Reordering the projected points does not change the result. */
  lemma OrderIndependent(pts: seq<Point>, qts: seq<Point>, width: int, height: int, t: Thresholds)
    requires multiset(pts) == multiset(qts)
    ensures CheckAndConvertBBox(pts, width, height, t) == CheckAndConvertBBox(qts, width, height, t)
  {
    assert forall p :: p in pts <==> p in multiset(pts);
    assert forall p :: p in qts <==> p in multiset(qts);
    OnlyInFrameSetMatters(pts, qts, width, height, t);
  }
}
