/** The camera of the main view (App.tsx): the bounding box of the loaded
    document's nodes (the `nodes` state, which, once the layout effect has
    run, lies on a circle of radius 10; not the star that is drawn),
    fitting that box into the 1024x768 viewport with a 120-pixel margin,
    clamping the camera so the view stays on the graph, and the zoom
    buttons. The camera is the renderer's: a centre (x, y) in the units
    the code compares it with (node coordinates) and a ratio. Arithmetic
    is on reals; JavaScript's infinities are written out where the code
    relies on them. */
module Viewport {
  import opened GraphData

  const MinRatio: real := 0.2
  const MaxRatio: real := 2.5
  const ViewportWidth: real := 1024.0
  const ViewportHeight: real := 768.0
  const Margin: real := 120.0

  /** A number as `Math.min`/`Math.max` see it: a real or an infinity. */
  datatype Extended = NegInf | Finite(value: real) | PosInf

  predicate AtMost(a: Extended, b: Extended) {
    a.NegInf? || b.PosInf? || (a.Finite? && b.Finite? && a.value <= b.value)
  }

  /** `Math.min(a, b)`. */
  function MinExt(a: Extended, b: Extended): (r: Extended)
    ensures AtMost(r, a) && AtMost(r, b) && (r == a || r == b)
  {
    if AtMost(a, b) then a else b
  }

  /** `Math.max(a, b)`. */
  function MaxExt(a: Extended, b: Extended): (r: Extended)
    ensures AtMost(a, r) && AtMost(b, r) && (r == a || r == b)
  {
    if AtMost(a, b) then b else a
  }

  /** `Math.min` and `Math.max` on two reals. */
  function Smaller(a: real, b: real): real {
    if a <= b then a else b
  }

  function Larger(a: real, b: real): real {
    if a <= b then b else a
  }

  /** What `getGraphBBox` returns; infinite only for an empty node list. */
  datatype Bounds = Bounds(minX: Extended, maxX: Extended, minY: Extended, maxY: Extended)

  /** A finite box. */
  datatype Box = Box(minX: real, maxX: real, minY: real, maxY: real)

  function Embed(b: Box): Bounds {
    Bounds(Finite(b.minX), Finite(b.maxX), Finite(b.minY), Finite(b.maxY))
  }

  function Xs(pts: seq<Node>): (r: seq<real>)
    ensures |r| == |pts| && forall i :: 0 <= i < |pts| ==> r[i] == pts[i].x
  {
    seq(|pts|, i requires 0 <= i < |pts| => pts[i].x)
  }

  function Ys(pts: seq<Node>): (r: seq<real>)
    ensures |r| == |pts| && forall i :: 0 <= i < |pts| ==> r[i] == pts[i].y
  {
    seq(|pts|, i requires 0 <= i < |pts| => pts[i].y)
  }

  /** The running minimum of the `forEach` loop, taken left to right. */
  function Least(xs: seq<real>): real
    requires |xs| > 0
  {
    if |xs| == 1 then xs[0] else Smaller(Least(xs[..|xs| - 1]), xs[|xs| - 1])
  }

  function Greatest(xs: seq<real>): real
    requires |xs| > 0
  {
    if |xs| == 1 then xs[0] else Larger(Greatest(xs[..|xs| - 1]), xs[|xs| - 1])
  }

  /** The running minimum is a lower bound of the list and one of its elements. */
  lemma {:induction false} LeastIsMinimum(xs: seq<real>)
    requires |xs| > 0
    ensures forall i :: 0 <= i < |xs| ==> Least(xs) <= xs[i]
    ensures Least(xs) in xs
  {
    if |xs| > 1 {
      var init := xs[..|xs| - 1];
      LeastIsMinimum(init);
      assert forall i :: 0 <= i < |init| ==> init[i] == xs[i];
    }
  }

  /** The running maximum is an upper bound of the list and one of its elements. */
  lemma {:induction false} GreatestIsMaximum(xs: seq<real>)
    requires |xs| > 0
    ensures forall i :: 0 <= i < |xs| ==> xs[i] <= Greatest(xs)
    ensures Greatest(xs) in xs
  {
    if |xs| > 1 {
      var init := xs[..|xs| - 1];
      GreatestIsMaximum(init);
      assert forall i :: 0 <= i < |init| ==> init[i] == xs[i];
    }
  }

  /** The box `getGraphBBox` describes for a non-empty node list: the
      node's position widened by 1 on each side for a single node,
      otherwise the least and greatest coordinates. */
  function GraphBox(pts: seq<Node>): (b: Box)
    requires |pts| > 0
    ensures b.minX <= b.maxX && b.minY <= b.maxY
    ensures forall i :: 0 <= i < |pts| ==> b.minX <= pts[i].x <= b.maxX && b.minY <= pts[i].y <= b.maxY
    ensures |pts| == 1 ==>
      (b.maxX - b.minX == 2.0 && b.maxY - b.minY == 2.0
       && b.minX + b.maxX == 2.0 * pts[0].x && b.minY + b.maxY == 2.0 * pts[0].y)
    ensures |pts| > 1 ==> b.minX in Xs(pts) && b.maxX in Xs(pts) && b.minY in Ys(pts) && b.maxY in Ys(pts)
  {
    if |pts| == 1 then
      Box(pts[0].x - 1.0, pts[0].x + 1.0, pts[0].y - 1.0, pts[0].y + 1.0)
    else
      LeastIsMinimum(Xs(pts));
      GreatestIsMaximum(Xs(pts));
      LeastIsMinimum(Ys(pts));
      GreatestIsMaximum(Ys(pts));
      Box(Least(Xs(pts)), Greatest(Xs(pts)), Least(Ys(pts)), Greatest(Ys(pts)))
  }

  /** `getGraphBBox` (App.tsx lines 28-50); `pts` is the document's node
      list, the `nodes` state of App.tsx line 17. */
  method GetGraphBBox(pts: seq<Node>) returns (b: Bounds)
    ensures |pts| == 0 ==> b == Bounds(PosInf, NegInf, PosInf, NegInf)
    ensures |pts| > 0 ==> b == Embed(GraphBox(pts))
  {
    if |pts| == 1 {
      var n := pts[0];
      return Bounds(Finite(n.x - 1.0), Finite(n.x + 1.0), Finite(n.y - 1.0), Finite(n.y + 1.0));
    }
    var minX, maxX, minY, maxY := PosInf, NegInf, PosInf, NegInf;
    for i := 0 to |pts|
      invariant i == 0 ==> minX == PosInf && maxX == NegInf && minY == PosInf && maxY == NegInf
      invariant i > 0 ==> minX == Finite(Least(Xs(pts)[..i])) && maxX == Finite(Greatest(Xs(pts)[..i]))
      invariant i > 0 ==> minY == Finite(Least(Ys(pts)[..i])) && maxY == Finite(Greatest(Ys(pts)[..i]))
    {
      RunningStep(Xs(pts), i);
      RunningStep(Ys(pts), i);
      minX := MinExt(minX, Finite(pts[i].x));
      maxX := MaxExt(maxX, Finite(pts[i].x));
      minY := MinExt(minY, Finite(pts[i].y));
      maxY := MaxExt(maxY, Finite(pts[i].y));
    }
    assert Xs(pts)[..|pts|] == Xs(pts) && Ys(pts)[..|pts|] == Ys(pts);
    if |pts| > 0 {
      assert GraphBox(pts) == Box(Least(Xs(pts)), Greatest(Xs(pts)), Least(Ys(pts)), Greatest(Ys(pts)));
    }
    b := Bounds(minX, maxX, minY, maxY);
  }

  /** One pass of the loop body: the running minimum and maximum of the
      first `i + 1` values, from those of the first `i`. */
  lemma RunningStep(xs: seq<real>, i: nat)
    requires i < |xs|
    ensures i == 0 ==> Least(xs[..1]) == xs[0] && Greatest(xs[..1]) == xs[0]
    ensures i > 0 ==> Least(xs[..i + 1]) == Smaller(Least(xs[..i]), xs[i])
    ensures i > 0 ==> Greatest(xs[..i + 1]) == Larger(Greatest(xs[..i]), xs[i])
  {
    assert xs[..i + 1][..i] == xs[..i];
  }

  /** `(room) / extent`, where a zero extent gives JavaScript's Infinity. */
  function AxisScale(room: real, extent: real): (s: Extended)
    requires room > 0.0 && extent >= 0.0
    ensures s.Finite? <==> extent > 0.0
    ensures s.Finite? ==> s.value > 0.0 && s.value * extent == room
  {
    if extent == 0.0 then PosInf else Finite(room / extent)
  }

  /** The ratio `fitGraphToViewport` picks: one over the smaller of the two
      axis scales (JavaScript's `1 / Infinity` is 0). */
  function FitRatio(b: Box): (r: real)
    requires b.minX <= b.maxX && b.minY <= b.maxY
    ensures r >= 0.0
    ensures r == 0.0 <==> b.minX == b.maxX && b.minY == b.maxY
  {
    var scale := MinExt(AxisScale(ViewportWidth - 2.0 * Margin, b.maxX - b.minX),
                        AxisScale(ViewportHeight - 2.0 * Margin, b.maxY - b.minY));
    if scale.Finite? then 1.0 / scale.value else 0.0
  }

  lemma ScaleFits(room: real, extent: real, scale: real)
    requires room > 0.0 && extent > 0.0 && scale > 0.0 && scale * extent <= room
    ensures extent <= room * (1.0 / scale)
  {
    assert extent == (scale * extent) * (1.0 / scale);
  }

  lemma ScaleFitsExactly(room: real, extent: real, scale: real)
    requires room > 0.0 && extent > 0.0 && scale > 0.0 && scale * extent == room
    ensures extent == room * (1.0 / scale)
  {
    assert extent == (scale * extent) * (1.0 / scale);
  }

  /** Scaling by the fit ratio puts the whole box inside the viewport less
      its margin on both axes, and fills it exactly on at least one axis
      (the tightest undistorted fit). */
  lemma {:induction false} FitRatioFits(b: Box)
    requires b.minX <= b.maxX && b.minY <= b.maxY
    ensures FitRatio(b) >= 0.0
    ensures b.maxX - b.minX <= (ViewportWidth - 2.0 * Margin) * FitRatio(b)
    ensures b.maxY - b.minY <= (ViewportHeight - 2.0 * Margin) * FitRatio(b)
    ensures b.maxX - b.minX == (ViewportWidth - 2.0 * Margin) * FitRatio(b)
         || b.maxY - b.minY == (ViewportHeight - 2.0 * Margin) * FitRatio(b)
  {
    var w, h := b.maxX - b.minX, b.maxY - b.minY;
    var roomW, roomH := ViewportWidth - 2.0 * Margin, ViewportHeight - 2.0 * Margin;
    var sx, sy := AxisScale(roomW, w), AxisScale(roomH, h);
    var scale := MinExt(sx, sy);
    if scale.Finite? {
      var s := scale.value;
      assert s > 0.0;
      if w > 0.0 {
        assert s * w <= roomW by {
          assert s <= sx.value;
          assert s * w <= sx.value * w;
        }
        ScaleFits(roomW, w, s);
        if scale == sx { ScaleFitsExactly(roomW, w, s); }
      }
      if h > 0.0 {
        assert s * h <= roomH by {
          assert s <= sy.value;
          assert s * h <= sy.value * h;
        }
        ScaleFits(roomH, h, s);
        if scale == sy { ScaleFitsExactly(roomH, h, s); }
      }
    }
  }

  datatype CameraState = CameraState(x: real, y: real, ratio: real)

  /** The camera `fitGraphToViewport` sets: the box midpoint and the fit ratio. */
  function Fitted(b: Box): CameraState
    requires b.minX <= b.maxX && b.minY <= b.maxY
  {
    CameraState((b.minX + b.maxX) / 2.0, (b.minY + b.maxY) / 2.0, FitRatio(b))
  }

  /** After fitting, the box lies inside the viewport less its margin: on
      each axis it is within `(half the viewport - margin) * ratio` of the
      camera centre. */
  lemma FitShowsWholeGraph(b: Box)
    requires b.minX <= b.maxX && b.minY <= b.maxY
    ensures var c := Fitted(b);
      && c.x - (ViewportWidth / 2.0 - Margin) * c.ratio <= b.minX
      && b.maxX <= c.x + (ViewportWidth / 2.0 - Margin) * c.ratio
      && c.y - (ViewportHeight / 2.0 - Margin) * c.ratio <= b.minY
      && b.maxY <= c.y + (ViewportHeight / 2.0 - Margin) * c.ratio
  {
    FitRatioFits(b);
  }

  /** The `clamp` helper of `clampCamera`: the midpoint of the bounds when
      they cross, otherwise the value clamped into them. */
  function ClampValue(v: real, lo: real, hi: real): (r: real)
    ensures lo > hi ==> r == (lo + hi) / 2.0
    ensures lo <= hi ==> lo <= r <= hi
    ensures lo <= v <= hi ==> r == v
    ensures lo <= hi && v < lo ==> r == lo
    ensures lo <= hi && v > hi ==> r == hi
  {
    if lo > hi then (lo + hi) / 2.0 else Larger(lo, Smaller(hi, v))
  }

  /** `Math.max(minRatio, Math.min(maxRatio, r))`. */
  function ClampRatio(r: real): (c: real)
    ensures MinRatio <= c <= MaxRatio
    ensures MinRatio <= r <= MaxRatio ==> c == r
    ensures r < MinRatio ==> c == MinRatio
    ensures r > MaxRatio ==> c == MaxRatio
  {
    Larger(MinRatio, Smaller(MaxRatio, r))
  }

  /** The camera `clampCamera` computes, as written: the centre bounds come
      from the visible extent at the ratio the camera had BEFORE the ratio
      itself is clamped. */
  function Clamped(s: CameraState, b: Box): (r: CameraState)
    ensures r.ratio == ClampRatio(s.ratio)
    ensures b.minX + ViewportWidth * s.ratio / 2.0 <= s.x <= b.maxX - ViewportWidth * s.ratio / 2.0 ==> r.x == s.x
    ensures b.minY + ViewportHeight * s.ratio / 2.0 <= s.y <= b.maxY - ViewportHeight * s.ratio / 2.0 ==> r.y == s.y
  {
    var viewWidth := ViewportWidth * s.ratio;
    var viewHeight := ViewportHeight * s.ratio;
    CameraState(
      ClampValue(s.x, b.minX + viewWidth / 2.0, b.maxX - viewWidth / 2.0),
      ClampValue(s.y, b.minY + viewHeight / 2.0, b.maxY - viewHeight / 2.0),
      ClampRatio(s.ratio))
  }

  /** `clampCamera` with the evident intent: clamp the ratio first and
      bound the centre by the extent visible at the clamped ratio. */
  function ClampedOnce(s: CameraState, b: Box): (r: CameraState)
    ensures r.ratio == ClampRatio(s.ratio)
    ensures var w := ViewportWidth * r.ratio / 2.0;
      b.minX + w <= s.x <= b.maxX - w ==> r.x == s.x
    ensures var h := ViewportHeight * r.ratio / 2.0;
      b.minY + h <= s.y <= b.maxY - h ==> r.y == s.y
  {
    Clamped(s.(ratio := ClampRatio(s.ratio)), b)
  }

  /** On one axis, a view of half-width `half` centred at `c` either lies
      inside [lo, hi], or the graph is narrower than the view, the view is
      centred on it and covers all of it. */
  predicate ViewOnGraph(c: real, half: real, lo: real, hi: real) {
    (lo <= c - half && c + half <= hi)
    || (hi - lo < 2.0 * half && c == (lo + hi) / 2.0 && c - half <= lo && hi <= c + half)
  }

  /** What `clampCamera` achieves, as written: the ratio ends within its
      bounds, and on each axis the view, measured at the ratio the camera
      had before the call, stays on the graph. */
  lemma ClampedKeepsViewOnGraph(s: CameraState, b: Box)
    requires b.minX <= b.maxX && b.minY <= b.maxY
    ensures var t := Clamped(s, b);
      && MinRatio <= t.ratio <= MaxRatio
      && ViewOnGraph(t.x, ViewportWidth * s.ratio / 2.0, b.minX, b.maxX)
      && ViewOnGraph(t.y, ViewportHeight * s.ratio / 2.0, b.minY, b.maxY)
  {
  }

  /** With the ratio already within bounds, a second `clampCamera` changes
      nothing. */
  lemma ClampedIdempotentInRange(s: CameraState, b: Box)
    requires MinRatio <= s.ratio <= MaxRatio
    ensures Clamped(Clamped(s, b), b) == Clamped(s, b)
  {
  }

  /** The ratio is within bounds after one call, so the camera settles by
      the second call whatever state it started in. */
  lemma ClampedSettlesBySecondCall(s: CameraState, b: Box)
    ensures Clamped(Clamped(Clamped(s, b), b), b) == Clamped(Clamped(s, b), b)
  {
    ClampedIdempotentInRange(Clamped(s, b), b);
  }

  /** A camera that `clampCamera` as written does not leave at rest: the
      ratio 0.1 is raised to 0.2, the second call then sees twice the view
      width and moves the centre again. */
  lemma ClampedNotIdempotent()
    ensures var b := Box(-2000.0, 2000.0, -2000.0, 2000.0);
      var s := CameraState(2000.0, 0.0, 0.1);
      && Clamped(s, b) == CameraState(1948.8, 0.0, 0.2)
      && Clamped(Clamped(s, b), b) == CameraState(1897.6, 0.0, 0.2)
  {
  }

  /** Above the maximum the clamp as written does settle at once: the
      centre range at the old, larger ratio lies inside the range at 2.5,
      or is its midpoint when the bounds cross, so only a ratio below the
      minimum shows the drift. */
  lemma ClampedIdempotentAboveMax(s: CameraState, b: Box)
    requires b.minX <= b.maxX && b.minY <= b.maxY
    requires s.ratio > MaxRatio
    ensures Clamped(Clamped(s, b), b) == Clamped(s, b)
  {
  }

  /** The corrected clamp is idempotent from any camera. */
  lemma ClampedOnceIdempotent(s: CameraState, b: Box)
    ensures ClampedOnce(ClampedOnce(s, b), b) == ClampedOnce(s, b)
  {
  }

  /** The corrected clamp keeps the view at its final ratio on the graph. */
  lemma ClampedOnceKeepsViewOnGraph(s: CameraState, b: Box)
    requires b.minX <= b.maxX && b.minY <= b.maxY
    ensures var t := ClampedOnce(s, b);
      && MinRatio <= t.ratio <= MaxRatio
      && ViewOnGraph(t.x, ViewportWidth * t.ratio / 2.0, b.minX, b.maxX)
      && ViewOnGraph(t.y, ViewportHeight * t.ratio / 2.0, b.minY, b.maxY)
  {
    ClampedKeepsViewOnGraph(s.(ratio := ClampRatio(s.ratio)), b);
  }

  /** Within the ratio bounds (where every zoom leaves the camera) the code
      as written and the corrected clamp agree. */
  lemma ClampedAgreesInRange(s: CameraState, b: Box)
    requires MinRatio <= s.ratio <= MaxRatio
    ensures Clamped(s, b) == ClampedOnce(s, b)
  {
  }

  /** A camera centred on the box stays there under both clamps: the
      centre bounds are symmetric about the box midpoint, whether or not
      they cross. Only the ratio moves. */
  lemma CentredCameraStays(s: CameraState, b: Box)
    requires s.x == (b.minX + b.maxX) / 2.0 && s.y == (b.minY + b.maxY) / 2.0
    ensures Clamped(s, b) == CameraState(s.x, s.y, ClampRatio(s.ratio))
    ensures ClampedOnce(s, b) == CameraState(s.x, s.y, ClampRatio(s.ratio))
  {
  }

  /** After `fitGraphToViewport` the code as written and the corrected
      clamp agree, and a second clamp changes nothing: the drift of
      `clampCamera` needs a camera away from the box midpoint at a ratio
      below the minimum, which neither the fit nor the zoom buttons leave. */
  lemma FittedClampSettles(b: Box)
    requires b.minX <= b.maxX && b.minY <= b.maxY
    ensures Clamped(Fitted(b), b) == ClampedOnce(Fitted(b), b)
    ensures Clamped(Clamped(Fitted(b), b), b) == Clamped(Fitted(b), b)
  {
    var f := Fitted(b);
    CentredCameraStays(f, b);
    CentredCameraStays(Clamped(f, b), b);
  }

  /** The renderer's camera. */
  class Camera {
    var x: real
    var y: real
    var ratio: real

    function State(): CameraState
      reads this
    {
      CameraState(x, y, ratio)
    }

    constructor (s: CameraState)
      ensures State() == s
    {
      x, y, ratio := s.x, s.y, s.ratio;
    }

    /** `fitGraphToViewport` (App.tsx lines 53-70). */
    method FitToViewport(pts: seq<Node>)
      requires |pts| > 0
      modifies this
      ensures State() == Fitted(GraphBox(pts))
    {
      var b := GetGraphBBox(pts);
      var graphWidth := b.maxX.value - b.minX.value;
      var graphHeight := b.maxY.value - b.minY.value;
      var scaleX := AxisScale(ViewportWidth - 2.0 * Margin, graphWidth);
      var scaleY := AxisScale(ViewportHeight - 2.0 * Margin, graphHeight);
      var scale := MinExt(scaleX, scaleY);
      var newRatio := if scale.Finite? then 1.0 / scale.value else 0.0;
      x, y, ratio := (b.minX.value + b.maxX.value) / 2.0, (b.minY.value + b.maxY.value) / 2.0, newRatio;
    }

    /** `clampCamera` (App.tsx lines 73-96). `updated` says whether the
        camera state was written (and its update event fired). */
    method ClampCamera(pts: seq<Node>) returns (updated: bool)
      requires |pts| > 0
      modifies this
      ensures State() == Clamped(old(State()), GraphBox(pts))
      ensures updated <==> State() != old(State())
    {
      var b := GetGraphBBox(pts);
      var viewWidth := ViewportWidth * ratio;
      var viewHeight := ViewportHeight * ratio;
      var minCamX := b.minX.value + viewWidth / 2.0;
      var maxCamX := b.maxX.value - viewWidth / 2.0;
      var minCamY := b.minY.value + viewHeight / 2.0;
      var maxCamY := b.maxY.value - viewHeight / 2.0;
      var clampedX := ClampValue(x, minCamX, maxCamX);
      var clampedY := ClampValue(y, minCamY, maxCamY);
      var clampedRatio := ClampRatio(ratio);
      updated := x != clampedX || y != clampedY || ratio != clampedRatio;
      if updated {
        x, y, ratio := clampedX, clampedY, clampedRatio;
      }
    }

    /** `handleZoom` (App.tsx lines 99-111); the clamp it schedules
        afterwards is a separate `ClampCamera` call. */
    method HandleZoom(delta: real) returns (updated: bool)
      modifies this
      ensures x == old(x) && y == old(y)
      ensures ratio == ClampRatio(old(ratio) * delta)
      ensures MinRatio <= ratio <= MaxRatio
      ensures updated <==> ratio != old(ratio)
    {
      var newRatio := ClampRatio(ratio * delta);
      updated := newRatio != ratio;
      if updated {
        ratio := newRatio;
      }
    }
  }
}
