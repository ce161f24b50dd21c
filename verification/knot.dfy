/** The screensaver's `Knot` (week2/screensaver/refactored.py): a polyline that,
    after every physics step, derives a denser closed curve by blending over
    3-point windows built around each anchor. */
module Knot {
  import opened Vec2d
  import P = Polyline

  /** Points produced per window when a knot is created. */
  const DefaultStep: int := 15

  /** `line` holds the anchors and speeds, `curve` the derived points
      (`points_of_knot`), `step` the smoothing resolution (`smoothing_step`). */
  datatype Knot = Knot(line: P.Polyline, curve: seq<Vec>, step: int)

  /** `Knot(surface)`: no anchors, no speeds, no curve, the default step. */
  function NewKnot(): (k: Knot)
    ensures k.line.anchors == [] && k.line.speeds == [] && k.curve == [] && k.step == DefaultStep
  {
    Knot(P.Empty, [], DefaultStep)
  }

  /** `get_point`: the blend `points[deg] * alpha + blend(deg - 1) * (1 - alpha)`,
      bottoming out at `points[0]`. */
  function GetPoint(points: seq<Vec>, alpha: real, deg: nat): (r: Vec)
    requires deg < |points|
    decreases deg
  {
    if deg == 0 then points[0]
    else Add(Scale(points[deg], alpha), Scale(GetPoint(points, alpha, deg - 1), 1.0 - alpha))
  }

  /** Python's negative list index `i` for `-n <= i < 0` counts from the end. */
  function Wrap(i: int, n: nat): (k: nat)
    requires -(n as int) <= i < n
    ensures k < n
    ensures k == i || k == i + n
  {
    if i < 0 then i + n else i
  }

  function Mid(a: Vec, b: Vec): (r: Vec) {
    Scale(Add(a, b), 0.5)
  }

  /** The control window of anchor `i`: the midpoint of anchors `i-2` and
      `i-1`, anchor `i-1`, and the midpoint of anchors `i-1` and `i`, with
      indices wrapping around the end. */
  function Window(anchors: seq<Vec>, i: nat): (w: seq<Vec>)
    requires 3 <= |anchors| && i < |anchors|
    ensures |w| == 3
  {
    var n := |anchors|;
    var before := anchors[Wrap(i - 2, n)];
    var corner := anchors[Wrap(i - 1, n)];
    [Mid(before, corner), corner, Mid(corner, anchors[i])]
  }

  /** Sample `k` of a window: the blend of all its points (degree
      `len(points) - 1`, the default) at `alpha = k * (1 / step)`. */
  function BlendAt(base: seq<Vec>, step: int, k: nat): (r: Vec)
    requires |base| == 3 && step >= 1
  {
    GetPoint(base, k as real * (1.0 / step as real), |base| - 1)
  }

  /** `get_smoothing_points`: samples `0 .. step - 1` of one window. */
  function SmoothingPoints(base: seq<Vec>, step: int): (r: seq<Vec>)
    requires |base| == 3 && step >= 1
    ensures |r| == step
  {
    seq(step, k requires 0 <= k < step => BlendAt(base, step, k))
  }

  /** Sample `k` of the window of anchor `i`. */
  function Sample(anchors: seq<Vec>, step: int, i: nat, k: nat): (r: Vec)
    requires 3 <= |anchors| && i < |anchors| && step >= 1
  {
    BlendAt(Window(anchors, i), step, k)
  }

  /** Where position `i * step + k` falls once window `n - 1` is appended to
      the first `n - 1` windows. */
  lemma WindowPosition(n: nat, step: int, i: nat, k: nat)
    requires 1 <= n && step >= 1 && i < n && k < step
    ensures n * step == (n - 1) * step + step
    ensures i < n - 1 ==> i * step + k < (n - 1) * step
    ensures i == n - 1 ==> i * step + k == (n - 1) * step + k
  {
    if i < n - 1 {
      assert (i + 1) * step <= (n - 1) * step;
    }
  }

  /** The samples of the first `n` windows, concatenated in anchor order. */
  function Curve(anchors: seq<Vec>, step: int, n: nat): (r: seq<Vec>)
    requires 3 <= |anchors| && n <= |anchors| && step >= 1
    ensures |r| == n * step
    decreases n
  {
    if n == 0 then []
    else
      WindowPosition(n, step, 0, 0);
      Curve(anchors, step, n - 1) + SmoothingPoints(Window(anchors, n - 1), step)
  }

  /** Sample `k` of window `i` sits at position `i * step + k` of the curve. */
  lemma {:induction false} CurvePoint(anchors: seq<Vec>, step: int, n: nat, i: nat, k: nat)
    requires 3 <= |anchors| && n <= |anchors| && step >= 1
    requires i < n && k < step
    ensures i * step + k < |Curve(anchors, step, n)|
    ensures Curve(anchors, step, n)[i * step + k] == Sample(anchors, step, i, k)
    decreases n
  {
    WindowPosition(n, step, i, k);
    var prefix := Curve(anchors, step, n - 1);
    var last := SmoothingPoints(Window(anchors, n - 1), step);
    assert Curve(anchors, step, n) == prefix + last;
    if i < n - 1 {
      CurvePoint(anchors, step, n - 1, i, k);
      assert (prefix + last)[i * step + k] == prefix[i * step + k];
    } else {
      assert (prefix + last)[i * step + k] == last[k];
    }
  }

  /** `get_knot`: the curve is rebuilt from scratch; with fewer than three
      anchors it is empty, otherwise it holds `step` samples for every anchor. */
  function GetKnot(anchors: seq<Vec>, step: int): (r: seq<Vec>)
    requires step >= 1
    ensures |anchors| < 3 ==> r == []
    ensures |anchors| >= 3 ==> |r| == |anchors| * step
  {
    if |anchors| < 3 then [] else Curve(anchors, step, |anchors|)
  }

  /** The curve is laid out window after window in anchor order: sample `k`
      of the window of anchor `i` is point `i * step + k`. */
  lemma GetKnotPoint(anchors: seq<Vec>, step: int, i: nat, k: nat)
    requires step >= 1 && 3 <= |anchors|
    requires i < |anchors| && k < step
    ensures i * step + k < |GetKnot(anchors, step)|
    ensures GetKnot(anchors, step)[i * step + k] == Sample(anchors, step, i, k)
  {
    CurvePoint(anchors, step, |anchors|, i, k);
  }

  /** `Knot.set_points`: the polyline physics step, then the curve recomputed
      from the moved anchors. */
  function SetPoints(k: Knot, width: int, height: int): (r: Knot)
    requires |k.line.speeds| >= |k.line.anchors| && k.step >= 1
    ensures r.line == P.SetPoints(k.line, width, height)
    ensures r.step == k.step
    ensures r.curve == GetKnot(r.line.anchors, k.step)
  {
    var moved := P.SetPoints(k.line, width, height);
    Knot(moved, GetKnot(moved.anchors, k.step), k.step)
  }

  /** At `alpha = 0` the blend is the first point of the window, whatever the degree. */
  lemma {:induction false} GetPointAtZero(points: seq<Vec>, deg: nat)
    requires deg < |points|
    ensures GetPoint(points, 0.0, deg) == points[0]
    decreases deg
  {
    if deg > 0 {
      GetPointAtZero(points, deg - 1);
    }
  }

  /** At `alpha = 1` a blend of degree at least one is its last point. */
  lemma GetPointAtOne(points: seq<Vec>, deg: nat)
    requires 1 <= deg < |points|
    ensures GetPoint(points, 1.0, deg) == points[deg]
  {
  }

  predicate InBox(v: Vec, lo: Vec, hi: Vec) {
    lo.x <= v.x <= hi.x && lo.y <= v.y <= hi.y
  }

  lemma MulNonnegative(x: real, y: real)
    requires x >= 0.0 && y >= 0.0
    ensures x * y >= 0.0
  {
  }

  lemma ConvexCoordinate(a: real, b: real, lo: real, hi: real, t: real)
    requires lo <= a <= hi && lo <= b <= hi && 0.0 <= t <= 1.0
    ensures lo <= a * t + b * (1.0 - t) <= hi
  {
    MulNonnegative(a - lo, t);
    MulNonnegative(b - lo, 1.0 - t);
    MulNonnegative(hi - a, t);
    MulNonnegative(hi - b, 1.0 - t);
  }

  lemma BlendStepInBox(p: Vec, q: Vec, t: real, lo: Vec, hi: Vec)
    requires InBox(p, lo, hi) && InBox(q, lo, hi) && 0.0 <= t <= 1.0
    ensures InBox(Add(Scale(p, t), Scale(q, 1.0 - t)), lo, hi)
  {
    ConvexCoordinate(p.x, q.x, lo.x, hi.x, t);
    ConvexCoordinate(p.y, q.y, lo.y, hi.y, t);
  }

  /** For `0 <= alpha <= 1` the blend never leaves a box holding the points
      it blends. */
  lemma {:induction false} GetPointInBox(points: seq<Vec>, alpha: real, deg: nat, lo: Vec, hi: Vec)
    requires deg < |points| && 0.0 <= alpha <= 1.0
    requires forall j :: 0 <= j <= deg ==> InBox(points[j], lo, hi)
    ensures InBox(GetPoint(points, alpha, deg), lo, hi)
    decreases deg
  {
    if deg > 0 {
      GetPointInBox(points, alpha, deg - 1, lo, hi);
      BlendStepInBox(points[deg], GetPoint(points, alpha, deg - 1), alpha, lo, hi);
    }
  }

  lemma SampleParameter(step: int, k: nat)
    requires step >= 1 && k < step
    ensures 0.0 <= k as real * (1.0 / step as real) < 1.0
  {
    assert k as real * (1.0 / step as real) == k as real / step as real;
  }

  /** The first sample of each window is the midpoint between the two anchors
      preceding it (cyclically): the curve passes through the midpoints of
      consecutive anchors. */
  lemma CurveStartsAtMidpoints(anchors: seq<Vec>, step: int, i: nat)
    requires step >= 1 && 3 <= |anchors| && i < |anchors|
    ensures i * step < |GetKnot(anchors, step)|
    ensures GetKnot(anchors, step)[i * step] ==
      Mid(anchors[Wrap(i - 2, |anchors|)], anchors[Wrap(i - 1, |anchors|)])
  {
    GetKnotPoint(anchors, step, i, 0);
    GetPointAtZero(Window(anchors, i), 2);
  }

  lemma WindowInBox(anchors: seq<Vec>, i: nat, lo: Vec, hi: Vec)
    requires 3 <= |anchors| && i < |anchors|
    requires forall a :: 0 <= a < |anchors| ==> InBox(anchors[a], lo, hi)
    ensures forall a :: 0 <= a < 3 ==> InBox(Window(anchors, i)[a], lo, hi)
  {
    var n := |anchors|;
    assert InBox(anchors[Wrap(i - 2, n)], lo, hi) && InBox(anchors[Wrap(i - 1, n)], lo, hi);
  }

  /** A curve position splits into a window index and a sample index. */
  lemma SplitPosition(j: nat, n: nat, step: int) returns (i: nat, k: nat)
    requires step >= 1 && j < n * step
    ensures i < n && k < step && j == i * step + k
  {
    i, k := j / step, j % step;
  }

  /** Every curve point lies in any box that holds all the anchors. */
  lemma CurveInBoundingBox(anchors: seq<Vec>, step: int, lo: Vec, hi: Vec, j: nat)
    requires step >= 1 && j < |GetKnot(anchors, step)|
    requires forall a :: 0 <= a < |anchors| ==> InBox(anchors[a], lo, hi)
    ensures InBox(GetKnot(anchors, step)[j], lo, hi)
  {
    var i, k := SplitPosition(j, |anchors|, step);
    GetKnotPoint(anchors, step, i, k);
    WindowInBox(anchors, i, lo, hi);
    SampleParameter(step, k);
    GetPointInBox(Window(anchors, i), k as real * (1.0 / step as real), 2, lo, hi);
  }
}
