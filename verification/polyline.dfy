/** The screensaver's `Polyline` (week2/screensaver/refactored.py): anchor points
    with per-anchor speeds, stored as two parallel sequences, with insertion,
    exact-or-approximate deletion, and boundary-reflecting motion.

    The two sequences are indexed in parallel but are NOT kept the same length:
    deletion removes an anchor and leaves the speeds alone, so `speeds` is only
    ever at least as long as `anchors`, and anchor `i` moves with `speeds[i]`. */
module Polyline {
  import opened Vec2d

  datatype Speed = Speed(x: real, y: real)

  /** Bounds of the uniform draw for a new anchor's speed components. */
  const MinSpeed: real := 0.001
  const MaxSpeed: real := 1.1

  /** Half-size of the approximate-match window used by deletion. */
  const Epsilon: Vec := Vec(0.5, 0.5)

  datatype Polyline = Polyline(anchors: seq<Vec>, speeds: seq<Speed>)

  const Empty: Polyline := Polyline([], [])

  function Abs(v: real): (r: real) {
    if v < 0.0 then -v else v
  }

  /** A speed as drawn for a new anchor: both components in the draw range. */
  predicate FreshSpeed(s: Speed) {
    MinSpeed <= s.x <= MaxSpeed && MinSpeed <= s.y <= MaxSpeed
  }

  /** A speed whose components have the magnitude of some fresh draw; reflection
      only flips signs, so every stored speed keeps this shape. */
  predicate SpeedInRange(s: Speed) {
    MinSpeed <= Abs(s.x) <= MaxSpeed && MinSpeed <= Abs(s.y) <= MaxSpeed
  }

  /** Every anchor has a speed to move with, and no speed is zero or too fast. */
  predicate Valid(pl: Polyline) {
    && |pl.speeds| >= |pl.anchors|
    && forall i :: 0 <= i < |pl.speeds| ==> SpeedInRange(pl.speeds[i])
  }

  /** `add_anchor_point`: one anchor at `pos` and one freshly drawn speed are
      appended; nothing already stored changes. */
  function AddAnchorPoint(pl: Polyline, pos: Vec, draw: Speed): (r: Polyline)
    requires FreshSpeed(draw)
    ensures |r.anchors| == |pl.anchors| + 1 && |r.speeds| == |pl.speeds| + 1
    ensures r.anchors[|pl.anchors|] == pos && r.speeds[|pl.speeds|] == draw
    ensures r.anchors[..|pl.anchors|] == pl.anchors && r.speeds[..|pl.speeds|] == pl.speeds
    ensures Valid(pl) ==> Valid(r)
  {
    Polyline(pl.anchors + [pos], pl.speeds + [draw])
  }

  /** The fallback match of deletion: `point > anchor - eps or point < anchor + eps`. */
  predicate Near(p: Vec, a: Vec) {
    Gt(p, Sub(a, Epsilon)) || Lt(p, Add(a, Epsilon))
  }

  /** Index of the first anchor equal to `p`, or `|s|` when there is none. */
  function FirstEqual(s: seq<Vec>, p: Vec): (k: nat)
    ensures k <= |s|
    ensures k < |s| ==> s[k] == p
    ensures forall j :: 0 <= j < k ==> s[j] != p
    ensures k == |s| <==> p !in s
  {
    if |s| == 0 then 0
    else if s[0] == p then 0
    else 1 + FirstEqual(s[1..], p)
  }

  /** Index of the first anchor `p` is `Near`, or `|s|` when there is none. */
  function FirstNear(s: seq<Vec>, p: Vec): (k: nat)
    ensures k <= |s|
    ensures k < |s| ==> Near(p, s[k])
    ensures forall j :: 0 <= j < k ==> !Near(p, s[j])
  {
    if |s| == 0 then 0
    else if Near(p, s[0]) then 0
    else 1 + FirstNear(s[1..], p)
  }

  function RemoveAt<T>(s: seq<T>, k: nat): (r: seq<T>)
    requires k < |s|
    ensures |r| == |s| - 1
    ensures forall j :: 0 <= j < k ==> r[j] == s[j]
    ensures forall j :: k <= j < |r| ==> r[j] == s[j + 1]
  {
    s[..k] + s[k + 1..]
  }

  /** `delete_anchor_point`: removes the first anchor equal to `pos`; failing
      that, the first anchor `pos` is `Near`; failing that, nothing. The speed
      list is never touched. */
  function DeleteAnchorPoint(pl: Polyline, pos: Vec): (r: Polyline)
    ensures r.speeds == pl.speeds
    ensures pos in pl.anchors ==>
      exists k :: 0 <= k < |pl.anchors| && pl.anchors[k] == pos && pos !in pl.anchors[..k]
                  && r.anchors == pl.anchors[..k] + pl.anchors[k + 1..]
    ensures pos !in pl.anchors && (exists i :: 0 <= i < |pl.anchors| && Near(pos, pl.anchors[i])) ==>
      exists k :: 0 <= k < |pl.anchors| && Near(pos, pl.anchors[k])
                  && (forall j :: 0 <= j < k ==> !Near(pos, pl.anchors[j]))
                  && r.anchors == pl.anchors[..k] + pl.anchors[k + 1..]
    ensures pos !in pl.anchors && (forall i :: 0 <= i < |pl.anchors| ==> !Near(pos, pl.anchors[i])) ==>
      r == pl
    ensures |pl.anchors| - 1 <= |r.anchors| <= |pl.anchors|
    ensures Valid(pl) ==> Valid(r)
  {
    var e := FirstEqual(pl.anchors, pos);
    if e < |pl.anchors| then
      assert pos !in pl.anchors[..e];
      Polyline(RemoveAt(pl.anchors, e), pl.speeds)
    else
      var k := FirstNear(pl.anchors, pos);
      if k < |pl.anchors| then Polyline(RemoveAt(pl.anchors, k), pl.speeds)
      else pl
  }

  /** One anchor's step: move by the speed, then flip each speed component that
      points further out past an edge. The test is made on the moved position;
      x reflects past `width` strictly, y already at `height`. */
  function MovePoint(a: Vec, s: Speed, width: int, height: int): (r: (Vec, Speed)) {
    var moved := Vec(a.x + s.x, a.y + s.y);
    var sx := if (moved.x < 0.0 && s.x < 0.0) || (moved.x > width as real && s.x > 0.0) then -s.x else s.x;
    var sy := if (moved.y < 0.0 && s.y < 0.0) || (moved.y >= height as real && s.y > 0.0) then -s.y else s.y;
    (moved, Speed(sx, sy))
  }

  /** `Polyline.set_points`: every anchor advances by its own speed; each speed
      component changes exactly when the moved anchor is past an edge and the
      component still points outward, and then only its sign changes. Speeds
      beyond the last anchor are left as they are. */
  function SetPoints(pl: Polyline, width: int, height: int): (r: Polyline)
    requires |pl.speeds| >= |pl.anchors|
    ensures |r.anchors| == |pl.anchors| && |r.speeds| == |pl.speeds|
    ensures forall i :: 0 <= i < |pl.anchors| ==>
      r.anchors[i].x == pl.anchors[i].x + pl.speeds[i].x && r.anchors[i].y == pl.anchors[i].y + pl.speeds[i].y
    ensures forall i :: 0 <= i < |pl.anchors| ==>
      && Abs(r.speeds[i].x) == Abs(pl.speeds[i].x)
      && Abs(r.speeds[i].y) == Abs(pl.speeds[i].y)
      && (r.speeds[i].x != pl.speeds[i].x <==>
            (r.anchors[i].x < 0.0 && pl.speeds[i].x < 0.0) || (r.anchors[i].x > width as real && pl.speeds[i].x > 0.0))
      && (r.speeds[i].y != pl.speeds[i].y <==>
            (r.anchors[i].y < 0.0 && pl.speeds[i].y < 0.0) || (r.anchors[i].y >= height as real && pl.speeds[i].y > 0.0))
    ensures forall i :: |pl.anchors| <= i < |pl.speeds| ==> r.speeds[i] == pl.speeds[i]
    ensures Valid(pl) ==> Valid(r)
  {
    var n := |pl.anchors|;
    Polyline(
      seq(n, i requires 0 <= i < n => MovePoint(pl.anchors[i], pl.speeds[i], width, height).0),
      seq(|pl.speeds|, i requires 0 <= i < |pl.speeds| =>
        if i < n then MovePoint(pl.anchors[i], pl.speeds[i], width, height).1 else pl.speeds[i]))
  }

  /** The fallback test fails only in the two anti-diagonal quadrants around
      the anchor: at least half a unit right of it and at least half a unit
      below-or-level, or the mirror image. Everywhere else it matches. */
  lemma NearIff(p: Vec, a: Vec)
    ensures Near(p, a) <==>
      !((p.x >= a.x + 0.5 && p.y <= a.y - 0.5) || (p.x <= a.x - 0.5 && p.y >= a.y + 0.5))
  {
  }

  /** Every point strictly inside the epsilon box around an anchor matches it. */
  lemma NearWhenClose(p: Vec, a: Vec)
    requires Abs(p.x - a.x) < 0.5 && Abs(p.y - a.y) < 0.5
    ensures Near(p, a)
  {
  }

  /** The fallback is not local: a click far from the only anchor still deletes it. */
  lemma FallbackIsNotLocal(s: Speed)
    ensures DeleteAnchorPoint(Polyline([Vec(0.0, 0.0)], [s]), Vec(100.0, 100.0)).anchors == []
  {
    assert Near(Vec(100.0, 100.0), Vec(0.0, 0.0));
  }

  /** Adding an anchor and deleting at the same position restores the anchor
      count; when no anchor sat at that position before, the anchors come back
      exactly, while the speed list keeps the extra draw. */
  lemma AddThenDelete(pl: Polyline, pos: Vec, draw: Speed)
    requires FreshSpeed(draw)
    ensures |DeleteAnchorPoint(AddAnchorPoint(pl, pos, draw), pos).anchors| == |pl.anchors|
    ensures pos !in pl.anchors ==> DeleteAnchorPoint(AddAnchorPoint(pl, pos, draw), pos).anchors == pl.anchors
    ensures DeleteAnchorPoint(AddAnchorPoint(pl, pos, draw), pos).speeds == pl.speeds + [draw]
  {
    var added := AddAnchorPoint(pl, pos, draw);
    assert pos in added.anchors by { assert added.anchors[|pl.anchors|] == pos; }
    var k := FirstEqual(added.anchors, pos);
    if pos !in pl.anchors {
      assert k == |pl.anchors|;
      assert added.anchors[..k] == pl.anchors;
    }
  }

  /** Reflection never leaves a component pointing further out: after a step,
      on a canvas of non-negative size, an anchor left of or above it moves
      right or down, one past the right or bottom edge moves left or up. */
  lemma ReflectionPointsInward(pl: Polyline, width: int, height: int, i: nat)
    requires 0 <= width && 0 <= height
    requires |pl.speeds| >= |pl.anchors| && i < |pl.anchors|
    ensures var r := SetPoints(pl, width, height);
      && (r.anchors[i].x < 0.0 ==> r.speeds[i].x >= 0.0)
      && (r.anchors[i].x > width as real ==> r.speeds[i].x <= 0.0)
      && (r.anchors[i].y < 0.0 ==> r.speeds[i].y >= 0.0)
      && (r.anchors[i].y >= height as real ==> r.speeds[i].y <= 0.0)
  {
    var r := SetPoints(pl, width, height);
    assert r.speeds[i] == MovePoint(pl.anchors[i], pl.speeds[i], width, height).1;
  }

  /** A step that keeps an anchor inside the canvas leaves its speed as it was. */
  lemma InsideKeepsSpeed(pl: Polyline, width: int, height: int, i: nat)
    requires |pl.speeds| >= |pl.anchors| && i < |pl.anchors|
    requires var r := SetPoints(pl, width, height);
      0.0 <= r.anchors[i].x <= width as real && 0.0 <= r.anchors[i].y < height as real
    ensures SetPoints(pl, width, height).speeds[i] == pl.speeds[i]
  {
  }

  /** On an 800x600 canvas an anchor at x = 799 moving right by 0.5 reaches
      799.5 and then exactly 800 without reflecting (the x bound is strict);
      only the third step, to 800.5, flips its x speed. */
  lemma RightEdgeScenario()
    ensures var p0 := Polyline([Vec(799.0, 300.0)], [Speed(0.5, 0.5)]);
      var p1 := SetPoints(p0, 800, 600);
      var p2 := SetPoints(p1, 800, 600);
      var p3 := SetPoints(p2, 800, 600);
      && p1.anchors[0].x == 799.5 && p1.speeds[0].x == 0.5
      && p2.anchors[0].x == 800.0 && p2.speeds[0].x == 0.5
      && p3.anchors[0].x == 800.5 && p3.speeds[0].x == -0.5
  {
  }
}
