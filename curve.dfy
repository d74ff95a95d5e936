// The smooth curve drawn through the histogram's points: each stretch
// between two neighbouring points becomes one cubic Bézier segment whose
// control points follow the Catmull-Rom rule. The path is modelled as a list
// of segments rather than as the SVG path text.

module Curve {

  /** A point of the chart in drawing coordinates. */
  datatype Vec = Vec(x: real, y: real)

  function Plus(a: Vec, b: Vec): Vec { Vec(a.x + b.x, a.y + b.y) }

  function Minus(a: Vec, b: Vec): Vec { Vec(a.x - b.x, a.y - b.y) }

  function Sixth(a: Vec): Vec { Vec(a.x / 6.0, a.y / 6.0) }

  /** One cubic segment `C c1 c2 end`, starting where the previous one ends. */
  datatype Segment = Segment(c1: Vec, c2: Vec, end: Vec)

  /** The curve: nothing (fewer than two points), one straight line
      `M from L to`, or `M start` followed by cubic segments. */
  datatype Path = NoPath | Straight(from: Vec, to: Vec) | Smooth(start: Vec, segs: seq<Segment>)

  /** The neighbour of a point, with the index clamped to the ends as
      `points[Math.max(0, i - 1)]` and `points[Math.min(n - 1, i + 2)]` do. */
  function Clamped(points: seq<Vec>, j: int): (p: Vec)
    requires points != []
    ensures 0 <= j < |points| ==> p == points[j]
    ensures j < 0 ==> p == points[0]
    ensures j >= |points| ==> p == points[|points| - 1]
  {
    if j < 0 then points[0] else if j >= |points| then points[|points| - 1] else points[j]
  }

  /** The segment from `points[i]` to `points[i + 1]`: the first control
      point leaves `points[i]` along a sixth of the chord from the previous
      neighbour to the next, the second arrives at `points[i + 1]` along a
      sixth of the chord from `points[i]` to the one after. */
  function SegmentAt(points: seq<Vec>, i: nat): Segment
    requires i + 1 < |points|
  {
    var p0 := Clamped(points, i - 1);
    var p1 := points[i];
    var p2 := points[i + 1];
    var p3 := Clamped(points, i + 2);
    Segment(Plus(p1, Sixth(Minus(p2, p0))), Minus(p2, Sixth(Minus(p3, p1))), p2)
  }

  /** `catmullRomToBezier`: no path for fewer than two points, a straight
      line for two, and otherwise one cubic segment per pair of neighbours,
      appended in order. */
  method CatmullRom(points: seq<Vec>) returns (path: Path)
    ensures |points| < 2 <==> path == NoPath
    ensures path.Straight? <==> |points| == 2
    ensures |points| == 2 ==> path == Straight(points[0], points[1])
    ensures |points| > 2 ==>
      path.Smooth? && path.start == points[0] && |path.segs| == |points| - 1 &&
      (forall i :: 0 <= i < |path.segs| ==> path.segs[i].end == points[i + 1]) &&
      forall i :: 0 <= i < |path.segs| ==> path.segs[i] == SegmentAt(points, i)
  {
    if |points| < 2 {
      return NoPath;
    }
    if |points| == 2 {
      return Straight(points[0], points[1]);
    }
    var segs: seq<Segment> := [];
    var i := 0;
    while i < |points| - 1
      invariant 0 <= i <= |points| - 1 && |segs| == i
      invariant forall j :: 0 <= j < i ==> segs[j] == SegmentAt(points, j)
    {
      segs := segs + [SegmentAt(points, i)];
      i := i + 1;
    }
    path := Smooth(points[0], segs);
  }

  /** Where two segments meet at `points[i + 1]`, the incoming and the
      outgoing control points mirror each other about that point, so the
      curve has no corner there. */
  lemma SmoothJoin(points: seq<Vec>, i: nat)
    requires i + 2 < |points|
    ensures var p := points[i + 1];
      Minus(p, SegmentAt(points, i).c2) == Minus(SegmentAt(points, i + 1).c1, p)
  {
    var p := points[i + 1];
    var d := Sixth(Minus(points[i + 2], points[i]));
    assert SegmentAt(points, i).c2 == Minus(p, d);
    assert SegmentAt(points, i + 1).c1 == Plus(p, d);
  }

  /** At the two ends, where the missing neighbour is clamped to the end
      point itself, the control point lies a sixth of the way along the
      first (respectively last) chord. */
  lemma EndTangents(points: seq<Vec>)
    requires |points| > 2
    ensures SegmentAt(points, 0).c1 == Plus(points[0], Sixth(Minus(points[1], points[0])))
    ensures var n := |points|;
      SegmentAt(points, n - 2).c2 == Minus(points[n - 1], Sixth(Minus(points[n - 1], points[n - 2])))
  {
  }

  /** Equally spaced points on a line: each point is the previous one moved
      by `step`. */
  ghost predicate EvenlySpaced(points: seq<Vec>, step: Vec)
  {
    forall k :: 0 <= k < |points| - 1 ==> points[k + 1] == Plus(points[k], step)
  }

  /** A third of a step. */
  function Third(a: Vec): Vec { Vec(a.x / 3.0, a.y / 3.0) }

  /** Catmull-Rom reproduces straight lines: on equally spaced collinear
      points, an inner segment's control points sit at a third and two
      thirds of its chord, which is exactly the straight segment traversed
      at constant speed. */
  lemma InnerSegmentStraight(points: seq<Vec>, step: Vec, i: nat)
    requires EvenlySpaced(points, step)
    requires 0 < i && i + 2 < |points|
    ensures SegmentAt(points, i).c1 == Plus(points[i], Third(step))
    ensures SegmentAt(points, i).c2 == Minus(points[i + 1], Third(step))
  {
    var p0, p1, p2, p3 := points[i - 1], points[i], points[i + 1], points[i + 2];
    assert p1 == Plus(p0, step) && p2 == Plus(p1, step) && p3 == Plus(p2, step);
  }
}
