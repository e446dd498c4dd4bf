/** The exact arithmetic of the canvas: the moving marker's interpolation
    along straight and curved edges, the curve-label midpoint, the label
    backing plate, the curve-strength floor and the self-loop placement.
    Distances are inputs (they stand for a square root the model does not
    take) and self-loop angles are measured in multiples of pi. */
module Geometry {

  datatype Point = Point(x: real, y: real)

  function Shift(p: Point, dx: real, dy: real): Point
  {
    Point(p.x + dx, p.y + dy)
  }

  function Min3(a: real, b: real, c: real): real
  {
    if a <= b && a <= c then a else if b <= c then b else c
  }

  function Max3(a: real, b: real, c: real): real
  {
    if a >= b && a >= c then a else if b >= c then b else c
  }

  /** Linear interpolation from `a` to `b`: the marker on a straight edge. */
  function Lerp(a: Point, b: Point, t: real): (r: Point)
    ensures t == 0.0 ==> r == a
    ensures t == 1.0 ==> r == b
  {
    Point(a.x + (b.x - a.x) * t, a.y + (b.y - a.y) * t)
  }

  /** Quadratic Bezier through control point `p1`: the marker on a curved
      edge. */
  function Bezier(p0: Point, p1: Point, p2: Point, t: real): (r: Point)
    ensures t == 0.0 ==> r == p0
    ensures t == 1.0 ==> r == p2
  {
    Point(Quad(p0.x, p1.x, p2.x, t), Quad(p0.y, p1.y, p2.y, t))
  }

  /** One coordinate of the quadratic Bezier. */
  function Quad(a: real, b: real, c: real, t: real): real
  {
    var mt := 1.0 - t;
    mt * mt * a + 2.0 * mt * t * b + t * t * c
  }

  lemma MulNonNeg(a: real, b: real)
    requires a >= 0.0 && b >= 0.0
    ensures a * b >= 0.0
  {
  }

  /** A weighted average with non-negative weights summing to one lies between
      the least and the greatest of the averaged values. */
  lemma WeightedBetween(a: real, b: real, c: real, u: real, v: real, w: real)
    requires u >= 0.0 && v >= 0.0 && w >= 0.0 && u + v + w == 1.0
    ensures Min3(a, b, c) <= u * a + v * b + w * c <= Max3(a, b, c)
  {
    var lo := Min3(a, b, c);
    var hi := Max3(a, b, c);
    assert lo <= a && lo <= b && lo <= c;
    assert a <= hi && b <= hi && c <= hi;
    MulNonNeg(u, a - lo);
    MulNonNeg(v, b - lo);
    MulNonNeg(w, c - lo);
    MulNonNeg(u, hi - a);
    MulNonNeg(v, hi - b);
    MulNonNeg(w, hi - c);
    assert u * a + v * b + w * c - lo == u * (a - lo) + v * (b - lo) + w * (c - lo);
    assert hi - (u * a + v * b + w * c) == u * (hi - a) + v * (hi - b) + w * (hi - c);
  }

  lemma QuadBetween(a: real, b: real, c: real, t: real)
    requires 0.0 <= t <= 1.0
    ensures Min3(a, b, c) <= Quad(a, b, c, t) <= Max3(a, b, c)
  {
    var mt := 1.0 - t;
    MulNonNeg(mt, mt);
    MulNonNeg(2.0 * mt, t);
    MulNonNeg(t, t);
    assert mt * mt + 2.0 * mt * t + t * t == (mt + t) * (mt + t);
    WeightedBetween(a, b, c, mt * mt, 2.0 * mt * t, t * t);
  }

  /** For progress in [0,1] the marker on a curve stays inside the bounding
      box of the start, control and end points. */
  lemma BezierInBox(p0: Point, p1: Point, p2: Point, t: real)
    requires 0.0 <= t <= 1.0
    ensures Min3(p0.x, p1.x, p2.x) <= Bezier(p0, p1, p2, t).x <= Max3(p0.x, p1.x, p2.x)
    ensures Min3(p0.y, p1.y, p2.y) <= Bezier(p0, p1, p2, t).y <= Max3(p0.y, p1.y, p2.y)
  {
    QuadBetween(p0.x, p1.x, p2.x, t);
    QuadBetween(p0.y, p1.y, p2.y, t);
  }

  lemma QuadFlat(a: real, c: real, t: real)
    ensures Quad(a, (a + c) / 2.0, c, t) == a + (c - a) * t
  {
    var mt := 1.0 - t;
    assert 2.0 * mt * t * ((a + c) / 2.0) == mt * t * a + mt * t * c;
    assert mt * mt * a + mt * t * a == mt * a * (mt + t);
    assert mt * t * c + t * t * c == t * c * (mt + t);
  }

  /** A curve whose control point is the chord's midpoint is the chord: the
      Bezier marker then moves exactly like the linear one. */
  lemma BezierFlatIsLerp(p0: Point, p2: Point, t: real)
    ensures Bezier(p0, Point((p0.x + p2.x) / 2.0, (p0.y + p2.y) / 2.0), p2, t) == Lerp(p0, p2, t)
  {
    var c := Point((p0.x + p2.x) / 2.0, (p0.y + p2.y) / 2.0);
    QuadFlat(p0.x, p2.x, t);
    QuadFlat(p0.y, p2.y, t);
    assert Bezier(p0, c, p2, t).x == Quad(p0.x, c.x, p2.x, t) == Lerp(p0, p2, t).x;
    assert Bezier(p0, c, p2, t).y == Quad(p0.y, c.y, p2.y, t) == Lerp(p0, p2, t).y;
  }

  /** The end points a regular edge is drawn between; a curved edge also has
      the control point of its quadratic curve. */
  datatype EdgePoints =
    | Line(start: Point, end: Point)
    | Curve(start: Point, control: Point, end: Point)

  /** Where the moving marker of a highlighted regular edge sits at progress
      `t`: on the Bezier for a curve, on the chord for a line. */
  function Marker(pts: EdgePoints, t: real): (r: Point)
    ensures t == 0.0 ==> r == pts.start
    ensures t == 1.0 ==> r == pts.end
  {
    match pts
    case Line(s, e) => Lerp(s, e, t)
    case Curve(s, c, e) => Bezier(s, c, e, t)
  }

  /** The text anchor of a curved edge's label: the curve's point at t = 1/2,
      moved 3 left and 8 up. */
  function LabelMidpoint(s: Point, c: Point, e: Point): (r: Point)
    ensures r == Shift(Bezier(s, c, e, 0.5), -3.0, -8.0)
  {
    Point((s.x + 2.0 * c.x + e.x) / 4.0 - 3.0, (s.y + 2.0 * c.y + e.y) / 4.0 - 8.0)
  }

  datatype Rect = Rect(x: real, y: real, width: real, height: real)

  /** The rounded backing plate behind an edge label of `len` characters; its
      width is a character-count estimate. */
  function LabelPlate(pts: EdgePoints, len: nat): (r: Rect)
    ensures r.width == 7.0 * len as real + 10.0 && r.height == 20.0
    ensures r.x < LabelAnchor(pts, len).x < r.x + r.width
    ensures r.y < LabelAnchor(pts, len).y < r.y + r.height
  {
    var w := len as real * 7.0 + 10.0;
    match pts
    case Curve(s, c, e) =>
      var m := LabelMidpoint(s, c, e);
      Rect(m.x - len as real * 3.2 - 3.0, m.y - 5.0, w, 20.0)
    case Line(s, e) =>
      Rect((s.x + e.x - len as real * 6.5) / 2.0 - 4.0, (s.y + e.y) / 2.0 - 10.0, w, 20.0)
  }

  /** Where the label text of `len` characters is anchored. */
  function LabelAnchor(pts: EdgePoints, len: nat): (r: Point)
    ensures pts.Curve? ==> r == Shift(Marker(pts, 0.5), -3.0 * len as real - 3.0, -8.0)
    ensures pts.Line? ==> r == Shift(Marker(pts, 0.5), -3.0 * len as real, -7.5)
  {
    match pts
    case Curve(s, c, e) =>
      var m := LabelMidpoint(s, c, e);
      Point(m.x - len as real * 6.0 / 2.0, m.y)
    case Line(s, e) =>
      Point((s.x + e.x - len as real * 6.0) / 2.0, (s.y + e.y - 15.0) / 2.0)
  }

  /** The bend factor of a curved edge: a sixtieth of the distance between the
      two node centres, never below 6. */
  function CurveStrength(distance: real): (r: real)
    requires distance >= 0.0
    ensures r >= 6.0 && r >= distance / 60.0
    ensures r == 6.0 || r == distance / 60.0
  {
    if 6.0 >= distance / 60.0 then 6.0 else distance / 60.0
  }

  lemma CurveStrengthMonotone(d1: real, d2: real)
    requires 0.0 <= d1 <= d2
    ensures CurveStrength(d1) <= CurveStrength(d2)
  {
  }

  /** How far the control point leaves the chord's midpoint: the distance
      divided by the curve strength. It grows as a sixth of the distance up to
      360 units and is 60 from there on. */
  function CurveOffset(distance: real): (r: real)
    requires distance >= 0.0
    ensures 0.0 <= r <= 60.0
    ensures distance <= 360.0 ==> r == distance / 6.0
    ensures distance >= 360.0 ==> r == 60.0
  {
    var s := CurveStrength(distance);
    if distance > 360.0 then
      assert s == distance / 60.0;
      assert s * 60.0 == distance;
      assert distance / s == 60.0;
      distance / s
    else
      assert s == 6.0;
      distance / s
  }

  lemma CurveOffsetMonotone(d1: real, d2: real)
    requires 0.0 <= d1 <= d2
    ensures CurveOffset(d1) <= CurveOffset(d2)
  {
  }

  /** Radius of the circle every node is drawn as. */
  const NodeRadius: real := 30.0

  /** The self-loop's own constants: the loop centre is lifted by `LoopLift`
      plus `LoopRadius` above the node centre. `LoopLift` is a local radius
      of the loop drawing, smaller than `NodeRadius`. */
  const LoopLift: real := 20.0
  const LoopRadius: real := 20.0

  /** Loop arc ends, in multiples of pi: from -pi - pi to -pi/19 + pi. */
  const LoopStartAngle: real := -2.0
  const LoopEndAngle: real := -1.0 / 19.0 + 1.0

  /** Centre of the loop drawn for the node at (x, y): straight above it. The
      loop is not clear of the node circle: its lowest point lies inside that
      circle, above the node centre, while its top rises above the circle. */
  function LoopCentre(x: real, y: real): (r: Point)
    ensures r.x == x
    ensures y - NodeRadius < r.y + LoopRadius < y
    ensures r.y - LoopRadius < y - NodeRadius
  {
    Point(x, y - LoopLift - LoopRadius)
  }

  /** Angle (in multiples of pi) of the marker on a highlighted loop at
      progress `p`: from the start of the arc at 0 to its end at 1. */
  function LoopMarkerAngle(p: real): (a: real)
    ensures p == 0.0 ==> a == LoopStartAngle
    ensures p == 1.0 ==> a == LoopEndAngle
    ensures 0.0 <= p <= 1.0 ==> LoopStartAngle <= a <= LoopEndAngle
  {
    LoopStartAngle + (LoopEndAngle - LoopStartAngle) * p
  }

  /** The arc's angular span exceeds a full turn (56/19 of pi). */
  lemma LoopSweepExceedsTurn()
    ensures LoopEndAngle - LoopStartAngle == 56.0 / 19.0
    ensures LoopEndAngle - LoopStartAngle > 2.0
  {
  }

  /** The loop's label of `len` characters, anchored above the top of the
      loop. */
  function LoopLabel(x: real, y: real, len: nat): (r: Point)
    ensures r.y < LoopCentre(x, y).y - LoopRadius
    ensures r.x < x
  {
    var c := LoopCentre(x, y);
    Point(c.x - len as real * 3.0 - 3.0, c.y - LoopRadius - 18.0)
  }
}
