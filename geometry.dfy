/**
 * Plane geometry helpers of the map generator: the point types, the
 * rectangle tests used to decide which Voronoi edges are visible on the
 * map, the segment-segment intersection test, the even-odd polygon test,
 * the `Segment` wrapper and the fuzzy `PointD` equality.
 *
 * Double and float coordinates are modelled as reals (no rounding).
 */
module Geometry {

  /** A point with real coordinates (a Voronoi `Vector`, a `PointF`, a `PointD`). */
  datatype PointF = PointF(x: real, y: real)

  /** An integer point (`System.Drawing.Point`). */
  datatype Point = Point(x: int, y: int)

  /** An integer rectangle (`System.Drawing.Rectangle`). */
  datatype Rectangle = Rectangle(x: int, y: int, width: int, height: int)

  /** A Voronoi vertex: a position, or the library's "unknown" vertex whose coordinates are NaN. */
  datatype Vertex = At(pos: PointF) | Unknown

  /** A Voronoi edge as produced by the external Fortune sweep: two vertices and the two sites it separates. */
  datatype VoronoiEdge = VoronoiEdge(vertexA: Vertex, vertexB: Vertex, leftData: PointF, rightData: PointF)

  /** The `(int)` cast of a double: truncation toward zero. */
  function Trunc(r: real): (n: int)
    ensures 0.0 <= r ==> n as real <= r < n as real + 1.0
    ensures r < 0.0 ==> n as real - 1.0 < r <= n as real
  {
    if 0.0 <= r then r.Floor else -((-r).Floor)
  }

  /** `Convert.ToInt32` of a double: the nearest integer, ties to the even one. */
  function Round(r: real): (n: int)
    ensures n as real - 0.5 <= r <= n as real + 0.5
    ensures (r == n as real - 0.5 || r == n as real + 0.5) ==> n % 2 == 0
  {
    var f := r.Floor;
    var frac := r - f as real;
    if frac < 0.5 then f
    else if frac > 0.5 then f + 1
    else if f % 2 == 0 then f
    else f + 1
  }

  /** The implicit conversion of an integer point to a float point. */
  function ToPointF(p: Point): PointF {
    PointF(p.x as real, p.y as real)
  }

  /** `ToPoint` of a vector or `PointF`: both coordinates rounded with `Convert.ToInt32`. */
  function ToPoint(p: PointF): (q: Point)
    ensures q.x as real - 0.5 <= p.x <= q.x as real + 0.5
    ensures q.y as real - 0.5 <= p.y <= q.y as real + 0.5
  {
    Point(Round(p.x), Round(p.y))
  }

  /** `new Point((int) p.X, (int) p.Y)`: both coordinates truncated. */
  function TruncPoint(p: PointF): Point {
    Point(Trunc(p.x), Trunc(p.y))
  }

  /** `Rectangle.Contains(Point)`: closed on the left and top, open on the right and bottom. */
  predicate Contains(r: Rectangle, p: Point) {
    r.x <= p.x < r.x + r.width && r.y <= p.y < r.y + r.height
  }

  /** The point at parameter `t` on the segment from `a` to `b`. */
  function Along(a: PointF, b: PointF, t: real): PointF {
    PointF(a.x + t * (b.x - a.x), a.y + t * (b.y - a.y))
  }

  /** The denominator `d` of the intersection test: the cross product of the two direction vectors. */
  function Denominator(a1: PointF, a2: PointF, b1: PointF, b2: PointF): real {
    (a2.x - a1.x) * (b2.y - b1.y) - (a2.y - a1.y) * (b2.x - b1.x)
  }

  /** The numerator `q` of the first segment's parameter. */
  function NumeratorR(a1: PointF, a2: PointF, b1: PointF, b2: PointF): real {
    (a1.y - b1.y) * (b2.x - b1.x) - (a1.x - b1.x) * (b2.y - b1.y)
  }

  /** The numerator `q'` of the second segment's parameter. */
  function NumeratorS(a1: PointF, a2: PointF, b1: PointF, b2: PointF): real {
    (a1.y - b1.y) * (a2.x - a1.x) - (a1.x - b1.x) * (a2.y - a1.y)
  }

  /**
   * Segment-segment intersection: with `d` the denominator, the test is false when
   * `d` is zero (parallel or degenerate segments) and otherwise true exactly when
   * both parameters `r = q / d` and `s = q' / d` lie in [0, 1].
   */
  predicate LineIntersectsLine(a1: PointF, a2: PointF, b1: PointF, b2: PointF) {
    var d := Denominator(a1, a2, b1, b2);
    if d == 0.0 then false
    else
      var r := NumeratorR(a1, a2, b1, b2) / d;
      var s := NumeratorS(a1, a2, b1, b2) / d;
      !(r < 0.0 || r > 1.0 || s < 0.0 || s > 1.0)
  }

  /** Parallel or degenerate segments never intersect, whatever their positions. */
  lemma ParallelNeverIntersects(a1: PointF, a2: PointF, b1: PointF, b2: PointF)
    requires Denominator(a1, a2, b1, b2) == 0.0
    ensures !LineIntersectsLine(a1, a2, b1, b2)
  {
  }

  /** Cramer's rule for the two segment parameters, on the scalar components. */
  lemma CramerIdentities(ux: real, uy: real, vx: real, vy: real, wx: real, wy: real)
    ensures (wy * ux - wx * uy) * vx - (wy * vx - wx * vy) * ux == wx * (ux * vy - uy * vx)
    ensures (wy * ux - wx * uy) * vy - (wy * vx - wx * vy) * uy == wy * (ux * vy - uy * vx)
  {
  }

  /** Dividing by a nonzero denominator and multiplying back. */
  lemma DivideBack(q: real, d: real)
    requires d != 0.0
    ensures (q / d) * d == q
  {
  }

  /** A product with a nonzero factor vanishes only if the other factor does. */
  lemma ZeroFactor(x: real, d: real)
    requires d != 0.0 && x * d == 0.0
    ensures x == 0.0
  {
  }

  /** Parameters with `r d = q` and `s d = q'` solve `w + r u = s v`. */
  lemma CramerSolution(ux: real, uy: real, vx: real, vy: real, wx: real, wy: real, r: real, s: real)
    requires ux * vy - uy * vx != 0.0
    requires r * (ux * vy - uy * vx) == wy * vx - wx * vy
    requires s * (ux * vy - uy * vx) == wy * ux - wx * uy
    ensures wx + r * ux == s * vx && wy + r * uy == s * vy
  {
    var d := ux * vy - uy * vx;
    CramerIdentities(ux, uy, vx, vy, wx, wy);
    assert (wx + r * ux - s * vx) * d == wx * d + (r * d) * ux - (s * d) * vx;
    assert (wy + r * uy - s * vy) * d == wy * d + (r * d) * uy - (s * d) * vy;
    ZeroFactor(wx + r * ux - s * vx, d);
    ZeroFactor(wy + r * uy - s * vy, d);
  }

  /** If the test succeeds, `r` and `s` name a common point of the two segments. */
  lemma IntersectionIsCommonPoint(a1: PointF, a2: PointF, b1: PointF, b2: PointF)
    requires LineIntersectsLine(a1, a2, b1, b2)
    ensures Denominator(a1, a2, b1, b2) != 0.0
    ensures exists r: real, s: real :: 0.0 <= r <= 1.0 && 0.0 <= s <= 1.0 && Along(a1, a2, r) == Along(b1, b2, s)
  {
    var d := Denominator(a1, a2, b1, b2);
    var r := NumeratorR(a1, a2, b1, b2) / d;
    var s := NumeratorS(a1, a2, b1, b2) / d;
    DivideBack(NumeratorR(a1, a2, b1, b2), d);
    DivideBack(NumeratorS(a1, a2, b1, b2), d);
    CramerSolution(a2.x - a1.x, a2.y - a1.y, b2.x - b1.x, b2.y - b1.y, a1.x - b1.x, a1.y - b1.y, r, s);
    assert Along(a1, a2, r) == Along(b1, b2, s);
  }

  /** Conversely, two non-parallel segments with a common point pass the test. */
  lemma CommonPointIntersects(a1: PointF, a2: PointF, b1: PointF, b2: PointF, r: real, s: real)
    requires Denominator(a1, a2, b1, b2) != 0.0
    requires 0.0 <= r <= 1.0 && 0.0 <= s <= 1.0
    requires Along(a1, a2, r) == Along(b1, b2, s)
    ensures LineIntersectsLine(a1, a2, b1, b2)
  {
    var ux, uy, vx, vy := a2.x - a1.x, a2.y - a1.y, b2.x - b1.x, b2.y - b1.y;
    var d := Denominator(a1, a2, b1, b2);
    assert a1.x - b1.x == s * vx - r * ux && a1.y - b1.y == s * vy - r * uy;
    SubstitutedCross(ux, uy, vx, vy, r, s);
    assert NumeratorR(a1, a2, b1, b2) == r * d;
    assert NumeratorS(a1, a2, b1, b2) == s * d;
    ExactQuotient(NumeratorR(a1, a2, b1, b2), d, r);
    ExactQuotient(NumeratorS(a1, a2, b1, b2), d, s);
  }

  /** A multiple of a nonzero number divided by it gives back the factor. */
  lemma ExactQuotient(q: real, d: real, r: real)
    requires d != 0.0 && q == r * d
    ensures q / d == r
  {
  }

  /** With `w = s v - r u`, the numerators of the test are `r d` and `s d`. */
  lemma SubstitutedCross(ux: real, uy: real, vx: real, vy: real, r: real, s: real)
    ensures (s * vy - r * uy) * vx - (s * vx - r * ux) * vy == r * (ux * vy - uy * vx)
    ensures (s * vy - r * uy) * ux - (s * vx - r * ux) * uy == s * (ux * vy - uy * vx)
  {
  }

  /** The test holds exactly when the segments are not parallel and share a point. */
  lemma LineIntersectsLineMeaning(a1: PointF, a2: PointF, b1: PointF, b2: PointF)
    ensures LineIntersectsLine(a1, a2, b1, b2) <==>
      Denominator(a1, a2, b1, b2) != 0.0 &&
      exists r: real, s: real :: 0.0 <= r <= 1.0 && 0.0 <= s <= 1.0 && Along(a1, a2, r) == Along(b1, b2, s)
  {
    if LineIntersectsLine(a1, a2, b1, b2) {
      IntersectionIsCommonPoint(a1, a2, b1, b2);
    } else if Denominator(a1, a2, b1, b2) != 0.0 {
      forall r: real, s: real | 0.0 <= r <= 1.0 && 0.0 <= s <= 1.0
        ensures Along(a1, a2, r) != Along(b1, b2, s)
      {
        if Along(a1, a2, r) == Along(b1, b2, s) {
          CommonPointIntersects(a1, a2, b1, b2, r, s);
        }
      }
    }
  }

  /** The test does not depend on the direction in which the first segment is given. */
  lemma LineIntersectsLineReversed(a1: PointF, a2: PointF, b1: PointF, b2: PointF)
    ensures LineIntersectsLine(a1, a2, b1, b2) == LineIntersectsLine(a2, a1, b1, b2)
  {
    LineIntersectsLineMeaning(a1, a2, b1, b2);
    LineIntersectsLineMeaning(a2, a1, b1, b2);
    assert Denominator(a2, a1, b1, b2) == -Denominator(a1, a2, b1, b2);
    if LineIntersectsLine(a1, a2, b1, b2) {
      var r: real, s: real :| 0.0 <= r <= 1.0 && 0.0 <= s <= 1.0 && Along(a1, a2, r) == Along(b1, b2, s);
      assert Along(a2, a1, 1.0 - r) == Along(a1, a2, r);
    }
    if LineIntersectsLine(a2, a1, b1, b2) {
      var r: real, s: real :| 0.0 <= r <= 1.0 && 0.0 <= s <= 1.0 && Along(a2, a1, r) == Along(b1, b2, s);
      assert Along(a1, a2, 1.0 - r) == Along(a2, a1, r);
    }
  }

  /** `Rectangle.IntersectsLine`: the segment crosses one of the rectangle's four sides. */
  predicate IntersectsLine(r: Rectangle, p1: PointF, p2: PointF) {
    var topLeft := ToPointF(Point(r.x, r.y));
    var topRight := ToPointF(Point(r.x + r.width, r.y));
    var bottomRight := ToPointF(Point(r.x + r.width, r.y + r.height));
    var bottomLeft := ToPointF(Point(r.x, r.y + r.height));
    LineIntersectsLine(p1, p2, topLeft, topRight) ||
    LineIntersectsLine(p1, p2, topRight, bottomRight) ||
    LineIntersectsLine(p1, p2, bottomRight, bottomLeft) ||
    LineIntersectsLine(p1, p2, bottomLeft, topLeft)
  }

  /** Whether a segment crosses the rectangle's border does not depend on its direction. */
  lemma IntersectsLineSymmetric(r: Rectangle, p1: PointF, p2: PointF)
    ensures IntersectsLine(r, p1, p2) == IntersectsLine(r, p2, p1)
  {
    var topLeft := ToPointF(Point(r.x, r.y));
    var topRight := ToPointF(Point(r.x + r.width, r.y));
    var bottomRight := ToPointF(Point(r.x + r.width, r.y + r.height));
    var bottomLeft := ToPointF(Point(r.x, r.y + r.height));
    LineIntersectsLineReversed(p1, p2, topLeft, topRight);
    LineIntersectsLineReversed(p1, p2, topRight, bottomRight);
    LineIntersectsLineReversed(p1, p2, bottomRight, bottomLeft);
    LineIntersectsLineReversed(p1, p2, bottomLeft, topLeft);
  }

  /** `Rectangle.ContainsLine`: both endpoints, truncated to integers, lie in the rectangle. */
  predicate ContainsLine(r: Rectangle, p1: PointF, p2: PointF) {
    Contains(r, TruncPoint(p1)) && Contains(r, TruncPoint(p2))
  }

  /** A real point whose truncation lies in the rectangle is within one unit of it, and strictly before its far sides. */
  lemma TruncContainedBounds(r: Rectangle, p: PointF)
    requires Contains(r, TruncPoint(p))
    ensures r.x as real - 1.0 < p.x < (r.x + r.width) as real
    ensures r.y as real - 1.0 < p.y < (r.y + r.height) as real
  {
  }

  /** For non-negative coordinates the truncated test is the exact half-open test on the real endpoints. */
  lemma ContainsLineNonNegative(r: Rectangle, p1: PointF, p2: PointF)
    requires 0.0 <= p1.x && 0.0 <= p1.y && 0.0 <= p2.x && 0.0 <= p2.y
    ensures ContainsLine(r, p1, p2) <==>
      (r.x as real <= p1.x < (r.x + r.width) as real && r.y as real <= p1.y < (r.y + r.height) as real &&
       r.x as real <= p2.x < (r.x + r.width) as real && r.y as real <= p2.y < (r.y + r.height) as real)
  {
  }

  /** Truncation toward zero lets a point slightly left of and above the origin count as inside a map rectangle. */
  lemma ContainsLineAdmitsNegativeFraction(width: int, height: int)
    requires width >= 1 && height >= 1
    ensures ContainsLine(Rectangle(0, 0, width, height), PointF(-0.5, -0.5), PointF(-0.5, -0.5))
  {
  }

  /** `ContainsEdge`: both vertices of a resolved Voronoi edge lie in the rectangle. */
  predicate ContainsEdge(r: Rectangle, edge: VoronoiEdge)
    requires edge.vertexA.At? && edge.vertexB.At?
  {
    ContainsLine(r, edge.vertexA.pos, edge.vertexB.pos)
  }

  /** `IntersectsEdge`: a resolved Voronoi edge crosses the rectangle's border. */
  predicate IntersectsEdge(r: Rectangle, edge: VoronoiEdge)
    requires edge.vertexA.At? && edge.vertexB.At?
  {
    IntersectsLine(r, edge.vertexA.pos, edge.vertexB.pos)
  }

  // ---------------------------------------------------------------------
  // Even-odd point-in-polygon test

  /**
   * The vertex the polygon walk starts from, as written: both coordinates are
   * taken from the last vertex's X coordinate.
   */
  function AsWrittenStart(poly: seq<PointF>): PointF
    requires |poly| > 0
  {
    PointF(poly[|poly| - 1].x, poly[|poly| - 1].x)
  }

  /** Whether the polygon edge from `oldPoint` to `newPoint` toggles the even-odd state for `p`. */
  predicate Toggles(p: PointF, oldPoint: PointF, newPoint: PointF) {
    var p1 := if newPoint.x > oldPoint.x then oldPoint else newPoint;
    var p2 := if newPoint.x > oldPoint.x then newPoint else oldPoint;
    (newPoint.x < p.x) == (p.x <= oldPoint.x) &&
    (Trunc(p.y) - Trunc(p1.y)) * Trunc(p2.x - p1.x) < (Trunc(p2.y) - Trunc(p1.y)) * Trunc(p.x - p1.x)
  }

  /** The number of toggling edges when walking `s` from `start`. */
  function Crossings(p: PointF, s: seq<PointF>, start: PointF): nat
    decreases |s|
  {
    if s == [] then 0
    else
      var prev := if |s| == 1 then start else s[|s| - 2];
      Crossings(p, s[..|s| - 1], start) + (if Toggles(p, prev, s[|s| - 1]) then 1 else 0)
  }

  /**
   * `Utils.PointInPolygon`: polygons with fewer than three vertices contain nothing;
   * otherwise the result is the parity of the toggling edges on the walk that starts
   * at `AsWrittenStart(poly)`.
   */
  method PointInPolygon(p: PointF, poly: seq<PointF>) returns (inside: bool)
    ensures |poly| < 3 ==> !inside
    ensures |poly| >= 3 ==> (inside <==> Crossings(p, poly, AsWrittenStart(poly)) % 2 == 1)
  {
    inside := false;
    if |poly| < 3 {
      return false;
    }
    var oldPoint := AsWrittenStart(poly);
    for i := 0 to |poly|
      invariant inside <==> Crossings(p, poly[..i], AsWrittenStart(poly)) % 2 == 1
      invariant oldPoint == if i == 0 then AsWrittenStart(poly) else poly[i - 1]
    {
      var newPoint := poly[i];
      CrossingsStep(p, poly, i, AsWrittenStart(poly));
      if Toggles(p, oldPoint, newPoint) {
        inside := !inside;
      }
      oldPoint := newPoint;
    }
    assert poly[..|poly|] == poly;
  }

  /** Walking one more vertex adds the toggle of the edge that reaches it. */
  lemma CrossingsStep(p: PointF, s: seq<PointF>, i: int, start: PointF)
    requires 0 <= i < |s|
    ensures Crossings(p, s[..i + 1], start) ==
      Crossings(p, s[..i], start) + (if Toggles(p, if i == 0 then start else s[i - 1], s[i]) then 1 else 0)
  {
    assert s[..i + 1][..i] == s[..i];
  }

  /** Walking a concatenation is walking the first part, then the second from the first part's last vertex. */
  lemma {:induction false} CrossingsAppend(p: PointF, s: seq<PointF>, t: seq<PointF>, start: PointF)
    requires s != []
    ensures Crossings(p, s + t, start) == Crossings(p, s, start) + Crossings(p, t, s[|s| - 1])
    decreases |t|
  {
    if t == [] {
      assert s + t == s;
    } else {
      var u := s + t;
      assert u[..|u| - 1] == s + t[..|t| - 1];
      CrossingsAppend(p, s, t[..|t| - 1], start);
    }
  }

  /** The even-odd count over the closed polygon, whose first edge comes from the last vertex. */
  function ClosedCrossings(p: PointF, poly: seq<PointF>): nat
    requires |poly| > 0
  {
    Crossings(p, poly, poly[|poly| - 1])
  }

  /** The intended containment test: an odd number of toggling edges around the closed polygon. */
  predicate InsideClosed(p: PointF, poly: seq<PointF>) {
    |poly| >= 3 && ClosedCrossings(p, poly) % 2 == 1
  }

  /** The closed walk does not depend on the vertex at which the polygon's list starts. */
  lemma InsideClosedRotation(p: PointF, a: seq<PointF>, b: seq<PointF>)
    requires a != [] && b != []
    ensures ClosedCrossings(p, a + b) == ClosedCrossings(p, b + a)
    ensures InsideClosed(p, a + b) == InsideClosed(p, b + a)
  {
    CrossingsAppend(p, a, b, (a + b)[|a + b| - 1]);
    CrossingsAppend(p, b, a, (b + a)[|b + a| - 1]);
    assert (a + b)[|a + b| - 1] == b[|b| - 1];
    assert (b + a)[|b + a| - 1] == a[|a| - 1];
  }

  /** The as-written start misses the interior point (5, 5) of the triangle (0, 0), (10, 0), (5, 10). */
  lemma TriangleInteriorMissed()
    ensures var tri := [PointF(0.0, 0.0), PointF(10.0, 0.0), PointF(5.0, 10.0)];
      Crossings(PointF(5.0, 5.0), tri, AsWrittenStart(tri)) % 2 == 0 &&
      InsideClosed(PointF(5.0, 5.0), tri)
  {
    var tri := [PointF(0.0, 0.0), PointF(10.0, 0.0), PointF(5.0, 10.0)];
    var p := PointF(5.0, 5.0);
    assert !Toggles(p, PointF(5.0, 5.0), tri[0]);
    assert Toggles(p, PointF(5.0, 10.0), tri[0]);
    assert !Toggles(p, tri[0], tri[1]);
    assert !Toggles(p, tri[1], tri[2]);
    assert tri[..3] == tri;
    assert tri[..2][..1] == tri[..1];
    assert tri[..1][..0] == [];
    assert Crossings(p, tri[..1], PointF(5.0, 5.0)) == 0;
    assert Crossings(p, tri[..2], PointF(5.0, 5.0)) == 0;
    assert Crossings(p, tri, PointF(5.0, 5.0)) == 0;
    assert Crossings(p, tri[..1], PointF(5.0, 10.0)) == 1;
    assert Crossings(p, tri[..2], PointF(5.0, 10.0)) == 1;
    assert Crossings(p, tri, PointF(5.0, 10.0)) == 1;
  }

  // ---------------------------------------------------------------------
  // Segment and PointD

  /** `Segment.Equals` on endpoints, as written: the second disjunct tests `Start == other.End` twice. */
  predicate SegmentEquals(start: PointF, end: PointF, otherStart: PointF, otherEnd: PointF) {
    (start == otherStart && end == otherEnd) || (start == otherEnd && start == otherEnd)
  }

  /** Matching endpoints pairwise, or this start meeting the other's end, is equality; nothing else is. */
  lemma SegmentEqualsMeaning(start: PointF, end: PointF, otherStart: PointF, otherEnd: PointF)
    ensures SegmentEquals(start, end, otherStart, otherEnd) <==>
      (start == otherStart && end == otherEnd) || start == otherEnd
  {
  }

  /**
   * Because the end points are not compared in the second disjunct, the relation is not
   * symmetric, even on segments whose endpoints are in the constructor's order:
   * (5, 0)-(9, 0) equals (0, 0)-(5, 0), but not the other way round.
   */
  lemma SegmentEqualsAsymmetric()
    ensures var a, b, c := PointF(0.0, 0.0), PointF(5.0, 0.0), PointF(9.0, 0.0);
      TruncLe(b, c) && TruncLe(a, b) &&
      SegmentEquals(b, c, a, b) && !SegmentEquals(a, b, b, c)
  {
  }

  /** The evidently intended segment equality: the same endpoints, in either order. */
  predicate SameEndpoints(start: PointF, end: PointF, otherStart: PointF, otherEnd: PointF) {
    (start == otherStart && end == otherEnd) || (start == otherEnd && end == otherStart)
  }

  /** The intended equality is an equivalence on segments, and every pair it accepts the written one accepts too. */
  lemma SameEndpointsIsEquivalence(s0: PointF, e0: PointF, s1: PointF, e1: PointF, s2: PointF, e2: PointF)
    ensures SameEndpoints(s0, e0, s0, e0)
    ensures SameEndpoints(s0, e0, s1, e1) ==> SameEndpoints(s1, e1, s0, e0)
    ensures SameEndpoints(s0, e0, s1, e1) && SameEndpoints(s1, e1, s2, e2) ==> SameEndpoints(s0, e0, s2, e2)
    ensures SameEndpoints(s0, e0, s1, e1) ==> SegmentEquals(s0, e0, s1, e1)
  {
  }

  /**
   * The written equality accepts the constructor-ordered segments (5, 0)-(9, 0) and
   * (0, 0)-(5, 0), which share only one endpoint.
   */
  lemma SegmentEqualsTooWide()
    ensures var a, b, c := PointF(0.0, 0.0), PointF(5.0, 0.0), PointF(9.0, 0.0);
      TruncLe(b, c) && TruncLe(a, b) &&
      SegmentEquals(b, c, a, b) && !SameEndpoints(b, c, a, b)
  {
  }

  /** Lexicographic order on the truncated coordinates of two points. */
  predicate TruncLe(p: PointF, q: PointF) {
    var a, b := TruncPoint(p), TruncPoint(q);
    a.x < b.x || (a.x == b.x && a.y <= b.y)
  }

  /** A bordered segment between two resolved Voronoi vertices, with its endpoints put in truncated lexicographic order. */
  class Segment {
    const bounds: Rectangle
    const start: PointF
    const end: PointF
    const left: PointF
    const right: PointF

    constructor (edge: VoronoiEdge, bounds: Rectangle)
      requires edge.vertexA.At? && edge.vertexB.At?
      ensures this.bounds == bounds && left == edge.leftData && right == edge.rightData
      ensures (start == edge.vertexA.pos && end == edge.vertexB.pos) ||
              (start == edge.vertexB.pos && end == edge.vertexA.pos)
      ensures TruncLe(start, end)
    {
      this.bounds := bounds;
      left := edge.leftData;
      right := edge.rightData;
      var x1 := Trunc(edge.vertexA.pos.x);
      var y1 := Trunc(edge.vertexA.pos.y);
      var x2 := Trunc(edge.vertexB.pos.x);
      var y2 := Trunc(edge.vertexB.pos.y);
      if x1 > x2 || (x1 == x2 && y1 > y2) {
        start := edge.vertexB.pos;
        end := edge.vertexA.pos;
      } else {
        start := edge.vertexA.pos;
        end := edge.vertexB.pos;
      }
    }

    /** `IsInBounds`: the segment crosses the border of its bounds. */
    predicate IsInBounds() {
      IntersectsLine(bounds, start, end)
    }

    /** `Equals`, as written (see `SegmentEquals`). */
    predicate Equals(other: Segment) {
      SegmentEquals(start, end, other.start, other.end)
    }
  }

  /** `PointD ==`: both coordinates differ by less than 0.1. */
  predicate PointDEquals(a: PointF, b: PointF) {
    (if a.x - b.x < 0.0 then b.x - a.x else a.x - b.x) < 0.1 &&
    (if a.y - b.y < 0.0 then b.y - a.y else a.y - b.y) < 0.1
  }

  /** `PointD !=`: the exact negation of `==`. */
  predicate PointDNotEquals(a: PointF, b: PointF) {
    !PointDEquals(a, b)
  }

  /** The fuzzy equality is reflexive and symmetric, and its operator pair is complementary. */
  lemma PointDEqualityLaws(a: PointF, b: PointF)
    ensures PointDEquals(a, a)
    ensures PointDEquals(a, b) == PointDEquals(b, a)
    ensures PointDNotEquals(a, b) != PointDEquals(a, b)
  {
  }

  /** The fuzzy equality is not transitive. */
  lemma PointDEqualsNotTransitive()
    ensures var a, b, c := PointF(0.0, 0.0), PointF(0.06, 0.0), PointF(0.12, 0.0);
      PointDEquals(a, b) && PointDEquals(b, c) && PointDNotEquals(a, c)
  {
  }
}
