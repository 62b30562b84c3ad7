/**
 * The map is a torus: points are wrapped back into the map rectangle, and a
 * border segment is identified by a key rectangle that is the same for every
 * copy of the segment in the neighbouring tiles.
 */
module Toroid {
  import opened Geometry

  function Abs(a: int): nat {
    if a < 0 then -a else a
  }

  function Min(a: int, b: int): int {
    if a < b then a else b
  }

  /** `n * d >= n` for positive n and d. */
  lemma MulAtLeast(n: int, d: int)
    requires n > 0 && d >= 1
    ensures n * d >= n
  {
    assert n * d == n * (d - 1) + n;
  }

  /** Euclidean remainders are unique: any decomposition `a = n q + r` with `0 <= r < n` gives `a % n`. */
  lemma DivModUnique(a: int, n: int, q: int, r: int)
    requires n > 0 && a == n * q + r && 0 <= r < n
    ensures a % n == r
  {
    var q0, r0 := a / n, a % n;
    assert a == n * q0 + r0 && 0 <= r0 < n;
    if q > q0 {
      MulAtLeast(n, q - q0);
    } else if q < q0 {
      MulAtLeast(n, q0 - q);
    }
  }

  /** Adding whole multiples of n keeps the residue modulo n. */
  lemma ShiftMultiple(a: int, n: int, k: int)
    requires n > 0
    ensures (a + n * k) % n == a % n
  {
    var q, r := a / n, a % n;
    assert a == n * q + r;
    assert a + n * k == n * (q + k) + r;
    DivModUnique(a + n * k, n, q + k, r);
  }

  /** Adding a multiple of n keeps the residue modulo n. */
  lemma AddMultiple(a: int, d: int, n: int)
    requires n > 0 && d % n == 0
    ensures (a + d) % n == a % n
  {
    assert d == n * (d / n) + d % n;
    ShiftMultiple(a, n, d / n);
  }

  /** Numbers with the same residue differ by a multiple. */
  lemma CongruentDifference(a: int, b: int, n: int)
    requires n > 0 && a % n == b % n
    ensures (a - b) % n == 0
  {
    assert a == n * (a / n) + a % n && b == n * (b / n) + b % n;
    DivModUnique(a - b, n, a / n - b / n, 0);
  }

  /** C#'s `%` on ints with a positive divisor: truncated toward zero, with the sign of the dividend. */
  function CsRem(a: int, b: int): (r: int)
    requires b > 0
    ensures r % b == a % b
    ensures a >= 0 ==> 0 <= r < b
    ensures a < 0 ==> -b < r <= 0
  {
    if a >= 0 then
      DivModUnique(a % b, b, 0, a % b);
      a % b
    else
      var m := (-a) % b;
      assert -a == b * ((-a) / b) + m;
      assert a == -m + b * -((-a) / b);
      ShiftMultiple(-m, b, -((-a) / b));
      -m
  }

  /** `WrapPoint`: `((x + W) % W, (y + H) % H)` with C#'s remainder. */
  function WrapPoint(p: Point, width: int, height: int): (r: Point)
    requires width > 0 && height > 0
    ensures r.x % width == p.x % width && r.y % height == p.y % height
    ensures p.x >= -width ==> 0 <= r.x < width
    ensures p.y >= -height ==> 0 <= r.y < height
  {
    var x := CsRem(p.x + width, width);
    var y := CsRem(p.y + height, height);
    ShiftMultiple(p.x, width, 1);
    ShiftMultiple(p.y, height, 1);
    Point(x, y)
  }

  /** n copies of b. */
  function Times(n: int, b: real): real {
    n as real * b
  }

  /** d is a whole multiple of b. */
  ghost predicate IsMultiple(d: real, b: real) {
    exists n: int :: d == Times(n, b)
  }

  /** The remainder of real division truncated toward zero (`%` on doubles): a differs from it by a whole multiple of b, and it takes the sign of a. */
  function RealRem(a: real, b: real): (r: real)
    requires b > 0.0
    ensures IsMultiple(a - r, b)
    ensures a >= 0.0 ==> 0.0 <= r < b
    ensures a < 0.0 ==> -b < r <= 0.0
  {
    var k := Trunc(a / b);
    assert a - (a - b * k as real) == Times(k, b);
    assert a >= 0.0 ==> k as real * b <= a < (k as real + 1.0) * b by {
      if a >= 0.0 {
        DivBounds(a, b, k);
      }
    }
    assert a < 0.0 ==> (k as real - 1.0) * b < a <= k as real * b by {
      if a < 0.0 {
        NegDivBounds(a, b, k);
      }
    }
    a - b * k as real
  }

  lemma DivBounds(a: real, b: real, k: int)
    requires b > 0.0 && k as real <= a / b < k as real + 1.0
    ensures k as real * b <= a
    ensures a < (k as real + 1.0) * b
  {
    var q := a / b;
    var k1 := k as real + 1.0;
    assert q * b == a;
    MulMonotone(k as real, q, b);
    MulStrict(q, k1, b);
    assert a < k1 * b;
  }

  lemma NegDivBounds(a: real, b: real, k: int)
    requires b > 0.0 && k as real - 1.0 < a / b <= k as real
    ensures (k as real - 1.0) * b < a
    ensures a <= k as real * b
  {
    var q := a / b;
    assert q * b == a;
    MulStrict(k as real - 1.0, q, b);
    MulMonotone(q, k as real, b);
    assert q * b <= k as real * b;
  }

  lemma MulMonotone(x: real, y: real, b: real)
    requires x <= y && b > 0.0
    ensures x * b <= y * b
  {
    assert y * b - x * b == (y - x) * b;
  }

  lemma MulStrict(x: real, y: real, b: real)
    requires x < y && b > 0.0
    ensures x * b < y * b
  {
    assert y * b - x * b == (y - x) * b;
  }

  /** `WrapVector`: `((x + W) % W, (y + H) % H)` on doubles. */
  function WrapVector(v: PointF, width: int, height: int): (r: PointF)
    requires width > 0 && height > 0
    ensures IsMultiple(v.x - r.x, width as real) && IsMultiple(v.y - r.y, height as real)
    ensures v.x >= -width as real ==> 0.0 <= r.x < width as real
    ensures v.y >= -height as real ==> 0.0 <= r.y < height as real
  {
    var r := PointF(RealRem(v.x + width as real, width as real), RealRem(v.y + height as real, height as real));
    ShiftWhole(v.x + width as real, r.x, width as real);
    ShiftWhole(v.y + height as real, r.y, height as real);
    r
  }

  /** Taking one b off a whole multiple of b leaves a whole multiple. */
  lemma ShiftWhole(a: real, r: real, b: real)
    requires IsMultiple(a - r, b)
    ensures IsMultiple(a - b - r, b)
  {
    var n :| a - r == Times(n, b);
    assert a - b - r == Times(n - 1, b);
  }

  /** A whole multiple of b strictly between -b and b is zero. */
  lemma SmallMultiple(n: int, b: real)
    requires b > 0.0 && -b < Times(n, b) < b
    ensures n == 0
  {
    if n >= 1 {
      MulMonotone(1.0, n as real, b);
    } else if n <= -1 {
      MulMonotone(n as real, -1.0, b);
    }
  }

  /** Two values in [0, b) that differ by a whole multiple of b are equal. */
  lemma WholeMultipleInRange(x: real, y: real, b: real)
    requires b > 0.0 && 0.0 <= x < b && 0.0 <= y < b
    requires IsMultiple(x - y, b)
    ensures x == y
  {
    var n :| x - y == Times(n, b);
    SmallMultiple(n, b);
  }

  /**
   * A copy of a map point in one of the eight neighbouring tiles wraps back
   * onto the point itself, so the exact lookup of the wrapped site finds the
   * original seed point.
   */
  lemma GhostWrapsBack(p: PointF, kx: int, ky: int, width: int, height: int)
    requires width > 0 && height > 0
    requires 0.0 <= p.x < width as real && 0.0 <= p.y < height as real
    requires -1 <= kx <= 1 && -1 <= ky <= 1
    ensures WrapVector(PointF(p.x + (kx * width) as real, p.y + (ky * height) as real), width, height) == p
  {
    var v := PointF(p.x + (kx * width) as real, p.y + (ky * height) as real);
    var r := WrapVector(v, width, height);
    assert v.x == p.x + Times(kx, width as real) && v.y == p.y + Times(ky, height as real);
    WholeDifference(v.x, r.x, p.x, width as real, kx);
    WholeDifference(v.y, r.y, p.y, height as real, ky);
    WholeMultipleInRange(r.x, p.x, width as real);
    WholeMultipleInRange(r.y, p.y, height as real);
  }

  /** If v is r plus a whole multiple of b and also p plus k times b, then r and p differ by a whole multiple of b. */
  lemma WholeDifference(v: real, r: real, p: real, b: real, k: int)
    requires IsMultiple(v - r, b) && v == p + Times(k, b)
    ensures IsMultiple(r - p, b)
  {
    var n :| v - r == Times(n, b);
    assert r - p == Times(k - n, b);
  }

  /** The same for whole points: a copy in a neighbouring tile wraps back onto the point. */
  lemma GhostPointWrapsBack(p: Point, kx: int, ky: int, width: int, height: int)
    requires width > 0 && height > 0
    requires 0 <= p.x < width && 0 <= p.y < height
    requires -1 <= kx <= 1 && -1 <= ky <= 1
    ensures WrapPoint(Point(p.x + kx * width, p.y + ky * height), width, height) == p
  {
    var r := WrapPoint(Point(p.x + kx * width, p.y + ky * height), width, height);
    ShiftMultiple(p.x, width, kx);
    ShiftMultiple(p.y, height, ky);
    SmallResidue(r.x, p.x, width);
    SmallResidue(r.y, p.y, height);
  }

  /** Two values in [0, n) with the same residue are equal. */
  lemma SmallResidue(a: int, b: int, n: int)
    requires n > 0 && 0 <= a < n && 0 <= b < n && a % n == b % n
    ensures a == b
  {
  }

  /** `IsOutofBounds`: strictly outside the closed box [0, width] x [0, height]. */
  predicate IsOutofBounds(height: int, width: int, v: PointF) {
    v.x < 0.0 || v.x > width as real || v.y < 0.0 || v.y > height as real
  }

  /** The comparisons are strict, so points on the far edges of the map count as in bounds. */
  lemma FarEdgesInBounds(height: nat, width: nat, t: real)
    requires 0.0 <= t <= 1.0
    ensures !IsOutofBounds(height, width, PointF(width as real, t * height as real))
    ensures !IsOutofBounds(height, width, PointF(t * width as real, height as real))
  {
  }

  /** Wrapping a point of a neighbouring tile brings it into bounds. */
  lemma WrapVectorInBounds(v: PointF, width: int, height: int)
    requires width > 0 && height > 0
    requires v.x >= -width as real && v.y >= -height as real
    ensures !IsOutofBounds(height, width, WrapVector(v, width, height))
  {
  }

  function Translate(p: Point, dx: int, dy: int): Point {
    Point(p.x + dx, p.y + dy)
  }

  /** The map rectangle as a visibility test: the segment lies in it or crosses its border. */
  predicate Visible(p1: Point, p2: Point, width: int, height: int) {
    var bounds := Rectangle(0, 0, width, height);
    ContainsLine(bounds, ToPointF(p1), ToPointF(p2)) || IntersectsLine(bounds, ToPointF(p1), ToPointF(p2))
  }

  /**
   * First stage of `GetSegmentId`: a segment that neither lies in nor crosses the
   * map rectangle is moved so that its first point is wrapped into the map.
   * Both points move by the same multiple of the map size.
   */
  function WrapStage(p1: Point, p2: Point, width: int, height: int): (r: (Point, Point))
    requires width > 0 && height > 0
    ensures r.0.x - p1.x == r.1.x - p2.x && r.0.y - p1.y == r.1.y - p2.y
    ensures (r.0.x - p1.x) % width == 0 && (r.0.y - p1.y) % height == 0
  {
    if !Visible(p1, p2, width, height) then
      var n1 := WrapPoint(p1, width, height);
      CongruentDifference(n1.x, p1.x, width);
      CongruentDifference(n1.y, p1.y, height);
      (n1, Translate(p2, n1.x - p1.x, n1.y - p1.y))
    else
      (p1, p2)
  }

  /** Second stage: a segment crossing the right seam x = width is moved one map width to the left. */
  function RightSeamStage(p1: Point, p2: Point, width: int, height: int): (r: (Point, Point))
    requires width > 0 && height > 0
    ensures r.0.x - p1.x == r.1.x - p2.x && r.0.y == p1.y && r.1.y == p2.y
    ensures r.0.x - p1.x == 0 || r.0.x - p1.x == -width
  {
    if LineIntersectsLine(ToPointF(p1), ToPointF(p2), PointF(width as real, 0.0), PointF(width as real, height as real)) then
      (Translate(p1, -width, 0), Translate(p2, -width, 0))
    else
      (p1, p2)
  }

  /** Third stage: a segment crossing the bottom seam y = height is moved one map height up. */
  function BottomSeamStage(p1: Point, p2: Point, width: int, height: int): (r: (Point, Point))
    requires width > 0 && height > 0
    ensures r.0.y - p1.y == r.1.y - p2.y && r.0.x == p1.x && r.1.x == p2.x
    ensures r.0.y - p1.y == 0 || r.0.y - p1.y == -height
  {
    if LineIntersectsLine(ToPointF(p1), ToPointF(p2), PointF(0.0, height as real), PointF(width as real, height as real)) then
      (Translate(p1, 0, -height), Translate(p2, 0, -height))
    else
      (p1, p2)
  }

  /**
   * `GetSegmentId(Point, Point)`: the key of a border segment, the bounding
   * rectangle of its endpoints after the three stages. Every stage moves both
   * points by the same amount, a multiple of the map size, so the key has the
   * segment's own extent and lies in the same residue class as its corner.
   */
  function GetSegmentId(p1: Point, p2: Point, width: int, height: int): (r: Rectangle)
    requires width > 0 && height > 0
    ensures r.width == Abs(p1.x - p2.x) && r.height == Abs(p1.y - p2.y)
    ensures r.x % width == Min(p1.x, p2.x) % width
    ensures r.y % height == Min(p1.y, p2.y) % height
  {
    var w := WrapStage(p1, p2, width, height);
    var s := RightSeamStage(w.0, w.1, width, height);
    var t := BottomSeamStage(s.0, s.1, width, height);
    SegmentIdResidue(p1, p2, w, s, t, width, height);
    Rectangle(Min(t.0.x, t.1.x), Min(t.0.y, t.1.y), Abs(t.0.x - t.1.x), Abs(t.0.y - t.1.y))
  }

  lemma SegmentIdResidue(p1: Point, p2: Point, w: (Point, Point), s: (Point, Point), t: (Point, Point), width: int, height: int)
    requires width > 0 && height > 0
    requires w.0.x - p1.x == w.1.x - p2.x && w.0.y - p1.y == w.1.y - p2.y
    requires (w.0.x - p1.x) % width == 0 && (w.0.y - p1.y) % height == 0
    requires s.0.x - w.0.x == s.1.x - w.1.x && s.0.y == w.0.y && s.1.y == w.1.y
    requires s.0.x - w.0.x == 0 || s.0.x - w.0.x == -width
    requires t.0.y - s.0.y == t.1.y - s.1.y && t.0.x == s.0.x && t.1.x == s.1.x
    requires t.0.y - s.0.y == 0 || t.0.y - s.0.y == -height
    ensures Min(t.0.x, t.1.x) % width == Min(p1.x, p2.x) % width
    ensures Min(t.0.y, t.1.y) % height == Min(p1.y, p2.y) % height
  {
    var mx := Min(p1.x, p2.x) + (w.0.x - p1.x);
    var my := Min(p1.y, p2.y) + (w.0.y - p1.y);
    AddMultiple(Min(p1.x, p2.x), w.0.x - p1.x, width);
    AddMultiple(Min(p1.y, p2.y), w.0.y - p1.y, height);
    assert Min(t.0.x, t.1.x) == mx + (s.0.x - w.0.x);
    assert Min(t.0.y, t.1.y) == my + (t.0.y - s.0.y);
    ShiftMultiple(mx, width, if s.0.x - w.0.x == 0 then 0 else -1);
    ShiftMultiple(my, height, if t.0.y - s.0.y == 0 then 0 else -1);
  }

  /** For a visible segment the key does not depend on the order in which the endpoints are given. */
  lemma SegmentIdSymmetric(p1: Point, p2: Point, width: int, height: int)
    requires width > 0 && height > 0
    requires Visible(p1, p2, width, height)
    ensures GetSegmentId(p1, p2, width, height) == GetSegmentId(p2, p1, width, height)
  {
    var bounds := Rectangle(0, 0, width, height);
    IntersectsLineSymmetric(bounds, ToPointF(p1), ToPointF(p2));
    assert WrapStage(p1, p2, width, height) == (p1, p2);
    assert WrapStage(p2, p1, width, height) == (p2, p1);
    var right1, right2 := PointF(width as real, 0.0), PointF(width as real, height as real);
    LineIntersectsLineReversed(ToPointF(p1), ToPointF(p2), right1, right2);
    var s := RightSeamStage(p1, p2, width, height);
    var s' := RightSeamStage(p2, p1, width, height);
    assert s'.0 == s.1 && s'.1 == s.0;
    LineIntersectsLineReversed(ToPointF(s.0), ToPointF(s.1), PointF(0.0, height as real), right2);
    var t := BottomSeamStage(s.0, s.1, width, height);
    var t' := BottomSeamStage(s'.0, s'.1, width, height);
    assert t'.0 == t.1 && t'.1 == t.0;
  }

  /** `GetSegmentId(PointF, PointF)`: the key of the segment between the rounded points. */
  function GetSegmentIdF(a: PointF, b: PointF, width: int, height: int): Rectangle
    requires width > 0 && height > 0
  {
    GetSegmentId(ToPoint(a), ToPoint(b), width, height)
  }

  /** `GetSegmentId(VoronoiEdge)`: the key of a resolved Voronoi edge. */
  function GetEdgeSegmentId(edge: VoronoiEdge, width: int, height: int): Rectangle
    requires width > 0 && height > 0
    requires edge.vertexA.At? && edge.vertexB.At?
  {
    GetSegmentIdF(edge.vertexA.pos, edge.vertexB.pos, width, height)
  }
}
