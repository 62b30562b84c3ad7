/**
 * The seed points of the map (`Form1.GeneratePoints` and the tail of
 * `Form1.ImprovePoints`): rejection sampling of points at least 30 units
 * apart, the province order given by a zero-padded text key, and the eight
 * translated copies of the points that make the Voronoi diagram tile.
 */
module PointSampler {
  import opened Wrappers
  import opened Random
  import opened Geometry
  import opened Formatting
  import opened Sorting
  import Toroid

  /** `Distance(v, c) < 30`, compared on squares since the square root is monotone. */
  predicate TooClose(a: PointF, b: PointF) {
    (a.x - b.x) * (a.x - b.x) + (a.y - b.y) * (a.y - b.y) < 900.0
  }

  /** The rejection test: the list is not empty and its nearest point is closer than 30 to the candidate. */
  predicate Rejected(accepted: seq<PointF>, c: PointF) {
    |accepted| > 0 && exists j :: 0 <= j < |accepted| && TooClose(accepted[j], c)
  }

  /** The candidate `(u * (Width - 20) + 10, v * (Height - 20) + 10)` built from two consecutive draws. */
  function Candidate(u: Draw, v: Draw, width: int, height: int): PointF {
    PointF(u * (width - 20) as real + 10.0, v * (height - 20) as real + 10.0)
  }

  /** No two points of the list are closer than 30. */
  predicate Separated(s: seq<PointF>) {
    forall i, j :: 0 <= i < j < |s| ==> !TooClose(s[i], s[j])
  }

  /** At least 10 from the left and top edges, and less than `size - 10` on each axis. */
  predicate InMargin(p: PointF, width: int, height: int) {
    10.0 <= p.x < (width - 10) as real && 10.0 <= p.y < (height - 10) as real
  }

  datatype SampleError = OutOfDraws

  /**
   * The sampling loop on values: candidates are drawn two samples at a time
   * and kept unless rejected, until `points` are kept. Running out of samples
   * stands for a loop that needs more draws than given, possibly forever.
   */
  function SampleFrom(accepted: seq<PointF>, draws: seq<Draw>, points: nat, width: int, height: int): Result<seq<PointF>, SampleError>
    decreases |draws|
  {
    if |accepted| >= points then Success(accepted)
    else if |draws| < 2 then Failure(OutOfDraws)
    else
      var c := Candidate(draws[0], draws[1], width, height);
      if Rejected(accepted, c) then SampleFrom(accepted, draws[2..], points, width, height)
      else SampleFrom(accepted + [c], draws[2..], points, width, height)
  }

  /** A candidate lies inside the margins whenever the map is wider and higher than 20. */
  lemma CandidateInMargin(u: Draw, v: Draw, width: int, height: int)
    requires width > 20 && height > 20
    ensures InMargin(Candidate(u, v, width, height), width, height)
  {
    Toroid.MulMonotone(0.0, u, (width - 20) as real);
    Toroid.MulStrict(u, 1.0, (width - 20) as real);
    Toroid.MulMonotone(0.0, v, (height - 20) as real);
    Toroid.MulStrict(v, 1.0, (height - 20) as real);
  }

  /**
   * Sampling keeps what was accepted, ends with exactly `points` points, keeps
   * every pair at least 30 apart and, on a map larger than 20 by 20, keeps
   * every point inside the margins.
   */
  lemma {:induction false} SampleFromProperties(accepted: seq<PointF>, draws: seq<Draw>, points: nat, width: int, height: int)
    requires |accepted| <= points && Separated(accepted)
    requires width > 20 && height > 20 ==> forall i :: 0 <= i < |accepted| ==> InMargin(accepted[i], width, height)
    ensures var r := SampleFrom(accepted, draws, points, width, height);
      r.Success? ==>
        && |r.value| == points
        && r.value[..|accepted|] == accepted
        && Separated(r.value)
        && (width > 20 && height > 20 ==> forall i :: 0 <= i < |r.value| ==> InMargin(r.value[i], width, height))
    decreases |draws|
  {
    if |accepted| < points && |draws| >= 2 {
      var c := Candidate(draws[0], draws[1], width, height);
      if Rejected(accepted, c) {
        SampleFromProperties(accepted, draws[2..], points, width, height);
      } else {
        var next := accepted + [c];
        forall i, j | 0 <= i < j < |next| ensures !TooClose(next[i], next[j]) {
          if j == |accepted| {
            assert !TooClose(accepted[i], c);
          }
        }
        if width > 20 && height > 20 {
          CandidateInMargin(draws[0], draws[1], width, height);
        }
        SampleFromProperties(next, draws[2..], points, width, height);
        var r := SampleFrom(next, draws[2..], points, width, height);
        if r.Success? {
          assert r.value[..|accepted|] == r.value[..|next|][..|accepted|];
        }
      }
    } else if |accepted| >= points {
      assert accepted[..|accepted|] == accepted;
    }
  }

  /**
   * The rejection loop of `GeneratePoints`: the result is the value of the
   * sampling specification, so it holds exactly `points` points, pairwise at
   * least 30 apart and inside the margins.
   */
  method SamplePoints(points: nat, width: int, height: int, draws: seq<Draw>) returns (r: Result<seq<PointF>, SampleError>)
    ensures r == SampleFrom([], draws, points, width, height)
    ensures r.Success? ==> |r.value| == points && Separated(r.value)
    ensures r.Success? && width > 20 && height > 20 ==> forall i :: 0 <= i < |r.value| ==> InMargin(r.value[i], width, height)
  {
    var pointList: seq<PointF> := [];
    var next := 0;
    while |pointList| < points
      invariant 0 <= next <= |draws|
      invariant SampleFrom(pointList, draws[next..], points, width, height) == SampleFrom([], draws, points, width, height)
      decreases |draws| - next
    {
      if next + 2 > |draws| {
        return Failure(OutOfDraws);
      }
      var x := draws[next] * (width - 20) as real + 10.0;
      var y := draws[next + 1] * (height - 20) as real + 10.0;
      var vector := PointF(x, y);
      SampleStep(pointList, draws, next, points, width, height);
      next := next + 2;
      if Rejected(pointList, vector) {
        continue;
      }
      pointList := pointList + [vector];
    }
    r := Success(pointList);
    SampleFromProperties([], draws, points, width, height);
  }

  /** One attempt of the sampling loop, reading the two samples at `next`. */
  lemma SampleStep(accepted: seq<PointF>, draws: seq<Draw>, next: nat, points: nat, width: int, height: int)
    requires |accepted| < points && next + 2 <= |draws|
    ensures var c := Candidate(draws[next], draws[next + 1], width, height);
      SampleFrom(accepted, draws[next..], points, width, height) ==
        if Rejected(accepted, c) then SampleFrom(accepted, draws[next + 2..], points, width, height)
        else SampleFrom(accepted + [c], draws[next + 2..], points, width, height)
  {
    assert draws[next..][2..] == draws[next + 2..];
  }

  /** The text key `{0:000000000}{1:000000000}` of `(height - (int)y, (int)x)`. */
  function Key(v: PointF, height: int): string {
    Format9(height - Trunc(v.y)) + Format9(Trunc(v.x))
  }

  /** Two points compared by their keys in ordinal string order. */
  function KeyLe(height: int): (PointF, PointF) -> bool {
    (a: PointF, b: PointF) => LexLe(Key(a, height), Key(b, height))
  }

  /** Comparing keys is a total preorder, so sorting by it is well defined. */
  lemma KeyLeIsTotalPreorder(height: int)
    ensures IsTotalPreorder(KeyLe(height))
  {
    var le := KeyLe(height);
    forall a, b ensures le(a, b) || le(b, a) {
      LexLeTotal(Key(a, height), Key(b, height));
    }
    forall a, b, c | le(a, b) && le(b, c) ensures le(a, c) {
      LexLeTransitive(Key(a, height), Key(b, height), Key(c, height));
    }
  }

  /** `OrderBy` on the key: the points in ascending key order. */
  function OrderPoints(pts: seq<PointF>, height: int): (r: seq<PointF>)
    ensures multiset(r) == multiset(pts)
    ensures SortedBy(r, KeyLe(height))
  {
    KeyLeIsTotalPreorder(height);
    SortBySorted(pts, KeyLe(height));
    SortBy(pts, KeyLe(height))
  }

  /** Both key fields of the point are written with exactly nine digits. */
  predicate KeyInRange(v: PointF, height: int) {
    0 <= height - Trunc(v.y) < Pow10(9) && 0 <= Trunc(v.x) < Pow10(9)
  }

  /** A key whose fields are in range is the two fields padded to nine digits. */
  lemma KeyIsPadded(v: PointF, height: int)
    requires KeyInRange(v, height)
    ensures Key(v, height) == Pad(height - Trunc(v.y), 9) + Pad(Trunc(v.x), 9)
  {
    Format9Small(height - Trunc(v.y));
    Format9Small(Trunc(v.x));
  }

  /**
   * For keys in range, the text order is the order by rows counted from the
   * bottom (`height - (int)y`), then by column (`(int)x`).
   */
  lemma KeyOrder(a: PointF, b: PointF, height: int)
    requires KeyInRange(a, height) && KeyInRange(b, height)
    ensures KeyLe(height)(a, b) <==>
      height - Trunc(a.y) < height - Trunc(b.y) || (Trunc(a.y) == Trunc(b.y) && Trunc(a.x) <= Trunc(b.x))
  {
    KeyIsPadded(a, height);
    KeyIsPadded(b, height);
    KeyFieldsOrder(Key(a, height), Key(b, height), height - Trunc(a.y), Trunc(a.x), height - Trunc(b.y), Trunc(b.x));
  }

  /** Keys made of two padded fields compare as their field pairs do. */
  lemma KeyFieldsOrder(ka: string, kb: string, ya: nat, xa: nat, yb: nat, xb: nat)
    requires ya < Pow10(9) && xa < Pow10(9) && yb < Pow10(9) && xb < Pow10(9)
    requires ka == Pad(ya, 9) + Pad(xa, 9) && kb == Pad(yb, 9) + Pad(xb, 9)
    ensures LexLe(ka, kb) <==> ya < yb || (ya == yb && xa <= xb)
  {
    PaddedPairOrder(ya, xa, yb, xb);
  }

  /** Two nine-digit pairs compare as text exactly as the pairs compare lexicographically as numbers. */
  lemma PaddedPairOrder(ya: nat, xa: nat, yb: nat, xb: nat)
    requires ya < Pow10(9) && xa < Pow10(9) && yb < Pow10(9) && xb < Pow10(9)
    ensures LexLe(Pad(ya, 9) + Pad(xa, 9), Pad(yb, 9) + Pad(xb, 9)) <==> ya < yb || (ya == yb && xa <= xb)
  {
    PadOrder(ya, yb, 9);
    PadOrder(xa, xb, 9);
    LexLeConcat(Pad(ya, 9), Pad(xa, 9), Pad(yb, 9), Pad(xb, 9));
  }

  /** A point inside the margins of a map smaller than 10^9 has its key fields in range. */
  lemma MarginKeyInRange(v: PointF, width: int, height: int)
    requires width > 20 && height > 20 && width < Pow10(9) && height < Pow10(9)
    requires InMargin(v, width, height)
    ensures KeyInRange(v, height)
  {
  }

  /** The ordered points of a map smaller than 10^9 run by row from the bottom, then by column. */
  lemma OrderedByRowThenColumn(pts: seq<PointF>, width: int, height: int)
    requires width > 20 && height > 20 && width < Pow10(9) && height < Pow10(9)
    requires forall i :: 0 <= i < |pts| ==> InMargin(pts[i], width, height)
    ensures var r := OrderPoints(pts, height);
      forall i, j :: 0 <= i < j < |r| ==>
        height - Trunc(r[i].y) < height - Trunc(r[j].y) ||
        (Trunc(r[i].y) == Trunc(r[j].y) && Trunc(r[i].x) <= Trunc(r[j].x))
  {
    var r := OrderPoints(pts, height);
    forall i, j | 0 <= i < j < |r|
      ensures height - Trunc(r[i].y) < height - Trunc(r[j].y) ||
        (Trunc(r[i].y) == Trunc(r[j].y) && Trunc(r[i].x) <= Trunc(r[j].x))
    {
      assert r[i] in multiset(pts) && r[j] in multiset(pts);
      var k :| 0 <= k < |pts| && pts[k] == r[i];
      var l :| 0 <= l < |pts| && pts[l] == r[j];
      MarginKeyInRange(r[i], width, height);
      MarginKeyInRange(r[j], width, height);
      KeyOrder(r[i], r[j], height);
    }
  }

  /** The eight neighbouring tiles, in the order of the ghost loops: x outer, y inner, (0, 0) skipped. */
  const Offsets: seq<(int, int)> := [(-1, -1), (-1, 0), (-1, 1), (0, -1), (0, 1), (1, -1), (1, 0), (1, 1)]

  /** How many ghost blocks precede the block of tile (x, y) in loop order. */
  function BlocksBefore(x: int, y: int): int {
    (x + 1) * 3 + (y + 1) - (if x > 0 || (x == 0 && y > 0) then 1 else 0)
  }

  lemma OffsetOfBlock(x: int, y: int)
    requires -1 <= x <= 1 && -1 <= y <= 1 && !(x == 0 && y == 0)
    ensures 0 <= BlocksBefore(x, y) < 8 && Offsets[BlocksBefore(x, y)] == (x, y)
  {
  }

  /** `new Vector(p[0] + x * Width, p[1] + y * Height)`: the copy of p in tile (x, y). */
  function Shift(p: PointF, offset: (int, int), width: int, height: int): PointF {
    PointF(p.x + (offset.0 * width) as real, p.y + (offset.1 * height) as real)
  }

  /** The position of the i-th point of ghost block b, after the n points of the list. */
  function Slot(n: nat, count: nat, b: nat, i: nat): nat {
    n + b * count + i
  }

  /** The slot after the last point of block b is the first point of block b + 1. */
  lemma SlotNextBlock(n: nat, count: nat, b: nat)
    ensures Slot(n, count, b, count) == Slot(n, count, b + 1, 0)
  {
    assert (b + 1) * count == b * count + count;
  }

  /** Slots never come before the list's own points. */
  lemma SlotAtLeast(n: nat, count: nat, b: nat, i: nat)
    ensures Slot(n, count, b, i) >= n + i
  {
  }

  datatype GhostError = IndexOutOfRange

  /** The first b ghost blocks are in place: each slot holds its source entry moved into the block's tile. */
  predicate Laid(out: seq<PointF>, n: nat, count: nat, b: nat, width: int, height: int)
    requires b <= 8
  {
    forall bb: nat, ii: nat {:trigger Slot(n, count, bb, ii)} :: bb < b && ii < count ==>
      Slot(n, count, bb, ii) < |out| && ii < |out| &&
      out[Slot(n, count, bb, ii)] == Shift(out[ii], Offsets[bb], width, height)
  }

  /** Appending block b to a list holding the first b blocks gives a list holding b + 1 blocks. */
  lemma LaidExtends(out: seq<PointF>, next: seq<PointF>, n: nat, count: nat, b: nat, width: int, height: int)
    requires b < 8 && Laid(out, n, count, b, width, height)
    requires |out| <= |next| && next[..|out|] == out
    requires forall ii {:trigger Slot(n, count, b, ii)} :: 0 <= ii < count ==>
      Slot(n, count, b, ii) < |next| && ii < |next| &&
      next[Slot(n, count, b, ii)] == Shift(next[ii], Offsets[b], width, height)
    ensures Laid(next, n, count, b + 1, width, height)
  {
    forall bb: nat, ii: nat {:trigger Slot(n, count, bb, ii)} | bb < b + 1 && ii < count
      ensures Slot(n, count, bb, ii) < |next| && ii < |next| &&
        next[Slot(n, count, bb, ii)] == Shift(next[ii], Offsets[bb], width, height)
    {
      if bb < b {
        assert Slot(n, count, bb, ii) < |out| && ii < |out| &&
          out[Slot(n, count, bb, ii)] == Shift(out[ii], Offsets[bb], width, height);
        assert next[Slot(n, count, bb, ii)] == out[Slot(n, count, bb, ii)];
        assert next[ii] == out[ii];
      }
    }
  }

  /** The state between ghost blocks: the list, then b complete blocks, nothing else. */
  predicate Tiled(out: seq<PointF>, list: seq<PointF>, count: nat, b: nat, width: int, height: int)
    requires b <= 8
  {
    && |out| == Slot(|list|, count, b, 0) >= |list|
    && out[..|list|] == list
    && (|list| == 0 && count > 0 ==> b == 0)
    && Laid(out, |list|, count, b, width, height)
  }

  /**
   * The ghost loops of `GeneratePoints` and `ImprovePoints`: for each of the
   * eight neighbouring tiles, the first `count` entries of the growing list
   * are appended again, translated into that tile. Entry i is read from the
   * list as it stands, so it may itself be a ghost when `count` exceeds the
   * original length; reading past the end fails, which happens exactly when
   * the list is empty and `count` is positive.
   */
  method AppendGhosts(list: seq<PointF>, count: nat, width: int, height: int) returns (r: Result<seq<PointF>, GhostError>)
    ensures r.Failure? <==> |list| == 0 && count > 0
    ensures r.Success? ==> |r.value| == |list| + 8 * count && r.value[..|list|] == list
    ensures r.Success? ==> forall b, i {:trigger Slot(|list|, count, b, i)} :: 0 <= b < 8 && 0 <= i < count ==>
      Slot(|list|, count, b, i) < |r.value| && i < |r.value| &&
      r.value[Slot(|list|, count, b, i)] == Shift(r.value[i], Offsets[b], width, height)
  {
    var out := list;
    ghost var b: nat := 0;
    for x := -1 to 2
      invariant b == BlocksBefore(x, -1)
      invariant Tiled(out, list, count, b, width, height)
    {
      for y := -1 to 2
        invariant b == BlocksBefore(x, y)
        invariant Tiled(out, list, count, b, width, height)
      {
        if x == 0 && y == 0 {
          continue;
        }
        OffsetOfBlock(x, y);
        var block := AppendTile(out, list, count, (x, y), width, height, b);
        if block.Failure? {
          return Failure(block.error);
        }
        out := block.value;
        b := b + 1;
      }
    }
    r := Success(out);
    assert Laid(out, |list|, count, 8, width, height);
  }

  /** One pass of the inner ghost loop: block b appended to a list holding the first b blocks. */
  method AppendTile(out: seq<PointF>, list: seq<PointF>, count: nat, offset: (int, int), width: int, height: int, ghost b: nat)
    returns (r: Result<seq<PointF>, GhostError>)
    requires b < 8 && offset == Offsets[b] && Tiled(out, list, count, b, width, height)
    ensures r.Failure? <==> |list| == 0 && count > 0
    ensures r.Success? ==> Tiled(r.value, list, count, b + 1, width, height)
  {
    SlotAtLeast(|list|, count, b, 0);
    r := AppendBlock(out, count, offset, width, height, |list|, b);
    if r.Success? {
      LaidExtends(out, r.value, |list|, count, b, width, height);
      SlotNextBlock(|list|, count, b);
      assert r.value[..|list|] == out[..|list|];
    }
  }

  /**
   * One ghost block, the innermost loop: entries 0 to count - 1 of the
   * growing list are appended again, translated into tile `offset`. The list
   * already holds n points and b blocks; reading past its end fails.
   */
  method AppendBlock(out: seq<PointF>, count: nat, offset: (int, int), width: int, height: int, ghost n: nat, ghost b: nat)
    returns (r: Result<seq<PointF>, GhostError>)
    requires |out| == Slot(n, count, b, 0)
    ensures r.Failure? <==> |out| == 0 && count > 0
    ensures r.Success? ==> |r.value| == |out| + count && r.value[..|out|] == out
    ensures r.Success? ==> forall ii {:trigger Slot(n, count, b, ii)} :: 0 <= ii < count ==>
      Slot(n, count, b, ii) < |r.value| && ii < |r.value| &&
      r.value[Slot(n, count, b, ii)] == Shift(r.value[ii], offset, width, height)
  {
    var list := out;
    for i := 0 to count
      invariant |list| == |out| + i
      invariant list[..|out|] == out
      invariant |out| == 0 && count > 0 ==> i == 0
      invariant forall ii {:trigger Slot(n, count, b, ii)} :: 0 <= ii < i ==>
        Slot(n, count, b, ii) < |list| && ii < |list| &&
        list[Slot(n, count, b, ii)] == Shift(list[ii], offset, width, height)
    {
      if i >= |list| {
        return Failure(IndexOutOfRange);
      }
      var point := list[i];
      list := list + [Shift(point, offset, width, height)];
    }
    r := Success(list);
  }

  /** With a count no larger than the list, every ghost is a translated copy of an original point. */
  lemma GhostsOfOriginals(list: seq<PointF>, out: seq<PointF>, count: nat, width: int, height: int)
    requires count <= |list|
    requires |out| == |list| + 8 * count && out[..|list|] == list
    requires forall b, i {:trigger Slot(|list|, count, b, i)} :: 0 <= b < 8 && 0 <= i < count ==>
      Slot(|list|, count, b, i) < |out| && i < |out| &&
      out[Slot(|list|, count, b, i)] == Shift(out[i], Offsets[b], width, height)
    ensures forall b, i {:trigger Slot(|list|, count, b, i)} :: 0 <= b < 8 && 0 <= i < count ==>
      Slot(|list|, count, b, i) < |out| && out[Slot(|list|, count, b, i)] == Shift(list[i], Offsets[b], width, height)
  {
    forall b, i | 0 <= b < 8 && 0 <= i < count
      ensures Slot(|list|, count, b, i) < |out| && out[Slot(|list|, count, b, i)] == Shift(list[i], Offsets[b], width, height)
    {
      assert out[i] == out[..|list|][i];
    }
  }

  /** What a point-generation step leaves in `_pointList` and `OrderedPoints`. */
  datatype Generated = Generated(pointList: seq<PointF>, orderedPoints: seq<PointF>)

  /**
   * `GeneratePoints`: the sampled points, in the order sampled, followed by
   * their eight translated copies; the provinces' order is the sampled points
   * sorted by key. Sampling is the only step that can fail.
   */
  method GeneratePoints(points: nat, width: int, height: int, draws: seq<Draw>) returns (r: Result<Generated, SampleError>)
    ensures r.Failure? <==> SampleFrom([], draws, points, width, height).Failure?
    ensures r.Success? ==>
      var reals := SampleFrom([], draws, points, width, height).value;
      && |reals| == points
      && |r.value.pointList| == 9 * points
      && r.value.pointList[..points] == reals
      && (forall b, i {:trigger Slot(points, points, b, i)} :: 0 <= b < 8 && 0 <= i < points ==>
            Slot(points, points, b, i) < 9 * points && r.value.pointList[Slot(points, points, b, i)] == Shift(reals[i], Offsets[b], width, height))
      && r.value.orderedPoints == OrderPoints(reals, height)
  {
    var sampled := SamplePoints(points, width, height, draws);
    if sampled.Failure? {
      return Failure(sampled.error);
    }
    var reals := sampled.value;
    var ordered := OrderPoints(reals, height);
    var ghosts := AppendGhosts(reals, points, width, height);
    assert ghosts.Success?;
    GhostsOfOriginals(reals, ghosts.value, points, width, height);
    r := Success(Generated(ghosts.value, ordered));
  }

  /** `newPoints.Select(WrapVector)`: every point wrapped into the map. */
  function WrapAll(s: seq<PointF>, mapWidth: int, mapHeight: int): seq<PointF>
    requires mapWidth > 0 && mapHeight > 0
  {
    seq(|s|, i requires 0 <= i < |s| => Toroid.WrapVector(s[i], mapWidth, mapHeight))
  }

  /**
   * The tail of `ImprovePoints`, after the relaxed points are computed: the
   * provinces' order is the wrapped points sorted by key, and the point list
   * is the unwrapped points followed by `points` entries per neighbouring tile.
   * The map size wraps, the size fields of the form key and translate.
   */
  method ImprovePointsTail(newPoints: seq<PointF>, points: nat, width: int, height: int, mapWidth: int, mapHeight: int)
    returns (r: Result<Generated, GhostError>)
    requires mapWidth > 0 && mapHeight > 0
    ensures r.Failure? <==> |newPoints| == 0 && points > 0
    ensures r.Success? ==>
      && r.value.orderedPoints == OrderPoints(WrapAll(newPoints, mapWidth, mapHeight), height)
      && |r.value.pointList| == |newPoints| + 8 * points
      && r.value.pointList[..|newPoints|] == newPoints
      && (forall b, i {:trigger Slot(|newPoints|, points, b, i)} :: 0 <= b < 8 && 0 <= i < points ==>
            Slot(|newPoints|, points, b, i) < |r.value.pointList| && i < |r.value.pointList| &&
            r.value.pointList[Slot(|newPoints|, points, b, i)] == Shift(r.value.pointList[i], Offsets[b], width, height))
  {
    var ordered := OrderPoints(WrapAll(newPoints, mapWidth, mapHeight), height);
    var ghosts := AppendGhosts(newPoints, points, width, height);
    if ghosts.Failure? {
      return Failure(ghosts.error);
    }
    r := Success(Generated(ghosts.value, ordered));
  }
}
