/**
 * The cache of jagged province borders: for every visible Voronoi edge the
 * generator stores one noisy polyline under the edge's segment key, and the
 * drawing code later looks the polyline up again, possibly for a copy of the
 * segment in a neighbouring tile.
 */
module BorderCache {
  import opened Wrappers
  import opened Geometry
  import opened Toroid

  /** The rounded interior points of the two noisy half-borders, as the random subdivision produced them. */
  datatype Noise = Noise(first: seq<Point>, second: seq<Point>)

  function Reverse<T>(s: seq<T>): (r: seq<T>)
    ensures |r| == |s|
    ensures forall i :: 0 <= i < |s| ==> r[i] == s[|s| - 1 - i]
  {
    if s == [] then [] else Reverse(s[1..]) + [s[0]]
  }

  function Last<T>(s: seq<T>): T
    requires |s| > 0
  {
    s[|s| - 1]
  }

  function Max(a: int, b: int): int {
    if a < b then b else a
  }

  /** `Interpolate(a, b, position)`: the point `b + (a - b) * position`. */
  function Interpolate(a: PointF, b: PointF, position: real): (r: PointF)
    ensures position == 0.0 ==> r == b
    ensures position == 1.0 ==> r == a
  {
    PointF(b.x + (a.x - b.x) * position, b.y + (a.y - b.y) * position)
  }

  /**
   * `GenerateJaggedSegment`: the rounded first vertex, the first half's interior
   * points and the rounded midpoint, followed by the second half (from the second
   * vertex to the midpoint) reversed, so the path runs from A through the
   * midpoint (twice) to B.
   */
  function JaggedSegment(edge: VoronoiEdge, noise: Noise): (path: seq<Point>)
    requires edge.vertexA.At? && edge.vertexB.At?
    ensures |path| == |noise.first| + |noise.second| + 4
    ensures path[0] == ToPoint(edge.vertexA.pos) && Last(path) == ToPoint(edge.vertexB.pos)
    ensures var mid := ToPoint(Interpolate(edge.vertexA.pos, edge.vertexB.pos, 0.5));
      path[|noise.first| + 1] == mid && path[|noise.first| + 2] == mid
    ensures path[1..|noise.first| + 1] == noise.first
    ensures path[|noise.first| + 3..|path| - 1] == Reverse(noise.second)
  {
    var a, b := edge.vertexA.pos, edge.vertexB.pos;
    var mid := ToPoint(Interpolate(a, b, 0.5));
    var half1 := [ToPoint(a)] + noise.first + [mid];
    var half2 := [ToPoint(b)] + noise.second + [mid];
    ReverseAppend([ToPoint(b)] + noise.second, [mid]);
    ReverseAppend([ToPoint(b)], noise.second);
    assert Reverse([mid]) == [mid] && Reverse([ToPoint(b)]) == [ToPoint(b)];
    half1 + Reverse(half2)
  }

  /** Reversing a concatenation reverses and swaps the parts. */
  lemma ReverseAppend<T>(s: seq<T>, t: seq<T>)
    ensures Reverse(s + t) == Reverse(t) + Reverse(s)
  {
    var r, r' := Reverse(s + t), Reverse(t) + Reverse(s);
    assert |r| == |r'|;
    forall i | 0 <= i < |r| ensures r[i] == r'[i] {
      if i < |t| {
        assert r[i] == (s + t)[|s| + |t| - 1 - i] == t[|t| - 1 - i];
      } else {
        assert r[i] == (s + t)[|s| + |t| - 1 - i] == s[|s| + |t| - 1 - i];
      }
    }
  }

  /** The visibility filter of `GenerateProvinces`: both vertices resolved, and the edge inside or crossing the map. */
  predicate IsVisible(edge: VoronoiEdge, width: int, height: int) {
    var bounds := Rectangle(0, 0, width, height);
    edge.vertexA.At? && edge.vertexB.At? && (ContainsEdge(bounds, edge) || IntersectsEdge(bounds, edge))
  }

  /** The visible edges, in the order of the graph's edge list. */
  function VisibleEdges(edges: seq<VoronoiEdge>, width: int, height: int): (r: seq<VoronoiEdge>)
    ensures forall e :: e in r <==> e in edges && IsVisible(e, width, height)
    ensures |r| <= |edges|
  {
    if edges == [] then []
    else
      var rest := VisibleEdges(edges[1..], width, height);
      assert forall e :: e in edges <==> e == edges[0] || e in edges[1..];
      if IsVisible(edges[0], width, height) then [edges[0]] + rest else rest
  }

  /** The filter keeps the order of the edge list: it distributes over concatenation. */
  lemma {:induction false} VisibleEdgesAppend(xs: seq<VoronoiEdge>, ys: seq<VoronoiEdge>, width: int, height: int)
    ensures VisibleEdges(xs + ys, width, height) == VisibleEdges(xs, width, height) + VisibleEdges(ys, width, height)
    decreases |xs|
  {
    if xs != [] {
      assert (xs + ys)[1..] == xs[1..] + ys;
      VisibleEdgesAppend(xs[1..], ys, width, height);
    } else {
      assert xs + ys == ys;
    }
  }

  /** A single edge is kept exactly when it is visible. */
  lemma VisibleEdgesSingle(e: VoronoiEdge, width: int, height: int)
    ensures VisibleEdges([e], width, height) == if IsVisible(e, width, height) then [e] else []
  {
    assert [e][1..] == [];
  }

  /** The keys of a list of resolved edges. */
  function Keys(edges: seq<VoronoiEdge>, width: int, height: int): set<Rectangle>
    requires width > 0 && height > 0
    requires forall e :: e in edges ==> e.vertexA.At? && e.vertexB.At?
  {
    if edges == [] then {}
    else {GetEdgeSegmentId(edges[0], width, height)} + Keys(edges[1..], width, height)
  }

  /** Put `path` so that it starts at `start`, reversing it when its first point is not `start`. */
  function Oriented(path: seq<Point>, start: Point): (r: seq<Point>)
    requires |path| > 0
    ensures r == path || r == Reverse(path)
    ensures (path[0] == start || Last(path) == start) ==> r[0] == start
    ensures (path[0] == start || Last(path) == start) ==> Last(r) == (if path[0] == start then Last(path) else path[0])
  {
    if path[0] != start then Reverse(path) else path
  }

  /** Moving two coordinates of equal spread onto the smaller of two others covers exactly their span. */
  lemma TranslatedSpan(e0: int, e1: int, p0: int, p1: int, d: int)
    requires Abs(e0 - e1) == Abs(p0 - p1)
    requires d == Min(p0, p1) - Min(e0, e1)
    ensures Min(e0 + d, e1 + d) == Min(p0, p1) && Max(e0 + d, e1 + d) == Max(p0, p1)
  {
  }

  /** The path generated for a visible edge is stored under a key its own endpoints reproduce. */
  lemma JaggedSegmentMatchesKey(edge: VoronoiEdge, noise: Noise, width: int, height: int)
    requires width > 0 && height > 0
    requires edge.vertexA.At? && edge.vertexB.At?
    ensures var path := JaggedSegment(edge, noise);
      GetSegmentId(path[0], Last(path), width, height) == GetEdgeSegmentId(edge, width, height)
  {
  }
  /** A path of at least two points whose endpoints are as far apart as the key rectangle is wide and high. */
  predicate SpansKey(path: seq<Point>, key: Rectangle) {
    |path| >= 2 && key.width == Abs(path[0].x - Last(path).x) && key.height == Abs(path[0].y - Last(path).y)
  }

  /** Every path of the dictionary spans its key. */
  predicate AllSpan(m: map<Rectangle, seq<Point>>) {
    forall key :: key in m ==> SpansKey(m[key], key)
  }

  /** The dictionary after one step of the fill loop: the edge's path is added unless its key is present. */
  function Store(m: map<Rectangle, seq<Point>>, edge: VoronoiEdge, noise: Noise, width: int, height: int): map<Rectangle, seq<Point>>
    requires width > 0 && height > 0
    requires edge.vertexA.At? && edge.vertexB.At?
  {
    var key := GetEdgeSegmentId(edge, width, height);
    if key in m then m else m[key := JaggedSegment(edge, noise)]
  }

  /**
   * The whole fill loop on values: the dictionary after the edges are stored in
   * order, and the count of generated borders, starting from `generated`; the
   * j-th generated border uses `noise(j)`.
   */
  function FillFrom(m: map<Rectangle, seq<Point>>, edges: seq<VoronoiEdge>, noise: nat -> Noise, generated: nat, width: int, height: int): (r: (map<Rectangle, seq<Point>>, nat))
    requires width > 0 && height > 0
    requires forall e :: e in edges ==> e.vertexA.At? && e.vertexB.At?
    decreases |edges|
  {
    if edges == [] then (m, generated)
    else
      var key := GetEdgeSegmentId(edges[0], width, height);
      if key in m then FillFrom(m, edges[1..], noise, generated, width, height)
      else FillFrom(Store(m, edges[0], noise(generated), width, height), edges[1..], noise, generated + 1, width, height)
  }

  /** Storing keeps every path spanning its key. */
  lemma StoreKeepsSpans(m: map<Rectangle, seq<Point>>, edge: VoronoiEdge, noise: Noise, width: int, height: int)
    requires width > 0 && height > 0
    requires edge.vertexA.At? && edge.vertexB.At?
    requires AllSpan(m)
    ensures AllSpan(Store(m, edge, noise, width, height))
  {
    JaggedSegmentMatchesKey(edge, noise, width, height);
  }

  /** The fill loop adds exactly the edges' keys. */
  lemma {:induction false} FillFromKeys(m: map<Rectangle, seq<Point>>, edges: seq<VoronoiEdge>, noise: nat -> Noise, generated: nat, width: int, height: int)
    requires width > 0 && height > 0
    requires forall e :: e in edges ==> e.vertexA.At? && e.vertexB.At?
    ensures FillFrom(m, edges, noise, generated, width, height).0.Keys == m.Keys + Keys(edges, width, height)
    decreases |edges|
  {
    if edges != [] {
      var key := GetEdgeSegmentId(edges[0], width, height);
      if key in m {
        FillFromKeys(m, edges[1..], noise, generated, width, height);
      } else {
        var m' := Store(m, edges[0], noise(generated), width, height);
        assert m'.Keys == m.Keys + {key};
        FillFromKeys(m', edges[1..], noise, generated + 1, width, height);
      }
    }
  }

  /** The fill loop never replaces a stored path. */
  lemma {:induction false} FillFromKeepsEntries(m: map<Rectangle, seq<Point>>, edges: seq<VoronoiEdge>, noise: nat -> Noise, generated: nat, width: int, height: int)
    requires width > 0 && height > 0
    requires forall e :: e in edges ==> e.vertexA.At? && e.vertexB.At?
    ensures var r := FillFrom(m, edges, noise, generated, width, height).0;
      forall key :: key in m ==> key in r && r[key] == m[key]
    decreases |edges|
  {
    if edges != [] {
      var key := GetEdgeSegmentId(edges[0], width, height);
      if key in m {
        FillFromKeepsEntries(m, edges[1..], noise, generated, width, height);
      } else {
        var m' := Store(m, edges[0], noise(generated), width, height);
        assert forall k :: k in m ==> k in m' && m'[k] == m[k];
        FillFromKeepsEntries(m', edges[1..], noise, generated + 1, width, height);
      }
    }
  }

  /** The fill loop generates exactly one border per new key. */
  lemma {:induction false} FillFromCount(m: map<Rectangle, seq<Point>>, edges: seq<VoronoiEdge>, noise: nat -> Noise, generated: nat, width: int, height: int)
    requires width > 0 && height > 0
    requires forall e :: e in edges ==> e.vertexA.At? && e.vertexB.At?
    ensures var r := FillFrom(m, edges, noise, generated, width, height);
      r.1 >= generated && |r.0.Keys| == |m.Keys| + (r.1 - generated)
    decreases |edges|
  {
    if edges != [] {
      var key := GetEdgeSegmentId(edges[0], width, height);
      if key in m {
        FillFromCount(m, edges[1..], noise, generated, width, height);
      } else {
        var m' := Store(m, edges[0], noise(generated), width, height);
        assert m'.Keys == m.Keys + {key};
        FillFromCount(m', edges[1..], noise, generated + 1, width, height);
      }
    }
  }

  /** The fill loop keeps every path spanning its key. */
  lemma {:induction false} FillFromKeepsSpans(m: map<Rectangle, seq<Point>>, edges: seq<VoronoiEdge>, noise: nat -> Noise, generated: nat, width: int, height: int)
    requires width > 0 && height > 0
    requires forall e :: e in edges ==> e.vertexA.At? && e.vertexB.At?
    requires AllSpan(m)
    ensures AllSpan(FillFrom(m, edges, noise, generated, width, height).0)
    decreases |edges|
  {
    if edges != [] {
      var key := GetEdgeSegmentId(edges[0], width, height);
      if key in m {
        FillFromKeepsSpans(m, edges[1..], noise, generated, width, height);
      } else {
        StoreKeepsSpans(m, edges[0], noise(generated), width, height);
        FillFromKeepsSpans(Store(m, edges[0], noise(generated), width, height), edges[1..], noise, generated + 1, width, height);
      }
    }
  }

  /** `_indexToPath` with the map size the keys were computed for. */
  class BorderCache {
    var indexToPath: map<Rectangle, seq<Point>>
    const width: int
    const height: int

    /** Every cached path has at least two points, and its endpoints span exactly the extent of its key. */
    ghost predicate Valid()
      reads this
    {
      && width > 0 && height > 0
      && AllSpan(indexToPath)
    }

    constructor (width: int, height: int)
      requires width > 0 && height > 0
      ensures Valid()
      ensures this.width == width && this.height == height && indexToPath == map[]
    {
      this.width := width;
      this.height := height;
      indexToPath := map[];
    }

    /** `_indexToPath.Clear()` at the start of every run. */
    method Clear()
      requires Valid()
      modifies this
      ensures Valid()
      ensures indexToPath == map[]
    {
      indexToPath := map[];
    }

    /** One step of the fill loop: store a generated path under the edge's key unless the key is cached. */
    method StoreIfAbsent(edge: VoronoiEdge, noise: Noise) returns (added: bool)
      requires width > 0 && height > 0
      requires edge.vertexA.At? && edge.vertexB.At?
      modifies this
      ensures added <==> GetEdgeSegmentId(edge, width, height) !in old(indexToPath)
      ensures indexToPath == Store(old(indexToPath), edge, noise, width, height)
    {
      var segmentId := GetEdgeSegmentId(edge, width, height);
      added := segmentId !in indexToPath;
      if added {
        indexToPath := indexToPath[segmentId := JaggedSegment(edge, noise)];
      }
    }

    /**
     * The fill loop of `GenerateProvinces`: for each visible edge, a path is
     * generated and stored only when its key is not cached yet. `noise(j)`
     * stands for the subdivision of the j-th generated border. The result is
     * how many borders were generated, which is how many new keys there are.
     */
    method Fill(visible: seq<VoronoiEdge>, noise: nat -> Noise) returns (generated: nat)
      requires Valid()
      requires forall e :: e in visible ==> e.vertexA.At? && e.vertexB.At?
      modifies this
      ensures (indexToPath, generated) == FillFrom(old(indexToPath), visible, noise, 0, width, height)
      ensures Valid()
      ensures indexToPath.Keys == old(indexToPath).Keys + Keys(visible, width, height)
      ensures forall key :: key in old(indexToPath) ==> indexToPath[key] == old(indexToPath)[key]
      ensures |indexToPath.Keys| == |old(indexToPath).Keys| + generated
    {
      generated := 0;
      for i := 0 to |visible|
        invariant FillFrom(indexToPath, visible[i..], noise, generated, width, height) == FillFrom(old(indexToPath), visible, noise, 0, width, height)
      {
        assert visible[i..][1..] == visible[i + 1..];
        var added := StoreIfAbsent(visible[i], noise(generated));
        if added {
          generated := generated + 1;
        }
      }
      FillFromKeys(old(indexToPath), visible, noise, 0, width, height);
      FillFromKeepsEntries(old(indexToPath), visible, noise, 0, width, height);
      FillFromCount(old(indexToPath), visible, noise, 0, width, height);
      FillFromKeepsSpans(old(indexToPath), visible, noise, 0, width, height);
    }

    /**
     * `GetUnwrapedJaggedBorder`: the cached border of the segment p1-p2,
     * translated so that the bounding corner of its endpoints lands on the
     * bounding corner of p1 and p2; missing keys fail, as the dictionary
     * lookup does.
     */
    function GetUnwrapedJaggedBorder(p1: Point, p2: Point): (r: Option<seq<Point>>)
      requires Valid()
      reads this
      ensures r.None? <==> GetSegmentId(p1, p2, width, height) !in indexToPath
      ensures r.Some? ==> |r.value| == |indexToPath[GetSegmentId(p1, p2, width, height)]| >= 2
      ensures r.Some? ==>
        Min(r.value[0].x, Last(r.value).x) == Min(p1.x, p2.x) &&
        Max(r.value[0].x, Last(r.value).x) == Max(p1.x, p2.x) &&
        Min(r.value[0].y, Last(r.value).y) == Min(p1.y, p2.y) &&
        Max(r.value[0].y, Last(r.value).y) == Max(p1.y, p2.y)
    ensures r.Some? ==> var path := indexToPath[GetSegmentId(p1, p2, width, height)];
      forall i :: 0 <= i < |r.value| ==> r.value[i] == Translate(path[i], r.value[0].x - path[0].x, r.value[0].y - path[0].y)
    {
      var segmentId := GetSegmentId(p1, p2, width, height);
      if segmentId !in indexToPath then None
      else
        var edge := indexToPath[segmentId];
        var dx := Min(p1.x, p2.x) - Min(edge[0].x, Last(edge).x);
        var dy := Min(p1.y, p2.y) - Min(edge[0].y, Last(edge).y);
        var r := seq(|edge|, i requires 0 <= i < |edge| => Translate(edge[i], dx, dy));
        TranslatedSpan(edge[0].x, Last(edge).x, p1.x, p2.x, dx);
        TranslatedSpan(edge[0].y, Last(edge).y, p1.y, p2.y, dy);
        assert r[0] == Translate(edge[0], dx, dy) && Last(r) == Translate(Last(edge), dx, dy);
        Some(r)
    }

    /** The path stored under the key of the segment a-b, put by `Oriented` to start at a; absent keys give nothing. */
    function LookupOriented(a: Point, b: Point): (r: Option<seq<Point>>)
      requires Valid()
      reads this
      ensures r.None? <==> GetSegmentId(a, b, width, height) !in indexToPath
      ensures r.Some? ==> |r.value| >= 2
      ensures r.Some? ==> r.value == Oriented(indexToPath[GetSegmentId(a, b, width, height)], a)
    {
      var index := GetSegmentId(a, b, width, height);
      if index in indexToPath then Some(Oriented(indexToPath[index], a)) else None
    }

    /**
     * `GetJaggedPath`: the cached path of the segment a-b, else of its copies one
     * map width to the right, to the left, one map height down and up, in that
     * order, each oriented to start at the (translated) a; the straight segment
     * [a, b] when no copy is cached. The found path is not translated back.
     */
    function GetJaggedPath(a: Point, b: Point): (r: seq<Point>)
      requires Valid()
      reads this
      ensures |r| >= 2
    {
      var here := LookupOriented(a, b);
      if here.Some? then here.value
      else
        var right := LookupOriented(Translate(a, width, 0), Translate(b, width, 0));
        if right.Some? then right.value
        else
          var left := LookupOriented(Translate(a, -width, 0), Translate(b, -width, 0));
          if left.Some? then left.value
          else
            var down := LookupOriented(Translate(a, 0, height), Translate(b, 0, height));
            if down.Some? then down.value
            else
              var up := LookupOriented(Translate(a, 0, -height), Translate(b, 0, -height));
              if up.Some? then up.value
              else [a, b]
    }
  }

  /** A cached path found for a visible segment whose endpoints it joins runs from a to b whichever order they are given in. */
  lemma JaggedPathRunsFromAToB(cache: BorderCache, a: Point, b: Point)
    requires cache.Valid()
    requires GetSegmentId(a, b, cache.width, cache.height) in cache.indexToPath
    requires var path := cache.indexToPath[GetSegmentId(a, b, cache.width, cache.height)];
      (path[0] == a && Last(path) == b) || (path[0] == b && Last(path) == a)
    ensures var r := cache.GetJaggedPath(a, b); r[0] == a && Last(r) == b
  {
  }

  /** When neither the segment nor any of its four neighbouring copies is cached, the path is the straight segment. */
  lemma JaggedPathFallback(cache: BorderCache, a: Point, b: Point)
    requires cache.Valid()
    requires GetSegmentId(a, b, cache.width, cache.height) !in cache.indexToPath
    requires GetSegmentId(Translate(a, cache.width, 0), Translate(b, cache.width, 0), cache.width, cache.height) !in cache.indexToPath
    requires GetSegmentId(Translate(a, -cache.width, 0), Translate(b, -cache.width, 0), cache.width, cache.height) !in cache.indexToPath
    requires GetSegmentId(Translate(a, 0, cache.height), Translate(b, 0, cache.height), cache.width, cache.height) !in cache.indexToPath
    requires GetSegmentId(Translate(a, 0, -cache.height), Translate(b, 0, -cache.height), cache.width, cache.height) !in cache.indexToPath
    ensures cache.GetJaggedPath(a, b) == [a, b]
  {
  }

}
