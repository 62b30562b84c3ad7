/**
 * The edge loop of `GenerateProvinces`: every Voronoi edge links the
 * provinces of its two sites, in both directions, unless both sites lie
 * outside the map. A site outside the map is a ghost copy; it is wrapped
 * back onto the torus and looked up by exact position among the ordered
 * points, a miss giving province id 0. The same loop collects, for every
 * site inside the map, the Voronoi vertices of its cell.
 */
module Adjacency {
  import opened Wrappers
  import opened Geometry
  import Toroid

  /** `Map.Neighbours`: province id to its neighbour ids, each once, in the order they were added. */
  type Neighbours = map<int, seq<int>>

  /** `_provinces`: site to the set of vertices of its cell. */
  type Cells = map<PointF, set<Vertex>>

  /** `List.IndexOf`: the first position holding v, or -1. */
  function IndexOf(s: seq<PointF>, v: PointF): (r: int)
    ensures -1 <= r < |s|
    ensures r == -1 <==> v !in s
    ensures r >= 0 ==> s[r] == v && v !in s[..r]
  {
    if s == [] then -1
    else if s[0] == v then 0
    else
      var k := IndexOf(s[1..], v);
      assert k >= 0 ==> s[..k + 1] == [s[0]] + s[1..][..k];
      if k == -1 then -1 else k + 1
  }

  /** `OrderedPoints.IndexOf(v) + 1`: the province id of a site, 0 when it is not an ordered point. */
  function ProvinceId(ordered: seq<PointF>, v: PointF): (id: int)
    ensures 0 <= id <= |ordered|
    ensures id == 0 <==> v !in ordered
    ensures id > 0 ==> ordered[id - 1] == v
  {
    IndexOf(ordered, v) + 1
  }

  /**
   * A site in one of the eight tiles around the map that is a copy of an
   * ordered seed point resolves, through `WrapVector` and the exact lookup,
   * to that seed point's province.
   */
  lemma GhostSiteResolves(ordered: seq<PointF>, p: PointF, kx: int, ky: int, mapWidth: int, mapHeight: int)
    requires mapWidth > 0 && mapHeight > 0
    requires p in ordered && 0.0 <= p.x < mapWidth as real && 0.0 <= p.y < mapHeight as real
    requires -1 <= kx <= 1 && -1 <= ky <= 1
    ensures var copy := PointF(p.x + (kx * mapWidth) as real, p.y + (ky * mapHeight) as real);
      ProvinceId(ordered, Toroid.WrapVector(copy, mapWidth, mapHeight)) == ProvinceId(ordered, p) > 0
  {
    Toroid.GhostWrapsBack(p, kx, ky, mapWidth, mapHeight);
  }

  /** b is listed among the neighbours of a. */
  predicate Linked(m: Neighbours, a: int, b: int) {
    a in m && b in m[a]
  }

  /** No neighbour list holds an id twice (the collections are hash sets). */
  predicate Distinct(m: Neighbours) {
    forall a :: a in m ==> forall i, j :: 0 <= i < j < |m[a]| ==> m[a][i] != m[a][j]
  }

  /** `MultiValueDictionary.Add(key, value)` over hash-set collections. */
  function Add(m: Neighbours, key: int, value: int): (r: Neighbours)
    ensures r.Keys == m.Keys + {key}
    ensures forall a, b :: Linked(r, a, b) <==> Linked(m, a, b) || (a == key && b == value)
    ensures Distinct(m) ==> Distinct(r)
  {
    if key !in m then m[key := [value]]
    else if value in m[key] then m
    else m[key := m[key] + [value]]
  }

  /** The pair of `Add` calls of one branch: a lists b and b lists a. */
  function Link(m: Neighbours, a: int, b: int): (r: Neighbours)
    ensures r.Keys == m.Keys + {a, b}
    ensures forall x, y :: Linked(r, x, y) <==> Linked(m, x, y) || (x, y) == (a, b) || (x, y) == (b, a)
    ensures Distinct(m) ==> Distinct(r)
  {
    Add(Add(m, a, b), b, a)
  }

  /**
   * The province ids an edge links, or None when both its sites are out of
   * bounds. The three branches of the loop body are exclusive; an
   * out-of-bounds site is resolved through `WrapVector`.
   */
  function EdgeIds(e: VoronoiEdge, ordered: seq<PointF>, width: int, height: int, mapWidth: int, mapHeight: int): (r: Option<(int, int)>)
    requires mapWidth > 0 && mapHeight > 0
    ensures r.None? <==> Toroid.IsOutofBounds(height, width, e.leftData) && Toroid.IsOutofBounds(height, width, e.rightData)
    ensures r.Some? ==> 0 <= r.value.0 <= |ordered| && 0 <= r.value.1 <= |ordered|
    ensures r.Some? && !Toroid.IsOutofBounds(height, width, e.leftData) ==> r.value.0 == ProvinceId(ordered, e.leftData)
    ensures r.Some? && !Toroid.IsOutofBounds(height, width, e.rightData) ==> r.value.1 == ProvinceId(ordered, e.rightData)
    ensures r.Some? && Toroid.IsOutofBounds(height, width, e.leftData) ==>
      r.value.0 == ProvinceId(ordered, Toroid.WrapVector(e.leftData, mapWidth, mapHeight))
    ensures r.Some? && Toroid.IsOutofBounds(height, width, e.rightData) ==>
      r.value.1 == ProvinceId(ordered, Toroid.WrapVector(e.rightData, mapWidth, mapHeight))
  {
    var leftOut := Toroid.IsOutofBounds(height, width, e.leftData);
    var rightOut := Toroid.IsOutofBounds(height, width, e.rightData);
    if !leftOut && !rightOut then
      Some((ProvinceId(ordered, e.leftData), ProvinceId(ordered, e.rightData)))
    else if !leftOut && rightOut then
      Some((ProvinceId(ordered, e.leftData), ProvinceId(ordered, Toroid.WrapVector(e.rightData, mapWidth, mapHeight))))
    else if leftOut && !rightOut then
      Some((ProvinceId(ordered, Toroid.WrapVector(e.leftData, mapWidth, mapHeight)), ProvinceId(ordered, e.rightData)))
    else
      None
  }

  /** The neighbour table after the loop has run over `edges`, from an empty table. */
  function Adjacency(edges: seq<VoronoiEdge>, ordered: seq<PointF>, width: int, height: int, mapWidth: int, mapHeight: int): Neighbours
    requires mapWidth > 0 && mapHeight > 0
    decreases |edges|
  {
    if edges == [] then map[]
    else
      var m := Adjacency(edges[..|edges| - 1], ordered, width, height, mapWidth, mapHeight);
      match EdgeIds(edges[|edges| - 1], ordered, width, height, mapWidth, mapHeight)
      case None => m
      case Some(ids) => Link(m, ids.0, ids.1)
  }

  /** Edge e links a to b, in one direction or the other. */
  predicate EdgeLinks(e: VoronoiEdge, ordered: seq<PointF>, width: int, height: int, mapWidth: int, mapHeight: int, a: int, b: int)
    requires mapWidth > 0 && mapHeight > 0
  {
    var ids := EdgeIds(e, ordered, width, height, mapWidth, mapHeight);
    ids.Some? && ((a, b) == ids.value || (b, a) == ids.value)
  }

  /** The table lists exactly the links of the edges: b is a neighbour of a iff some edge links them. */
  lemma {:induction false} AdjacencyLinks(edges: seq<VoronoiEdge>, ordered: seq<PointF>, width: int, height: int, mapWidth: int, mapHeight: int, a: int, b: int)
    requires mapWidth > 0 && mapHeight > 0
    ensures Linked(Adjacency(edges, ordered, width, height, mapWidth, mapHeight), a, b) <==>
      exists i :: 0 <= i < |edges| && EdgeLinks(edges[i], ordered, width, height, mapWidth, mapHeight, a, b)
    decreases |edges|
  {
    if edges != [] {
      var init := edges[..|edges| - 1];
      AdjacencyLinks(init, ordered, width, height, mapWidth, mapHeight, a, b);
      forall i | 0 <= i < |init| ensures init[i] == edges[i] { }
    }
  }

  /** Every link goes both ways. */
  lemma AdjacencySymmetric(edges: seq<VoronoiEdge>, ordered: seq<PointF>, width: int, height: int, mapWidth: int, mapHeight: int, a: int, b: int)
    requires mapWidth > 0 && mapHeight > 0
    ensures Linked(Adjacency(edges, ordered, width, height, mapWidth, mapHeight), a, b) ==>
      Linked(Adjacency(edges, ordered, width, height, mapWidth, mapHeight), b, a)
  {
    AdjacencyLinks(edges, ordered, width, height, mapWidth, mapHeight, a, b);
    AdjacencyLinks(edges, ordered, width, height, mapWidth, mapHeight, b, a);
  }

  /** Every id in the table is a province id or the 0 of a missed lookup, and no list repeats an id. */
  lemma {:induction false} AdjacencyWellFormed(edges: seq<VoronoiEdge>, ordered: seq<PointF>, width: int, height: int, mapWidth: int, mapHeight: int)
    requires mapWidth > 0 && mapHeight > 0
    ensures var m := Adjacency(edges, ordered, width, height, mapWidth, mapHeight);
      && Distinct(m)
      && (forall a :: a in m ==> 0 <= a <= |ordered|)
      && (forall a, b :: Linked(m, a, b) ==> 0 <= b <= |ordered|)
    decreases |edges|
  {
    if edges != [] {
      AdjacencyWellFormed(edges[..|edges| - 1], ordered, width, height, mapWidth, mapHeight);
    }
  }

  /** An edge whose two sites are both out of bounds leaves the table as it was. */
  lemma OutsideEdgeAddsNothing(edges: seq<VoronoiEdge>, e: VoronoiEdge, ordered: seq<PointF>, width: int, height: int, mapWidth: int, mapHeight: int)
    requires mapWidth > 0 && mapHeight > 0
    requires Toroid.IsOutofBounds(height, width, e.leftData) && Toroid.IsOutofBounds(height, width, e.rightData)
    ensures Adjacency(edges + [e], ordered, width, height, mapWidth, mapHeight) == Adjacency(edges, ordered, width, height, mapWidth, mapHeight)
  {
    assert (edges + [e])[..|edges|] == edges;
  }

  /** `_provinces.Add(site, vertex)` over hash-set collections. */
  function AddVertex(cells: Cells, site: PointF, v: Vertex): (r: Cells)
    ensures r.Keys == cells.Keys + {site}
    ensures r[site] == (if site in cells then cells[site] else {}) + {v}
    ensures forall s :: s in cells && s != site ==> r[s] == cells[s]
  {
    cells[site := (if site in cells then cells[site] else {}) + {v}]
  }

  /** Both vertices of e, recorded under each of its sites that is inside the map. */
  function CellStep(cells: Cells, e: VoronoiEdge, width: int, height: int): Cells {
    var withLeft := if !Toroid.IsOutofBounds(height, width, e.leftData)
      then AddVertex(AddVertex(cells, e.leftData, e.vertexA), e.leftData, e.vertexB)
      else cells;
    if !Toroid.IsOutofBounds(height, width, e.rightData)
    then AddVertex(AddVertex(withLeft, e.rightData, e.vertexA), e.rightData, e.vertexB)
    else withLeft
  }

  /** The cells after the loop has run over `edges`, from an empty table. */
  function CellsOf(edges: seq<VoronoiEdge>, width: int, height: int): Cells
    decreases |edges|
  {
    if edges == [] then map[]
    else CellStep(CellsOf(edges[..|edges| - 1], width, height), edges[|edges| - 1], width, height)
  }

  /** e borders the cell of an in-bounds site s, and v is one of e's vertices. */
  predicate Borders(e: VoronoiEdge, width: int, height: int, s: PointF, v: Vertex) {
    (v == e.vertexA || v == e.vertexB) &&
    ((e.leftData == s && !Toroid.IsOutofBounds(height, width, s)) ||
     (e.rightData == s && !Toroid.IsOutofBounds(height, width, s)))
  }

  /** One edge: a site gains a cell, and a cell gains vertices, exactly through the edges bordering it. */
  lemma CellStepMeaning(cells: Cells, e: VoronoiEdge, width: int, height: int, s: PointF, v: Vertex)
    ensures s in CellStep(cells, e, width, height) <==> s in cells || Borders(e, width, height, s, e.vertexA)
    ensures s in CellStep(cells, e, width, height) ==>
      (v in CellStep(cells, e, width, height)[s] <==> (s in cells && v in cells[s]) || Borders(e, width, height, s, v))
  {
  }

  /** A site has a cell iff it is inside the map and on some edge; its cell holds exactly the vertices of those edges. */
  lemma {:induction false} CellsMeaning(edges: seq<VoronoiEdge>, width: int, height: int, s: PointF, v: Vertex)
    ensures s in CellsOf(edges, width, height) <==>
      exists i :: 0 <= i < |edges| && Borders(edges[i], width, height, s, edges[i].vertexA)
    ensures s in CellsOf(edges, width, height) ==>
      (v in CellsOf(edges, width, height)[s] <==> exists i :: 0 <= i < |edges| && Borders(edges[i], width, height, s, v))
    decreases |edges|
  {
    if edges != [] {
      var init := edges[..|edges| - 1];
      CellsMeaning(init, width, height, s, v);
      CellStepMeaning(CellsOf(init, width, height), edges[|edges| - 1], width, height, s, v);
      forall i | 0 <= i < |init| ensures init[i] == edges[i] { }
    }
  }

  /** One more edge: the tables of a prefix one edge longer. */
  lemma AdjacencyStep(edges: seq<VoronoiEdge>, i: int, ordered: seq<PointF>, width: int, height: int, mapWidth: int, mapHeight: int)
    requires mapWidth > 0 && mapHeight > 0 && 0 <= i < |edges|
    ensures Adjacency(edges[..i + 1], ordered, width, height, mapWidth, mapHeight) ==
      match EdgeIds(edges[i], ordered, width, height, mapWidth, mapHeight)
      case None => Adjacency(edges[..i], ordered, width, height, mapWidth, mapHeight)
      case Some(ids) => Link(Adjacency(edges[..i], ordered, width, height, mapWidth, mapHeight), ids.0, ids.1)
    ensures CellsOf(edges[..i + 1], width, height) == CellStep(CellsOf(edges[..i], width, height), edges[i], width, height)
  {
    assert edges[..i + 1][..i] == edges[..i];
  }

  /**
   * The edge loop of `GenerateProvinces`, run on the Voronoi edges: the
   * neighbour table and the cells it leaves, starting from empty ones.
   * The table is symmetric and holds ids in [0, |ordered|].
   */
  method BuildAdjacency(edges: seq<VoronoiEdge>, ordered: seq<PointF>, width: int, height: int, mapWidth: int, mapHeight: int)
    returns (neighbours: Neighbours, cells: Cells)
    requires mapWidth > 0 && mapHeight > 0
    ensures neighbours == Adjacency(edges, ordered, width, height, mapWidth, mapHeight)
    ensures cells == CellsOf(edges, width, height)
    ensures forall a, b :: Linked(neighbours, a, b) ==> Linked(neighbours, b, a)
    ensures Distinct(neighbours)
    ensures forall a, b :: Linked(neighbours, a, b) ==> 0 <= a <= |ordered| && 0 <= b <= |ordered|
  {
    neighbours := map[];
    cells := map[];
    for i := 0 to |edges|
      invariant neighbours == Adjacency(edges[..i], ordered, width, height, mapWidth, mapHeight)
      invariant cells == CellsOf(edges[..i], width, height)
    {
      var edge := edges[i];
      var leftOut := Toroid.IsOutofBounds(height, width, edge.leftData);
      var rightOut := Toroid.IsOutofBounds(height, width, edge.rightData);
      if !leftOut && !rightOut {
        var leftId := IndexOf(ordered, edge.leftData) + 1;
        var rightId := IndexOf(ordered, edge.rightData) + 1;
        neighbours := Add(Add(neighbours, leftId, rightId), rightId, leftId);
      }
      if !leftOut && rightOut {
        var leftId := IndexOf(ordered, edge.leftData) + 1;
        var rightId := IndexOf(ordered, Toroid.WrapVector(edge.rightData, mapWidth, mapHeight)) + 1;
        neighbours := Add(Add(neighbours, leftId, rightId), rightId, leftId);
      }
      if leftOut && !rightOut {
        var leftId := IndexOf(ordered, Toroid.WrapVector(edge.leftData, mapWidth, mapHeight)) + 1;
        var rightId := IndexOf(ordered, edge.rightData) + 1;
        neighbours := Add(Add(neighbours, leftId, rightId), rightId, leftId);
      }
      if !leftOut {
        cells := AddVertex(AddVertex(cells, edge.leftData, edge.vertexA), edge.leftData, edge.vertexB);
      }
      if !rightOut {
        cells := AddVertex(AddVertex(cells, edge.rightData, edge.vertexA), edge.rightData, edge.vertexB);
      }
      AdjacencyStep(edges, i, ordered, width, height, mapWidth, mapHeight);
    }
    assert edges[..|edges|] == edges;
    AdjacencyWellFormed(edges, ordered, width, height, mapWidth, mapHeight);
    forall a, b | Linked(neighbours, a, b) ensures Linked(neighbours, b, a) {
      AdjacencySymmetric(edges, ordered, width, height, mapWidth, mapHeight, a, b);
    }
  }
}
