# dom3mapgen in Dafny

A verified model of the core of dom3mapgen, a Windows Forms map generator for
the game Dominions 3. The generator throws random seed points onto a
wrap-around map and builds the Voronoi diagram of those points. Each cell
becomes a province, and neighbouring cells become neighbouring provinces. It
grows a sea from one random province, marks deep sea, forests, and small and
large provinces, and writes the result as a Dominions 3 `.map` file. A side
component reads a pretender god design out of a `.2h` save file by searching
for byte markers.

The model has one module per component of the program:

| module | what it models |
|---|---|
| `Wrappers` | `Option` and `Result`, the error paths of the program (an exception becomes a `Failure`) |
| `Random` | `System.Random` as a sequence of draws from [0, 1); `Next(n)` derived from one draw |
| `TerrainFeatures` | the `[Flags]` enum of province features as 32-bit vectors; `HasFlag`, `|=` and the `(int)` cast |
| `Formatting` | `String.Format` of integers (`{0}` and `{0:000000000}`) and ordinal string order |
| `Sorting` | LINQ `OrderBy` as a stable insertion sort by a total preorder |
| `Collections` | facts about duplicate-free id lists |
| `Geometry` | `Util.cs`: truncation and rounding of doubles, segment intersection, rectangle containment, the even-odd point-in-polygon test, `Segment` and the fuzzy `PointD` equality |
| `Toroid` | wrapping points and vectors onto the torus and the segment key (`GetSegmentId`) that identifies a border across the seams |
| `PointSampler` | `GeneratePoints` (rejection sampling, province order by text key, eight translated copies) and the tail of `ImprovePoints` |
| `BorderCache` | the cache of jagged border paths keyed by segment key, as a class over a map; `GetJaggedPath` and `GetUnwrapedJaggedBorder` |
| `Adjacency` | the province neighbour relation and the province cells built from the Voronoi edges in `GenerateProvinces` |
| `Terrain` | `GenerateTerrain`: reset, sea growth, deep sea, forests, small and large provinces |
| `MapFile` | the `Dominons3Map` class, the text of the `.map` file written by `GenerateMapToDisk`, and `SaveMapToDisk` |
| `Pretender` | `IndexOfSequence` and `LoadPretender` over the bytes of a save file |

Doubles are modelled as reals. A `(int)` cast is `Trunc` (toward zero), and
`Convert.ToInt32` is `Round` (half to even). A run of `System.Random` is a
sequence of draws given as a parameter. Running out of draws is a `Failure`
that stands for "this run needs more draws than given". That includes the
loops of the program that never end when too few provinces qualify. The
Voronoi diagram (an external library) is an input: a sequence of edges, each
with two vertices and the two sites it separates. File and bitmap output are
replaced by returning the lines of the `.map` file.

Where the description of the program and its code differ, the model follows
the code. One example: a Voronoi site outside the map is resolved to a
province by exact lookup of its wrapped position (`OrderedPoints.IndexOf`,
where a miss gives province id 0), not by the nearest seed point.

## Model

| member | source | states |
|---|---|---|
| TerrainFeatures.Bit | MapGenerator/TerrainFeatures.cs:5-31 | every feature has a bit position below 23 |
| TerrainFeatures.Value | MapGenerator/TerrainFeatures.cs:8-30 | the declared value of each member; ValueIsPowerOfTwo states it is one bit |
| TerrainFeatures.HasFlag | MapGenerator/Form1.cs:765 | `Enum.HasFlag`: all bits of the flag are set; WithSets, WithKeepsOthers and HasFlagCombine state how it reacts to `|=` |
| TerrainFeatures.With | MapGenerator/Form1.cs:765 | `value |= flag`; WithSets and WithKeepsOthers state its effect |
| TerrainFeatures.ToInt | MapGenerator/Dominons3Map.cs:92 | the `(int)` cast of a flags value; CombineFitsInt shows it is exact for any combination of features |
| TerrainFeatures.ValueIsPowerOfTwo | MapGenerator/TerrainFeatures.cs:8-30 | each declared value is exactly 1 shifted left by the feature's bit |
| TerrainFeatures.BitRoundTrip | MapGenerator/TerrainFeatures.cs:8-30 | the member with a feature's bit position is that feature |
| TerrainFeatures.BitIsInjective | MapGenerator/TerrainFeatures.cs:8-30 | two features share a bit position if and only if they are the same feature |
| TerrainFeatures.MembersDisjoint | MapGenerator/TerrainFeatures.cs:8-30 | the values of two different features have no bit in common |
| TerrainFeatures.WithSets | MapGenerator/Form1.cs:765 | after `value |= f`, `HasFlag(f)` holds |
| TerrainFeatures.WithKeepsOthers | MapGenerator/Form1.cs:798 | `value |= f` leaves `HasFlag(g)` unchanged for every other feature g |
| TerrainFeatures.HasFlagCombine | MapGenerator/TerrainFeatures.cs:5-31 | the OR of a list of features has flag g if and only if g is in the list |
| TerrainFeatures.CombineFitsInt | MapGenerator/Dominons3Map.cs:92 | any combination of features uses only the low 23 bits, so `(int)` of it is in [0, 2^23) |
| TerrainFeatures.AllFeaturesCombine | MapGenerator/TerrainFeatures.cs:8-30 | all 23 features together are 0x7FFFFF, also as an int |
| Random.Next | MapGenerator/Form1.cs:764 | `Random.Next(n)` is in [0, n) for n > 0 and is 0 for n = 0 |
| Formatting.Format9Small | MapGenerator/Form1.cs:116 | `{0:000000000}` of a value in [0, 10^9) is that value padded with zeros to nine digits |
| Formatting.PadOrder | MapGenerator/Form1.cs:116 | zero-padded numbers of equal width compare as strings exactly as the numbers compare, and are equal exactly when the numbers are |
| Sorting.Insert | MapGenerator/Form1.cs:115-117 | inserting one element gives one more element and the same multiset plus that element |
| Sorting.SortBy | MapGenerator/Form1.cs:115-117 | `OrderBy` returns a permutation of its input |
| Sorting.KeyClass | MapGenerator/Form1.cs:948 | the elements of a list whose key equals a given key, in list order; each has that key |
| Sorting.InsertKeyClass | MapGenerator/Form1.cs:948 | inserting an element appends it to its own key class and leaves every other key class unchanged |
| Sorting.SortByStable | MapGenerator/Form1.cs:948 | `OrderBy` is stable: the elements of every key class come out in their input order, so ties in area keep ascending province order |
| Sorting.InsertKeepsSorted | MapGenerator/Form1.cs:115-117 | inserting into a sorted list keeps it sorted under a total preorder |
| Sorting.SortBySorted | MapGenerator/Form1.cs:115-117 | `OrderBy` output is sorted under any total preorder |
| Sorting.PrefixBeforeSuffix | MapGenerator/Form1.cs:948-949 | in a sorted list, every element taken by `Take(k)` is ordered before every element left by `Skip(m)` when k <= m |
| Geometry.Trunc | MapGenerator/Util.cs:133-134 | the `(int)` cast rounds toward zero: floor for non-negative values, ceiling for negative ones |
| Geometry.Round | MapGenerator/Util.cs:115-118 | `Convert.ToInt32` gives the nearest integer, and an even one on a tie |
| Geometry.ParallelNeverIntersects | MapGenerator/Util.cs:160-168 | segments with a zero denominator (parallel) never intersect |
| Geometry.LineIntersectsLine | MapGenerator/Util.cs:160-181 | the segment test; LineIntersectsLineMeaning states it is exactly a common point of non-parallel segments |
| Geometry.IntersectionIsCommonPoint | MapGenerator/Util.cs:160-181 | when `LineIntersectsLine` holds, the segments are not parallel and share a point at parameters r, s in [0, 1] |
| Geometry.CommonPointIntersects | MapGenerator/Util.cs:160-181 | non-parallel segments that share a point at parameters in [0, 1] make `LineIntersectsLine` true |
| Geometry.LineIntersectsLineMeaning | MapGenerator/Util.cs:160-181 | `LineIntersectsLine` holds if and only if the segments are not parallel and share a point |
| Geometry.LineIntersectsLineReversed | MapGenerator/Util.cs:160-181 | swapping the endpoints of the first segment does not change the answer |
| Geometry.IntersectsLineSymmetric | MapGenerator/Util.cs:137-143 | whether a segment crosses a rectangle's border does not depend on the order of its endpoints |
| Geometry.IntersectsLine | MapGenerator/Util.cs:137-143 | `Rectangle.IntersectsLine`: the segment crosses one of the four sides; IntersectsLineSymmetric states its symmetry |
| Geometry.TruncContainedBounds | MapGenerator/Util.cs:131-135 | a point whose truncation the rectangle contains lies strictly between one unit before the rectangle's left or top edge and its far edge |
| Geometry.ContainsLineNonNegative | MapGenerator/Util.cs:131-135 | for non-negative coordinates, `ContainsLine` holds exactly when both endpoints lie in the half-open rectangle |
| Geometry.ToPoint | MapGenerator/Util.cs:155-158 | `PointF.ToPoint` rounds each coordinate with `Convert.ToInt32`: every coordinate moves by at most one half |
| Geometry.ContainsEdge | MapGenerator/Util.cs:126-129 | `Rectangle.ContainsEdge` is `ContainsLine` on the edge's two vertices |
| Geometry.IntersectsEdge | MapGenerator/Util.cs:150-153 | `Rectangle.IntersectsEdge` is `IntersectsLine` on the edge's two vertices |
| Geometry.ContainsLine | MapGenerator/Util.cs:131-135 | `Rectangle.ContainsLine`: both truncated endpoints lie in the rectangle; ContainsLineNonNegative and ContainsLineAdmitsNegativeFraction state what it accepts |
| Geometry.ContainsLineAdmitsNegativeFraction | MapGenerator/Util.cs:131-135 | because `(int)` truncates toward zero, a point at (-0.5, -0.5) counts as inside the map rectangle |
| Geometry.PointInPolygon | MapGenerator/Util.cs:70-102 | fewer than three vertices give false; otherwise the answer is the parity of the toggling edges on the walk that starts from the point built at line 79 |
| Geometry.CrossingsStep | MapGenerator/Util.cs:81-100 | one more vertex adds exactly that edge's toggle to the crossing count |
| Geometry.CrossingsAppend | MapGenerator/Util.cs:81-100 | the crossings of a concatenated walk are the crossings of its parts, the second part starting where the first ends |
| Geometry.InsideClosedRotation | MapGenerator/Util.cs:70-102 | with the walk started from the true last vertex, the crossing count and the answer do not depend on which vertex the polygon list starts with |
| Geometry.TriangleInteriorMissed | MapGenerator/Util.cs:79 | for the triangle (0,0), (10,0), (5,10), the walk as written reports the interior point (5,5) outside, while the closed walk reports it inside |
| Geometry.SegmentEqualsMeaning | MapGenerator/Util.cs:257-260 | `Segment.Equals` holds exactly when the endpoints match pairwise or this start equals the other's end |
| Geometry.Segment.IsInBounds | MapGenerator/Util.cs:252-255 | a segment is in bounds when it crosses the border of its bounds rectangle (`IntersectsSegment`) |
| Geometry.Segment.Equals | MapGenerator/Util.cs:257-260 | the segment's `Equals` is `SegmentEquals` on the two segments' endpoints, as written |
| Geometry.SegmentEquals | MapGenerator/Util.cs:257-260 | `Segment.Equals` on endpoints as written; SegmentEqualsMeaning and SegmentEqualsTooWide state what it accepts |
| Geometry.SegmentEqualsAsymmetric | MapGenerator/Util.cs:257-260 | `Segment.Equals` is not symmetric, even on two segments whose endpoints are in the constructor's truncated order |
| Geometry.SameEndpointsIsEquivalence | MapGenerator/Util.cs:257-260 | equality of endpoint pairs in either order is reflexive, symmetric and transitive, and implies the written `Equals` |
| Geometry.SegmentEqualsTooWide | MapGenerator/Util.cs:259 | the written `Equals` accepts two constructor-ordered segments that share only one endpoint |
| Geometry.Segment.constructor | MapGenerator/Util.cs:226-250 | the segment keeps the edge's sites and bounds, its endpoints are the edge's vertices in some order, and start precedes end by truncated (x, y) |
| Geometry.PointDEqualityLaws | MapGenerator/Util.cs:309-316 | `PointD ==` is reflexive and symmetric, and `!=` is its negation |
| Geometry.PointDEquals | MapGenerator/Util.cs:309-312 | `PointD ==`: both coordinates within 0.1; PointDEqualityLaws and PointDEqualsNotTransitive state its laws |
| Geometry.PointDNotEquals | MapGenerator/Util.cs:313-316 | `PointD !=`: the negation of `==` |
| Geometry.PointDEqualsNotTransitive | MapGenerator/Util.cs:309-312 | `PointD ==` is not transitive: (0, 0) == (0.06, 0) == (0.12, 0), but (0, 0) != (0.12, 0) |
| Toroid.CsRem | MapGenerator/Form1.cs:187 | C#'s `%` is congruent to the mathematical remainder, in [0, b) for a >= 0 and in (-b, 0] for a < 0 |
| Toroid.WrapPoint | MapGenerator/Form1.cs:185-188 | the wrapped point is congruent to the point on each axis, and lies inside the map when the point is at most one map size to the left of or above it |
| Toroid.RealRem | MapGenerator/Form1.cs:180-181 | the double `%` differs from its operand by a whole multiple of the divisor, lies in [0, b) for a non-negative operand and in (-b, 0] for a negative one |
| Toroid.WrapVector | MapGenerator/Form1.cs:177-183 | on each axis the wrapped vector differs from the vector by a whole multiple of the map size, and lies in [0, size) whenever the vector is at least minus one map size on it |
| Toroid.GhostWrapsBack | MapGenerator/Form1.cs:177-183 | a copy of a map point in any of the eight neighbouring tiles wraps back onto exactly that point |
| Toroid.GhostPointWrapsBack | MapGenerator/Form1.cs:185-188 | the same for whole points and `WrapPoint` |
| Toroid.FarEdgesInBounds | MapGenerator/Form1.cs:416-419 | points on the far (right or bottom) edge of the map are not out of bounds, because the test is strict |
| Toroid.IsOutofBounds | MapGenerator/Form1.cs:416-419 | the out-of-bounds test, strict on all four sides; FarEdgesInBounds and WrapVectorInBounds state what it accepts |
| Toroid.WrapVectorInBounds | MapGenerator/Form1.cs:177-183 | a wrapped vector is never out of bounds |
| Toroid.WrapStage | MapGenerator/Form1.cs:351-357 | the wrapping step moves both endpoints by the same whole multiple of the map size |
| Toroid.RightSeamStage | MapGenerator/Form1.cs:359-363 | the right-seam step moves both endpoints left by the map width or not at all |
| Toroid.BottomSeamStage | MapGenerator/Form1.cs:365-369 | the bottom-seam step moves both endpoints up by the map height or not at all |
| Toroid.GetSegmentId | MapGenerator/Form1.cs:349-372 | the key's size is the segment's extent, and its corner is congruent, modulo the map size, to the segment's top-left corner |
| Toroid.SegmentIdResidue | MapGenerator/Form1.cs:349-372 | after the three steps, the top-left corner is still congruent to the original one |
| Toroid.GetSegmentIdF | MapGenerator/Form1.cs:344-347 | the key of two float points is the key of their rounded points; GetSegmentId states what that key is |
| Toroid.GetEdgeSegmentId | MapGenerator/Form1.cs:374-377 | the key of a resolved Voronoi edge is the key of its two vertices; JaggedSegmentMatchesKey ties it to the stored path |
| Toroid.SegmentIdSymmetric | MapGenerator/Form1.cs:349-372 | for a segment that shows on the map, the key does not depend on the order of its endpoints |
| PointSampler.CandidateInMargin | MapGenerator/Form1.cs:105-106 | every candidate point lies at least 10 units inside the map |
| PointSampler.SampleFromProperties | MapGenerator/Form1.cs:103-113 | a successful sampling run yields exactly the requested number of points, extends the points already kept, keeps every two points at least 30 apart, and keeps them inside the margins |
| PointSampler.SamplePoints | MapGenerator/Form1.cs:101-113 | the sampling loop computes the sampling specification; on success there are `points` points, pairwise at least 30 apart, inside the margins |
| PointSampler.SampleStep | MapGenerator/Form1.cs:103-113 | one pass of the loop uses two draws and keeps the candidate exactly when it is not rejected |
| PointSampler.KeyLeIsTotalPreorder | MapGenerator/Form1.cs:115-117 | comparing the text keys is a total preorder |
| PointSampler.OrderPoints | MapGenerator/Form1.cs:115-117 | the province order is a permutation of the points, sorted by key |
| PointSampler.KeyIsPadded | MapGenerator/Form1.cs:116 | a key in range is the two nine-digit zero-padded fields |
| PointSampler.Key | MapGenerator/Form1.cs:116 | the text key of a point; KeyIsPadded and KeyOrder state its shape and its order |
| PointSampler.KeyOrder | MapGenerator/Form1.cs:116 | for keys in range, the key order is: smaller `height - (int)y` first, then smaller `(int)x` |
| PointSampler.PaddedPairOrder | MapGenerator/Form1.cs:116 | two nine-digit pairs compare as strings exactly as the number pairs compare lexicographically |
| PointSampler.MarginKeyInRange | MapGenerator/Form1.cs:105-106 | a sampled point of a map smaller than 10^9 has both key fields in range |
| PointSampler.OrderedByRowThenColumn | MapGenerator/Form1.cs:115-117 | provinces are numbered bottom row first by truncated y (highest y first), then left to right by truncated x |
| PointSampler.OffsetOfBlock | MapGenerator/Form1.cs:119-123 | the nested loops visit the eight offsets other than (0, 0) in a fixed order, each exactly once |
| PointSampler.AppendGhosts | MapGenerator/Form1.cs:119-130 | eight blocks of `count` copies are appended after the list, copy i of block b being entry i translated by the b-th offset times the map size; with an empty list and count > 0 it fails, as the indexer throws |
| PointSampler.AppendTile | MapGenerator/Form1.cs:121-129 | one more offset block is appended, keeping all earlier blocks |
| PointSampler.AppendBlock | MapGenerator/Form1.cs:124-128 | the inner loop appends `count` entries, entry i being list entry i moved by the offset |
| PointSampler.GhostsOfOriginals | MapGenerator/Form1.cs:119-130 | when count is at most the list length, every copy is a translated original point |
| PointSampler.GeneratePoints | MapGenerator/Form1.cs:95-131 | fails only when sampling runs out of draws; otherwise the point list is the 9 x points points, the sampled ones first and their eight translated copies after, and the province order is the sampled points sorted by key |
| PointSampler.ImprovePointsTail | MapGenerator/Form1.cs:455-481 | the new province order is the wrapped new points sorted by key, and the point list is the new points followed by eight blocks of translated copies |
| BorderCache.Interpolate | MapGenerator/Form1.cs:685-696 | position 0 gives the second point and position 1 gives the first |
| BorderCache.JaggedSegment | MapGenerator/Form1.cs:379-395 | the jagged path runs from the rounded vertex A to the rounded vertex B, through the rounded midpoint twice, with four more points than the two noisy halves; after A come the points of the first noisy half in order, and before B the points of the second half reversed |
| BorderCache.ReverseAppend | MapGenerator/Form1.cs:392 | reversing a concatenation reverses each part and swaps them, which places the reversed second half at the end of the path |
| BorderCache.VisibleEdges | MapGenerator/Form1.cs:244-247 | the visible edges are exactly the input edges with both vertices known that the map contains (`ContainsEdge`) or crosses (`IntersectsEdge`), line 246; VisibleEdgesAppend and VisibleEdgesSingle state that order and repetitions are kept |
| BorderCache.VisibleEdgesAppend | MapGenerator/Form1.cs:244-247 | the filter distributes over concatenation, so the visible edges keep the order of the graph's edge list |
| BorderCache.VisibleEdgesSingle | MapGenerator/Form1.cs:246 | one edge is kept, once, exactly when it passes the test of line 246, and dropped otherwise |
| BorderCache.Oriented | MapGenerator/Form1.cs:1011 | the path, or its reverse, so that it starts at the given point whenever either end is that point |
| BorderCache.Reverse | MapGenerator/Form1.cs:392 | `Reverse()`: same length, element i is element n-1-i of the input |
| BorderCache.JaggedSegmentMatchesKey | MapGenerator/Form1.cs:251-254 | the stored path's endpoints have the same key as the edge it was made for |
| BorderCache.StoreKeepsSpans | MapGenerator/Form1.cs:253-254 | storing a path keeps every cached path spanning exactly the extent of its key |
| BorderCache.FillFromKeys | MapGenerator/Form1.cs:249-255 | after the fill, the keys are the old keys plus the keys of all visible edges |
| BorderCache.FillFromKeepsEntries | MapGenerator/Form1.cs:253 | an entry already cached is never replaced |
| BorderCache.FillFromCount | MapGenerator/Form1.cs:253-254 | the number of keys grows by exactly the number of paths generated |
| BorderCache.FillFromKeepsSpans | MapGenerator/Form1.cs:249-255 | the fill keeps every cached path spanning its key |
| BorderCache.BorderCache.constructor | MapGenerator/Form1.cs:209 | a new cache is empty and valid |
| BorderCache.BorderCache.Clear | MapGenerator/Form1.cs:237 | the cache becomes empty |
| BorderCache.BorderCache.StoreIfAbsent | MapGenerator/Form1.cs:251-254 | a path is added exactly when the edge's key is absent, and nothing else changes |
| BorderCache.BorderCache.Fill | MapGenerator/Form1.cs:249-255 | the loop computes the fill specification: new keys are exactly the visible edges' keys, old entries stay, the key count grows by the paths generated, and the cache stays valid |
| BorderCache.BorderCache.GetUnwrapedJaggedBorder | MapGenerator/Form1.cs:1135-1144 | a missing key is the `KeyNotFoundException` (None); otherwise the cached path with every point moved by one and the same vector, its length kept and its endpoints spanning exactly the extent of (p1, p2) |
| BorderCache.BorderCache.LookupOriented | MapGenerator/Form1.cs:1006-1012 | finds a path exactly when the key of (a, b) is cached, and that path is the cached one put by Oriented to start at a |
| BorderCache.BorderCache.GetJaggedPath | MapGenerator/Form1.cs:1004-1051 | the path always has at least two points |
| BorderCache.JaggedPathRunsFromAToB | MapGenerator/Form1.cs:1006-1012 | when the cached path for (a, b) ends at a and at b, the returned path starts at a and ends at b |
| BorderCache.JaggedPathFallback | MapGenerator/Form1.cs:1014-1050 | when none of the five translated keys is cached, the path is the straight [a, b] |
| Adjacency.IndexOf | MapGenerator/Form1.cs:264 | `List.IndexOf` gives -1 exactly when the point is absent, and otherwise its first position |
| Adjacency.ProvinceId | MapGenerator/Form1.cs:264-265 | the province id is 0 for a point not in the order, else its 1-based position |
| Adjacency.Add | MapGenerator/Form1.cs:267-268 | `MultiValueDictionary.Add` adds one link and the key, changes nothing else, and keeps the lists duplicate-free |
| Adjacency.Link | MapGenerator/Form1.cs:267-268 | the two `Add` calls link a to b and b to a, and change nothing else |
| Adjacency.EdgeIds | MapGenerator/Form1.cs:257-289 | an edge links provinces unless both sites are out of bounds; a site inside gives its own id, a site outside gives the id of its wrapped position |
| Adjacency.GhostSiteResolves | MapGenerator/Form1.cs:271-289 | a site that is a copy of a seed point in a neighbouring tile resolves to that seed point's own province id |
| Adjacency.AdjacencyLinks | MapGenerator/Form1.cs:257-289 | a is linked to b exactly when some edge links a and b in either direction |
| Adjacency.AdjacencySymmetric | MapGenerator/Form1.cs:267-288 | the neighbour relation is symmetric |
| Adjacency.AdjacencyWellFormed | MapGenerator/Form1.cs:257-289 | neighbour lists have no duplicates and all ids are in [0, province count] |
| Adjacency.OutsideEdgeAddsNothing | MapGenerator/Form1.cs:259-289 | an edge with both sites out of bounds adds no neighbours |
| Adjacency.AddVertex | MapGenerator/Form1.cs:293-299 | adding a vertex to a site's set adds the site if new, adds the vertex to that set, and leaves other sites alone |
| Adjacency.CellStepMeaning | MapGenerator/Form1.cs:291-300 | one edge adds both of its vertices to the cell of each in-bounds site |
| Adjacency.CellsMeaning | MapGenerator/Form1.cs:291-300 | a site has a cell exactly when an edge borders it in bounds, and the cell's vertices are exactly the vertices of such edges |
| Adjacency.AdjacencyStep | MapGenerator/Form1.cs:257-301 | one pass of the edge loop adds that edge's links and cell vertices |
| Adjacency.BuildAdjacency | MapGenerator/Form1.cs:231-301 | the edge loop computes the neighbour and cell specifications; neighbours are symmetric, duplicate-free, with ids in [0, province count] |
| Terrain.ResetTerrain | MapGenerator/Form1.cs:757-760 | provinces 1..count get 0, other entries stay |
| Terrain.CandidatesMembers | MapGenerator/Form1.cs:777-793 | the candidates are exactly the listed neighbours that are known and not sea |
| Terrain.CandidatesOf | MapGenerator/Form1.cs:777-793 | `potentialPoints`: each non-sea neighbour repeated by its weight, failing on a missing entry; CandidatesMembers and CandidatesWeights state its members and multiplicities |
| Terrain.CandidatesWeights | MapGenerator/Form1.cs:777-793 | each such neighbour appears once for itself and once more for each of its sea neighbours; other ids never appear |
| Terrain.Candidates | MapGenerator/Form1.cs:777-793 | the candidate loop computes the candidate specification, and fails with a missing key when the current province has no neighbour list |
| Terrain.FailureStays | MapGenerator/Form1.cs:777-793 | once building the candidates fails on a prefix, the whole list fails with a missing key |
| Terrain.FailureIsMissingKey | MapGenerator/Form1.cs:781-787 | the only failure of the candidate loop is a missing dictionary key |
| Terrain.Jump | MapGenerator/Form1.cs:769-775 | on a map of at most 75 provinces nothing moves and no draw is used; otherwise a draw of at least 75/count uses one draw and stays, and a taken jump uses three draws and lands on a neighbour of a neighbour of the current province |
| Terrain.SeaStep | MapGenerator/Form1.cs:769-806 | each pass of the sea loop uses at least one draw |
| Terrain.WithSeaIsSea | MapGenerator/Form1.cs:798 | `|= Sea` makes a province sea |
| Terrain.SeaStepKeepsInv | MapGenerator/Form1.cs:794-806 | a pass either turns one more non-sea province into sea and counts it, or only moves the current province; a province that is added is a neighbour of the province the jump landed on, and becomes the current one; the table is always the start table with Sea on the first province and on the added ones |
| Terrain.SeaLoopKeepsInv | MapGenerator/Form1.cs:767-807 | a finished sea loop has added exactly the target number of distinct new sea provinces, and the invariant holds |
| Terrain.GrowSeaProperties | MapGenerator/Form1.cs:762-807 | the first sea province is `Next(count) + 1`, and `seaSetting - 1` more distinct provinces that were not sea became sea |
| Terrain.SeaProvinceCount | MapGenerator/Form1.cs:762-807 | starting from a table without sea, the sea provinces are the first one and the added ones, `seaSetting` of them (at least one) |
| Terrain.EmptyFallbackFails | MapGenerator/Form1.cs:803-806 | on a small map with no sea points yet and no candidate, the pass fails with an index out of range |
| Terrain.GrowSea | MapGenerator/Form1.cs:762-807 | the sea-growth loop computes the sea-growth specification, with `seaSetting - 1` added provinces and the invariant |
| Terrain.AllSea | MapGenerator/Form1.cs:811 | `All(...HasFlag(Sea))` is true exactly when every listed id is sea |
| Terrain.AllSeaSameSea | MapGenerator/Form1.cs:809-815 | the test depends only on the Sea flags, so adding Deep during the pass does not change later tests |
| Terrain.DeepResultMeaning | MapGenerator/Form1.cs:809-815 | a province gets Deep exactly when it is a sea point and all its neighbours are sea; other flags are kept |
| Terrain.DeepResult | MapGenerator/Form1.cs:809-815 | the table after the deep-sea pass keeps its keys; DeepResultMeaning states each entry |
| Terrain.MarkDeep | MapGenerator/Form1.cs:809-815 | the deep pass fails exactly when some sea point lacks a neighbour list or flags; otherwise it gives the deep specification |
| Terrain.DeepKeepsSea | MapGenerator/Form1.cs:809-815 | the deep pass changes no province's Sea flag |
| Terrain.DeepIsSurroundedSea | MapGenerator/Form1.cs:809-815 | a province gets Deep if and only if it is a sea point surrounded by sea; a deep province is sea and all its neighbours are sea |
| Terrain.GrownAreSea | MapGenerator/Form1.cs:765 | after sea growth the first province and every added one are sea |
| Terrain.PlaceForests | MapGenerator/Form1.cs:905-939 | a successful run places exactly `forestCount` forests on distinct provinces in 1..count that were neither sea nor forest, changes only those, and shows that at least that many provinces were eligible |
| Terrain.Ids | MapGenerator/Form1.cs:942-943 | `Enumerable.Range(1, count)` is 1, 2, ..., count |
| Terrain.ByAreaIds | MapGenerator/Form1.cs:942-946 | the provinces sorted by area are the ids 1..count, each once |
| Terrain.SizeBucketsShape | MapGenerator/Form1.cs:948-949 | `count / 4` small and `count - count * 3 / 4` large provinces, all in 1..count, with no province in both |
| Terrain.SmallBeforeLarge | MapGenerator/Form1.cs:945-949 | no small province has a larger area than a large one |
| Terrain.MarkAll | MapGenerator/Form1.cs:951-955 | marking keeps the key set and can only fail with a missing key |
| Terrain.MarkAllFails | MapGenerator/Form1.cs:951-955 | marking fails exactly when a listed id is absent from the table |
| Terrain.MarkAllValues | MapGenerator/Form1.cs:951-955 | after successful marking the listed provinces have the flag added and all others are unchanged |
| Terrain.MarkEach | MapGenerator/Form1.cs:951-955 | the marking loop computes the marking specification |
| Terrain.SizeBuckets | MapGenerator/Form1.cs:942-955 | small provinces get Small, large ones get Large, others stay; it fails exactly when one of them has no entry |
| MapFile.Header | MapGenerator/Dominons3Map.cs:80-86 | the header is the title, image file, `#wraparound` exactly when the map wraps, description and a blank line |
| MapFile.Dominions3Map.constructor | MapGenerator/Dominons3Map.cs:54-68 | a new map has empty dictionaries and no image |
| MapFile.Dominions3Map.Height | MapGenerator/Dominons3Map.cs:22-25 | 0 without an image, else the image height |
| MapFile.Dominions3Map.Width | MapGenerator/Dominons3Map.cs:27-30 | 0 without an image, else the image width |
| MapFile.Dominions3Map.GenerateMapToDisk | MapGenerator/Dominons3Map.cs:70-114 | fails exactly when a terrain or neighbour entry the writer reads is missing; otherwise the lines written are the rendered header, terrain, neighbour and nostart sections |
| MapFile.Dominions3Map.WriteHeader | MapGenerator/Dominons3Map.cs:80-86 | writes exactly the header lines |
| MapFile.Dominions3Map.WriteTerrain | MapGenerator/Dominons3Map.cs:88-93 | succeeds exactly when every province 1..count has a terrain entry, and then appends the terrain section |
| MapFile.Dominions3Map.WriteProvince | MapGenerator/Dominons3Map.cs:90-92 | succeeds exactly when the province has a terrain entry, and appends its optional `#landname` and its `#terrain` line |
| MapFile.Dominions3Map.WriteNeighbours | MapGenerator/Dominons3Map.cs:95-104 | appends exactly the neighbour section |
| MapFile.Dominions3Map.WriteNoStarts | MapGenerator/Dominons3Map.cs:106-111 | succeeds exactly when every neighbour of every province has a terrain entry, and then appends the nostart section |
| MapFile.WriteAbove | MapGenerator/Dominons3Map.cs:100-103 | appends one `#neighbour p q` line per listed neighbour above p, in list order |
| MapFile.CountSameSea | MapGenerator/Dominons3Map.cs:109 | succeeds exactly when all listed neighbours have terrain, and then counts those whose Sea flag equals the province's |
| MapFile.Emit | MapGenerator/Dominons3Map.cs:119-122 | appends the rendered line |
| MapFile.Render | MapGenerator/Dominons3Map.cs:80-109 | the text of each `WriteFormatLine` format; the section lemmas state which lines are written |
| MapFile.TerrainSectionRange | MapGenerator/Dominons3Map.cs:88-93 | every terrain-section line is a landname or terrain line for a province in 1..k |
| MapFile.TerrainLines | MapGenerator/Dominons3Map.cs:88-93 | `#terrain p v` is written exactly for p in 1..k, with v the province's flags |
| MapFile.LandNameLines | MapGenerator/Dominons3Map.cs:90-91 | `#landname p n` is written exactly for the named provinces in 1..k, with their names |
| MapFile.TerrainAscending | MapGenerator/Dominons3Map.cs:88-93 | terrain lines appear in strictly ascending province order, so each province once |
| MapFile.LandNameBeforeTerrain | MapGenerator/Dominons3Map.cs:90-92 | each landname line is directly followed by the terrain line of the same province |
| MapFile.AboveMeaning | MapGenerator/Dominons3Map.cs:100-103 | the lines for p are neighbour lines of p, naming exactly the listed neighbours above p, without repeats when the list has none |
| MapFile.NeighbourSectionRange | MapGenerator/Dominons3Map.cs:95-104 | every line of the neighbour section is a neighbour line of a province in 1..k, in ascending order of the first province |
| MapFile.NeighbourLines | MapGenerator/Dominons3Map.cs:95-104 | `#neighbour p q` is written exactly when p is in 1..k, p < q and q is a neighbour of p |
| MapFile.NeighbourNoRepeats | MapGenerator/Dominons3Map.cs:95-104 | with duplicate-free neighbour lists, no neighbour line is written twice |
| MapFile.PairWrittenOnce | MapGenerator/Dominons3Map.cs:95-104 | with symmetric, duplicate-free neighbours, each linked pair a < b in 1..k is written once, as `a b` and never as `b a` |
| MapFile.NoStartLines | MapGenerator/Dominons3Map.cs:106-111 | `#nostart p` is written exactly for the provinces in 1..k without a neighbour list or with at most three neighbours of their own sea-or-land kind, in ascending order |
| MapFile.SameSeaCountBound | MapGenerator/Dominons3Map.cs:109 | the count of same-kind neighbours is at most the number of neighbours |
| MapFile.FewNeighboursNoStart | MapGenerator/Dominons3Map.cs:109 | a province with at most three neighbours is always a nostart province |
| MapFile.SectionsInOrder | MapGenerator/Dominons3Map.cs:78-111 | the file is the header lines, then landname/terrain lines, then neighbour lines, then nostart lines |
| MapFile.UnknownNeighbourFails | MapGenerator/Dominons3Map.cs:108-109 | a neighbour without a terrain entry makes writing fail |
| MapFile.Replace | MapGenerator/Form1.cs:1194 | `String.Replace(c, d)` replaces every c by d and keeps every other character |
| MapFile.SanitizeFilename | MapGenerator/Form1.cs:1191-1195 | the file name is the title with every invalid character replaced by `_`, so no invalid character remains when `_` is valid |
| MapFile.ProvinceCountText | MapGenerator/Form1.cs:1200-1208 | the province-count sentence appended to the description: land = total - sea, then sea, then total |
| MapFile.SaveMapToDisk | MapGenerator/Form1.cs:1185-1212 | a non-empty title text sets the title and the sanitized file name; a non-empty description text replaces the description, and the province-count text is appended when asked; other fields stay; then the file is written as `GenerateMapToDisk` states |
| Pretender.IndexOfByte | MapGenerator/Pretender/Pretender.cs:13 | `Array.IndexOf` gives -1 or a position at or after the start that holds the value |
| Pretender.IndexOfByteFirst | MapGenerator/Pretender/Pretender.cs:13 | it gives -1 exactly when the value does not occur from the start, and otherwise its first occurrence |
| Pretender.SearchReported | MapGenerator/Pretender/Pretender.cs:14-21 | every reported position is a full match inside the buffer, and successive positions are at least the pattern length apart |
| Pretender.OccurrencesReported | MapGenerator/Pretender/Pretender.cs:10-23 | `IndexOfSequence` reports only full matches at or after the start index, at least a pattern length apart |
| Pretender.FirstCandidateFound | MapGenerator/Pretender/Pretender.cs:13-19 | a match at the first occurrence of the pattern's first byte is always reported first |
| Pretender.OverlapMissed | MapGenerator/Pretender/Pretender.cs:20 | because the search jumps a whole pattern length after a failed candidate, the match of [1, 2] at position 1 of [1, 1, 2] is not reported |
| Pretender.IndexOfSequence | MapGenerator/Pretender/Pretender.cs:10-23 | the search loop computes the occurrence specification, and reports only full matches |
| Pretender.SByte | MapGenerator/Pretender/Pretender.cs:75-80 | the `(sbyte)` cast is the byte's two's-complement value in [-128, 128) |
| Pretender.Int16At | MapGenerator/Pretender/Pretender.cs:59 | `BitConverter.ToInt16` is the little-endian two-byte value, signed, in [-32768, 32768) |
| Pretender.FindAfter | MapGenerator/Pretender/Pretender.cs:61 | `IndexOfSequence(p, start).First() + p.Length` fails exactly when there is no occurrence, and otherwise points just past a full match at or after the start |
| Pretender.AwakeAt | MapGenerator/Pretender/Pretender.cs:82-84 | the awake byte follows a `0x4f` marker found after the scales |
| Pretender.ScalesAt | MapGenerator/Pretender/Pretender.cs:73-84 | the scales follow a `39 30` marker found after the paths, and the awake byte follows after the scales |
| Pretender.PathsAt | MapGenerator/Pretender/Pretender.cs:61-84 | the fields after the type are placed after their markers, in order, inside the file |
| Pretender.LayoutAfterPaths | MapGenerator/Pretender/Pretender.cs:73-84 | once the paths are placed after Pattern1, the scales and the awake status follow their markers in order inside the file |
| Pretender.LayoutOf | MapGenerator/Pretender/Pretender.cs:57-84 | fails as `[1]` does when fewer than two `ff ff ff ff` markers occur; otherwise the type is read just past the second marker and all fields are placed after their markers |
| Pretender.ReadPaths | MapGenerator/Pretender/Pretender.cs:64-71 | succeeds exactly when eight bytes are left, and then maps the eight paths, in file order Fire, Air, Water, Earth, Astral, Death, Nature, Blood, to their bytes |
| Pretender.ReadScales | MapGenerator/Pretender/Pretender.cs:75-80 | succeeds exactly when six bytes are left, and then maps the six scales in order to their signed bytes |
| Pretender.SkipPast | MapGenerator/Pretender/Pretender.cs:61 | the marker search computes `FindAfter` |
| Pretender.ReadAwake | MapGenerator/Pretender/Pretender.cs:82-84 | fails as the awake marker search does, else reads the byte after the marker |
| Pretender.ReadScalesOn | MapGenerator/Pretender/Pretender.cs:73-84 | fails as the scale and awake layout does, else reads the scales and the awake byte at their places |
| Pretender.ReadPathsOn | MapGenerator/Pretender/Pretender.cs:61-84 | fails as the layout after the type does, else the design holds the dominion, paths, scales and awake byte read at their places |
| Pretender.LoadPretender | MapGenerator/Pretender/Pretender.cs:52-87 | fails exactly when the layout does, with the same error; otherwise the design holds the type, dominion, paths, scales and awake status read at the layout's positions, all inside the file |

## Left out

- Terrain.PlaceForests does not model the cell lookup `_provinces[OrderedPoints[provinceId - 1]]` at line 914 of Form1.cs, which fails for a province without a cell; its result only feeds drawing.
- Drawing is not modelled: bitmaps, brushes, textures, tree stamping in the forest loop (lines 918-936 of Form1.cs), province highlighting and the GUI events. Draws that only feed drawing are not consumed by the model.
- File output is not modelled: `File.Delete`, the `.tga` image, the `StreamWriter`. `GenerateMapToDisk` returns the lines instead. On a missing key the model returns a failure, where the program would leave a partly written file.
- The Voronoi diagram (`Fortune.ComputeVoronoiGraph`) is an external library. Its edges are an input.
- The noisy line subdivision (`BuildNoisyLineSegments`, `Subdivide`), the Perlin height map and `GetHeightAt` are float-heavy. They are not modelled. Their outputs are inputs: the two noisy halves of a jagged segment, and the province area function.
- `CalculateProvinceArea` is not modelled. It depends on the angle-sorted province polygons. The areas are an input function.
- Sorting each province's vertices by angle in `GenerateProvinces` is not modelled (atan2 in floating point). Neither is drawing the cells. The cells are modelled as sets of vertices.
- The centroid averaging at the start of `ImprovePoints` (lines 435-452 of Form1.cs) is not modelled. It works on floats over the cell vertex sets, in the enumeration order of the province dictionary. The new points are an input to `PointSampler.ImprovePointsTail`.
- Floating point is not modelled: doubles and floats are reals, with no rounding and no NaN. The "unknown" Voronoi vertex is a separate constructor, not NaN coordinates. The `(long)` casts and 64-bit products of the point-in-polygon test (line 95 of Util.cs) are taken as unbounded integers in `Geometry.Toggles`, so overflow of those products is not modelled.
- `MultiValueDictionary<int, int>` keeps its values in a `HashSet`. It is modelled as a map to a duplicate-free list in insertion order, the enumeration order of a `HashSet` without removals. `ElementAt` on it then has a meaning.
- `Dominons3Map` fields that the writer never reads are not modelled. These include `NoStartProvinces`, `AllowedNations`, victory conditions and the nation dictionaries.
- Terrain.SizeBuckets: `Count * 3 / 4` is computed in 32-bit ints and would overflow above about 715 million provinces. The model uses unbounded integers.
- The ordering key of points uses `String.CompareTo` (culture-aware) in `OrderBy`. It is modelled as ordinal character order, which agrees on the digit strings of keys in range. Keys with a minus sign are not covered by `PointSampler.KeyOrder`.
- Pretender.IndexOfSequence requires a non-empty pattern and a start index within the buffer. The program only calls it that way; an empty pattern would throw on `pattern[0]`.
- Pretender.LoadPretender takes the file's bytes as input, not a file name. The `AwakeStatus` is kept as the raw byte, because the cast to the enum accepts any value. `BitConverter` is taken as little-endian.
- `SaveMapToDisk` takes `txtSea.Value` (a `decimal`) as an integer, and `Environment.NewLine` and `Path.GetInvalidPathChars()` as parameters. `btnSaveMap.Enabled` is not modelled.
- Toroid.WrapPoint and Toroid.WrapVector state their bounds only for points no more than one map size before the origin. That is the range the `+ size` in the code handles. Further out, only the congruence is stated.
- BorderCache.BorderCache.GetJaggedPath guarantees only a path of two or more points in general. That it runs from a to b is stated under the conditions of `JaggedPathRunsFromAToB` and `JaggedPathFallback`; a path found under a translated key (lines 1014-1048 of Form1.cs) runs between the translated points only when the cached path's ends are those points, which the model does not prove: a key is a bounding box, so both diagonals of one box share a key, and the cached path may join the other diagonal's corners.
- Runs of `System.Random` that need more draws than given end in `OutOfDraws`. This includes the sampling loop, the sea loop and the forest loop, which never end when too few positions or provinces qualify.
- Map sizes are required to be positive wherever the code divides or takes `%` by them. The code would throw or produce NaN on a zero-size map.

## Findings

| source | as written | input that shows it | evidently intended | confidence | as-written member | corrected member |
|---|---|---|---|---|---|---|
| MapGenerator/Util.cs:79 | the walk of `PointInPolygon` starts from `(last.X, last.X)`, the last vertex's X used for both coordinates | triangle (0,0), (10,0), (5,10) and the point (5,5): the first edge is walked from (5,5) instead of (5,10), so the point is reported outside | start from the last vertex `(last.X, last.Y)`, closing the polygon | high (not executed) | Geometry.TriangleInteriorMissed | Geometry.InsideClosedRotation |
| MapGenerator/Util.cs:259 | `Segment.Equals` tests `Start == segment.End` twice in its second disjunct | (5,0)-(9,0) against (0,0)-(5,0), both with endpoints in the order the constructor gives them: equal as written, though only one endpoint is shared; the reverse comparison is false, so the relation is not symmetric | `Start == segment.End && End == segment.Start`, equality of endpoints in either order | high (not executed) | Geometry.SegmentEqualsTooWide | Geometry.SameEndpointsIsEquivalence |
