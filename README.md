# cs2_meeting_points in Dafny

This project models, and proves properties of, the core of *cs2_meeting_points*. That program takes a
Counter-Strike 2 navigation mesh and the spawn points of the two sides (CT and T). It computes, for
every nav area, how far each side has to run to reach it. It then replays the two sides spreading over
the map, ordered by distance, and records at each step which areas became reachable and which areas
of the other side became visible. A Python script draws these steps as frames.

The model has eight files:

| file | module | what it models |
|---|---|---|
| `wrappers.dfy` | `Wrappers` | `Option` and `Result` |
| `sorting.dfy` | `Sorting` | a stable sort by a total preorder, standing in for `sort_by` / `sorted` |
| `geometry.dfy` | `Geometry` | `src/position.rs`: vector arithmetic, distances, `can_jump_to`, inverse distance weighting, and the constants of `src/constants.rs` |
| `collisions.dfy` | `Collisions` | `src/collisions.rs`: reading `.tri` files, boxes, the slab test, ray/triangle intersection, building and traversing the bounding volume hierarchy, `connection_unobstructed` |
| `nav.dfy` | `Nav` | `src/nav.rs`: nav areas (centroid, size, containment, crouch flag), deserialisation of an area, the graph of `Nav::new`, `find_area`, `find_closest_area_centroid`, `path_cost`, `find_path`, `areas_visible` |
| `nav_regularize.dfy` | `NavRegularize` | `src/nav.rs`: `regularize_nav_areas` and its passes `create_new_nav_areas`, `build_old_to_new_mapping`, `add_connections_by_reachability`, `ensure_inter_area_connections` |
| `spread.dfy` | `Spread` | `src/spread.rs`: `get_distances_from_spawns`, `generate_spreads`, `newly_visible*`, `round_up_to_next_100` |
| `plot_spread.dfy` | `PlotSpread` | `scripts/plot_spread.py`: `NavArea.centroid`, `find_level`, `group_nav_areas` and the accumulation of marked areas across frames |

Modelling choices:

- **Numbers.** Floating point numbers are modelled as `real`. Square roots, and the polygon operations of the
  `geo` crate, are function parameters: `contains`, `intersects` and the polygon centroid. The square root
  parameter must satisfy `Geometry.IsSqrt`: it is non-negative and exact on squares. The A* search of
  `petgraph` is a parameter too, described by `Nav.IsAStar(astar, g)` for the one graph `g` it is run on:
  it returns a least-cost path or, when there is no path, nothing. The graph's weights are non-negative
  (`Nav.GraphWeightsNonNegative`), so a least-cost path exists whenever a path does, and the search of the
  two-square test mesh meets the description (`Nav.TwoSquaresAStarIsAStar`). The
  visibility and walkability tests that `CollisionChecker` drives are parameters where they are only called.
- **Map order.** Where the source iterates over a `HashMap` or `HashSet`, the model fixes one listing of the
  keys (`order`, or `listing(s)`) and iterates in that order. Every result is therefore proved for *any*
  iteration order.
- **Distances.** A spread distance is `Fin(real)` or `Inf`. `f64::INFINITY` is `Inf`. `f64::MAX`, which
  `find_path` returns for an unreachable area, is the finite constant `Nav.F64_MAX`.
- **Python arithmetic and sorting.** Python's `round` (halves to even) and `//` (floor) are written out in
  `RoundHalfEven` and `FloorDiv`. Rust's `f64::round` (halves away from zero) is written out in
  `NavRegularize.RoundHalfAway`. Vectors that the source sorts are sequences sorted by `Sorting.SortBy`. That
  is one stable insertion sort, which is all that `Vec::sort_by`, `sorted_by` and Python's `sorted` promise.
- **Python errors.** `group_nav_areas` raises `ValueError` on an empty input or on an empty corner list, and
  `ZeroDivisionError` on a zero tile size or a zero `group_size`. Those cases return `None` in
  `PlotSpread.GroupedBoundaries`.
- **Quirks kept as written.**
  - `find_path` leaves out the last edge of a path with more than two areas
    (`Nav.FindPathLastEdgeOmitted`).
  - `read_tri_file` drops a triangle whose bytes straddle two reads (`Collisions.StraddlingTriangleLost`).
  - `requires_crouch` tests the flags for equality (`Nav.CrouchIsExactFlag`).
  - In `group_nav_areas` the bounds loop rebinds `min_x`/`min_y`, and later blocks are rounded from the
    rebound origin (`PlotSpread.ClustersLaws`, `Rebinds`).
- **Preconditions.**
  - `inverse_distance_weighting` is only called on a non-empty list. An empty list would give a NaN.
  - `CollisionChecker::new` needs a non-empty list of triangles. The Python bindings refuse an empty one.
  - `Nav.NewNav` requires `ConnectionsKnown`: every connection names an area of the map. The source
    indexes `&areas[connected_area_id]` at src/nav.rs:300, which panics on a dangling id.
  - `Nav.FindPath` requires `KeysAreIds`: each area is stored under its own `area_id`, as the map built from
    the JSON file is.
  - `Nav.FindPath` requires an id endpoint to be an area of the map. The A* heuristic `dist_heuristic`
    indexes `self.areas[&node_a]` (src/nav.rs:361-365) and is evaluated on the start node first, so the
    source panics on an unknown id. The core's own calls pass only ids taken from the map.
  - `Nav.FindPath` requires a non-empty map when an endpoint is a position. On an empty map
    `find_closest_area_centroid` panics on its `unwrap` (src/nav.rs:349-358).
  - `generate_spreads` indexes both lists unchecked (src/spread.rs:168). `Spread.GenerateSpreads` needs both
    lists sorted and each holding an infinitely distant entry, which stops the loop. `get_distances_from_spawns`
    produces `f64::INFINITY` only for a side with no spawn points (src/spread.rs:70-73); an area that a spawn
    cannot reach gets `find_path`'s finite `f64::MAX` (src/nav.rs:401-404, `Spread.UnreachableIsFinite`).
    `Spread.GetDistancesFromSpawns` proves that a list holds an infinite entry iff its side has no spawns and
    the map has areas. So the model's requirement excludes every run in which either side has spawns. On
    such a run the source reads past the end of a list once a side with spawns is used up, and panics.

## Model

| member | source | states |
|---|---|---|
| Sorting.SortBy | src/spread.rs:111-112 | the result is ordered by the comparison, is a permutation of the input, and keeps the input order among equivalent elements |
| Geometry.Length | src/position.rs:39-41 | the length of a vector is non-negative |
| Geometry.LengthOfOrigin | src/position.rs:39-41 | the zero vector has length 0 |
| Geometry.Normalize | src/position.rs:43-49 | the zero vector is returned unchanged; otherwise scaling the result by the length gives the vector back |
| Geometry.NormalizeZero | src/position.rs:43-49 | normalising the zero vector gives the zero vector |
| Geometry.Distance | src/position.rs:19-21 | 3-D distance is non-negative |
| Geometry.DistanceToSelf | src/position.rs:19-21 | a point is at distance 0 from itself |
| Geometry.Hypot | src/position.rs:103 | `hypot` is non-negative |
| Geometry.Distance2D | src/position.rs:23-25 | 2-D distance is non-negative |
| Geometry.Distance2DLaws | src/position.rs:23-25 | 2-D distance is symmetric, ignores both z values, and is 0 for points with equal x and y |
| Geometry.DotSymmetric | src/position.rs:27-29 | the dot product is symmetric |
| Geometry.CrossOrthogonal | src/position.rs:31-37 | the cross product is orthogonal to both factors |
| Geometry.AddSubCancel | src/position.rs:79-93 | adding and subtracting the same vector cancel, in either order |
| Geometry.CanJumpToLaws | src/position.rs:55-76 | a target straight above or below is reachable; lowering a reachable target keeps it reachable; reachable iff the 2-D distance is at most 0 or the jump height over the target's x, y reaches its z |
| Geometry.Weight | src/position.rs:106-110 | the weight of a point not within 1e-10 of the target is positive |
| Geometry.Weights | src/position.rs:109 | one weight per point, in order |
| Geometry.FirstNear | src/position.rs:105-107 | the first point within 1e-10 of the target, with none before it, or the end of the list |
| Geometry.FirstNearAt | src/position.rs:105-107 | a near point with no near point before it is the first near point |
| Geometry.FirstNearNone | src/position.rs:105-107 | with no near point the search runs to the end |
| Geometry.MeanBetween | src/position.rs:112-116 | with positive weights the weighted mean lies between any bounds of the values |
| Geometry.IdwStep | src/position.rs:108-114 | one pass of the loop adds the point's weight and weighted height to the two prefix sums |
| Geometry.NoneNearStep | src/position.rs:105-110 | a point that is not near extends the prefix that has no near point |
| Geometry.IdwEnd | src/position.rs:116 | after a pass with no near point the weights sum to a positive number and the mean is bounded by the heights |
| Geometry.InverseDistanceWeighting | src/position.rs:95-117 | the z of the first point within 1e-10 of the target if there is one, else the mean of the heights weighted by the inverse square distance; always within any bounds of the heights |
| Collisions.Centroid | src/collisions.rs:19-25 | three times the centroid is the sum of the vertices, per coordinate |
| Collisions.ChunkTriangles | src/collisions.rs:43-69 | one read yields one triangle per complete 36-byte group, decoded in order; trailing bytes are dropped |
| Collisions.ReadsBeforeEof | src/collisions.rs:38-42 | the reads before the first empty one, which ends the loop |
| Collisions.ReadTriFile | src/collisions.rs:30-72 | the triangles are those of every read before end of file, in order |
| Collisions.AllTrianglesLength | src/collisions.rs:44 | the number of triangles is the sum of each read's complete groups |
| Collisions.WholeFileCount | src/collisions.rs:38-70 | a file delivered in one read gives `len / 36` triangles |
| Collisions.EightTriangles | src/collisions.rs:38-70 | 288 bytes give eight triangles |
| Collisions.StraddlingTriangleLost | src/collisions.rs:44-47 | 72 bytes read as 40 and 32 give one triangle, not two |
| Collisions.FromTriangle | src/collisions.rs:103-118 | the box holds the three vertices and lies within every box that does |
| Collisions.CentroidInBox | src/collisions.rs:103-118 | a triangle's centroid lies in its box |
| Collisions.Union | src/collisions.rs:257-276 | the union holds both boxes and lies within every box that holds both |
| Collisions.CheckAxis | src/collisions.rs:90-100 | the empty interval for a near-zero direction outside the slab, the whole line inside it, else a finite ordered interval |
| Collisions.CheckAxisExact | src/collisions.rs:90-100 | t lies in the axis interval iff the ray point at t lies between the bounds |
| Collisions.OverlapIff | src/collisions.rs:145-148 | the three axis intervals overlap at or after 0 iff some t >= 0 lies in all three |
| Collisions.IntersectsRayIff | src/collisions.rs:120-149 | the slab test holds iff some t >= 0 lies in all three axis intervals |
| Collisions.SlabExactX | src/collisions.rs:120-149 | on x, t is in the slab interval iff the ray point's x is within the box |
| Collisions.SlabExactY | src/collisions.rs:120-149 | the same on y |
| Collisions.SlabExactZ | src/collisions.rs:120-149 | the same on z |
| Collisions.InSlabsIffInBox | src/collisions.rs:120-149 | t is in all three intervals iff the ray point at t is in the box |
| Collisions.IntersectsRayExact | src/collisions.rs:120-149 | for a non-empty box, the slab test holds iff some point of the ray at t >= 0 is in the box |
| Collisions.IntersectsRayMonotone | src/collisions.rs:120-149 | a ray that meets a box meets every box around it |
| Collisions.SlabWithin | src/collisions.rs:90-100 | widening an axis' bounds widens its interval |
| Collisions.RayTriangleIntersection | src/collisions.rs:281-311 | a hit has a determinant of at least epsilon in size and a ray parameter above epsilon |
| Collisions.DeterminantIsTripleProduct | src/collisions.rs:287-290 | the determinant is minus the triple product of the direction with the two edges |
| Collisions.ParallelRayMisses | src/collisions.rs:287-294 | a ray orthogonal to the triangle's normal never hits it |
| Collisions.SolvedByCramer | src/collisions.rs:287-308 | for a nonzero determinant, the ray point at the computed `t` is the point of the triangle at the computed `u`, `v` |
| Collisions.RayTriangleHit | src/collisions.rs:281-311 | a hit at `t` is the computed parameter, and the ray point at `t` lies on the triangle, at coordinates inside it, and in its box |
| Collisions.RayTriangleFindsHit | src/collisions.rs:281-311 | a ray point at `t` above epsilon that lies on the triangle is reported as the hit at `t` when the determinant is at least epsilon in size |
| Collisions.RayTriangleIff | src/collisions.rs:281-311 | with such a determinant and `t` above epsilon, the hit is at `t` iff the ray point at `t` lies on the triangle |
| Collisions.VerticalRayOnUnitTriangle | src/collisions.rs:281-311 | a vertical ray hits the unit triangle iff its x, y lies in it and the plane is more than epsilon above, at parameter -z |
| Collisions.VerticalRayExamples | src/collisions.rs:281-311 | concrete hits and misses of a vertical ray |
| Collisions.MinCentroid | src/collisions.rs:199-219 | the least centroid coordinate along an axis, attained by a triangle |
| Collisions.MaxCentroid | src/collisions.rs:199-219 | the greatest centroid coordinate along an axis, attained by a triangle |
| Collisions.SplitAxis | src/collisions.rs:222-228 | the axis of largest centroid spread, ties going to x and then y |
| Collisions.ByCentroid | src/collisions.rs:231-250 | the comparison is a total preorder on the centroid coordinate |
| Collisions.SortAlong | src/collisions.rs:231-250 | the triangles are permuted and ordered by centroid along the axis |
| Collisions.BuildBvh | src/collisions.rs:188-196 | a single triangle becomes a leaf with its own box, and only a single triangle does |
| Collisions.BuildBvhChildren | src/collisions.rs:252-276 | an internal node's children are built from the two halves of the sorted list |
| Collisions.BuildBvhPermutation | src/collisions.rs:188-277 | the leaves are the input triangles, each as often as in the input |
| Collisions.BuildBvhWellFormed | src/collisions.rs:188-277 | every box is its triangle's box or the union of its children's boxes |
| Collisions.BoxHoldsLeaves | src/collisions.rs:188-277 | a well-formed node's box holds every vertex of every leaf |
| Collisions.BuildBvhBounds | src/collisions.rs:188-277 | the root box holds every vertex of every input triangle |
| Collisions.BuildBvhMedianSplit | src/collisions.rs:231-254 | no triangle on the left has a larger centroid coordinate on the split axis than one on the right |
| Collisions.BuildBvhHalves | src/collisions.rs:252-254 | the left child holds `len / 2` triangles, the right child the rest |
| Collisions.ChildrenOrdered | src/collisions.rs:252-254 | hierarchies built from either side of a cut keep the order between their leaves |
| Collisions.HalvesOrdered | src/collisions.rs:252-254 | in an ordered list every element before a cut is at most every element after it |
| Collisions.AnyHitAppend | src/collisions.rs:331-343 | a hit in a concatenation is a hit in one of its parts |
| Collisions.TraverseBvh | src/collisions.rs:314-344 | no hit when the box misses the ray; a hit is a hit on some leaf within the distance |
| Collisions.HitMeetsBox | src/collisions.rs:320-322 | for a well-formed node and a clear direction, a leaf hit means the ray meets the node's box, so the box test prunes no hit |
| Collisions.TraverseBvhComplete | src/collisions.rs:314-344 | for a well-formed hierarchy and a direction with no component nonzero and below 1e-6, traversal finds a hit iff testing every leaf does |
| Collisions.GrazingRayPruned | src/collisions.rs:90-100 | a direction with an x of 5e-7 misses a leaf box by the slab test although the ray hits the leaf's triangle |
| Collisions.TraverseWithoutPruning | src/collisions.rs:314-344 | when no box prunes, traversal is exactly the brute-force test over all leaves |
| Collisions.NewCollisionChecker | src/collisions.rs:180-186 | the checker counts the triangles, and its hierarchy holds exactly them and is well formed |
| Collisions.ConnectionUnobstructed | src/collisions.rs:348-357 | a segment shorter than 1e-6 is unobstructed; an obstructed one has a triangle hit within its length |
| Collisions.ConnectionUnobstructedExact | src/collisions.rs:348-357 | for a well-formed hierarchy and a clear direction, a segment is unobstructed iff it is shorter than 1e-6 or no triangle is hit within its length |
| Nav.CentroidOf | src/nav.rs:71-80 | the origin for no corners, else the componentwise mean of the corners |
| Nav.CentroidOfCopies | src/nav.rs:71-80 | the centroid of coinciding corners is that point |
| Nav.NewNavArea | src/nav.rs:83-102 | hull index 0, the centroid of the corners, every other field as given |
| Nav.SizeOf | src/nav.rs:105-120 | the shoelace area is non-negative and 0 for fewer than three corners |
| Nav.Size | src/nav.rs:105-120 | the loop over the closed coordinate lists computes the shoelace area |
| Nav.RectangleSize | src/nav.rs:105-120 | an axis-aligned rectangle's size is width times height |
| Nav.Polygon2D | src/nav.rs:123-126 | the (x, y) of each corner, in order |
| Nav.ContainsIgnoresZ | src/nav.rs:129-131 | containment ignores the z of the corners and of the point |
| Nav.CentroidDistance | src/nav.rs:133-135 | non-negative, and 0 at the centroid |
| Nav.CrouchIsExactFlag | src/nav.rs:228-230 | flags 65536 need crouching; 65537 and 65536 + 1024 do not |
| Nav.Finish | src/nav.rs:184-192 | `area_id`, `dynamic_attribute_flags` and `corners` are required and reported missing in that order; the rest default |
| Nav.DeserializeNavArea | src/nav.rs:153-204 | the visitor's loop decodes the record as the field-by-field reading does |
| Nav.ErrorSticks | src/nav.rs:166-182 | once a prefix fails the whole record fails with that error |
| Nav.UnknownKeyIgnored | src/nav.rs:178-180 | an unknown key is skipped wherever it occurs |
| Nav.MissingAreaId | src/nav.rs:184-186 | a record without `area_id` is refused for that field, unless an earlier value was ill typed |
| Nav.RequiredOnly | src/nav.rs:184-192 | the required keys alone give hull index 0, empty id lists and the corner mean as centroid |
| Nav.RelativeSpeed | src/nav.rs:307-323 | the speed factor is positive |
| Nav.CentroidGap | src/nav.rs:307-323 | the gap between two centroids is non-negative |
| Nav.EdgeWeightLaws | src/nav.rs:298-327 | without crouching the weight is the centroid gap; crouching only makes it larger; crouching at both ends scales it by 250 / 85 |
| Nav.GraphWeightsNonNegative | src/nav.rs:298-327 | every edge weight of the graph is non-negative |
| Nav.PathCostNonNegative | src/nav.rs:367-372 | with non-negative weights, every path along graph edges costs at least 0 |
| Nav.NewNav | src/nav.rs:284-336 | the graph has every area and one edge per connection with its weight; the other fields are as given |
| Nav.AddEdgesOf | src/nav.rs:298-327 | exactly the edges from the area to its connections are added, with their weights; other edges are unchanged |
| Nav.FindAreaIn | src/nav.rs:338-347 | none iff no area contains the point; else a containing area of least z gap, the first of ties |
| Nav.FindAreaFirstOfTies | src/nav.rs:338-347 | of equally near containing areas, the one listed first wins |
| Nav.FirstMinimum | src/nav.rs:338-347 | a containing area nearer than all before it and no farther than all after it is the result |
| Nav.PrefixBefore | src/nav.rs:338-347 | when every containing area is farther than g, so is the result |
| Nav.ClosestIn | src/nav.rs:349-358 | a listed area of least centroid distance, the first of ties |
| Nav.PathCost | src/nav.rs:367-372 | a two-area path costs its one edge weight |
| Nav.PathCostSplit | src/nav.rs:367-372 | a path's cost splits at any of its areas |
| Nav.Resolve | src/nav.rs:376-393 | an id names itself; a position names the id of some area of the map |
| Nav.AreasOnPath | src/nav.rs:446-449 | the map's areas among a path's ids, in order; all of them when every id is known |
| Nav.PathAreasKnown | src/nav.rs:446-449 | beyond its first area, every area of a path along graph edges is in the map |
| Nav.FindPath | src/nav.rs:375-455 | the path is empty iff no path joins the resolved areas, and then the distance is `f64::MAX`; otherwise it runs from the start's area to the end's area along graph edges |
| Nav.FindPathUnreachable | src/nav.rs:394-405 | without a path the result is the empty path at `f64::MAX` |
| Nav.FindPathShortIds | src/nav.rs:408-421 | for a path of at most two areas, the distance is no more than any path's cost and the areas are the path's |
| Nav.FindPathLastEdgeOmitted | src/nav.rs:422-443 | for a path of more than two areas, the distance is the cost without the last edge |
| Nav.FindPathShortPositions | src/nav.rs:408-421 | two positions joined by a path of at most two areas are reported at their 2-D distance |
| Nav.TwoSquaresPaths | tests/test_bindings.py:62-84 | in the two-square map the only path from 1 to 2 is [1, 2], weighing 2, and 2 reaches nothing |
| Nav.TwoSquaresFindPath | tests/test_bindings.py:89-93 | from id 1 to id 2 the path is both areas at distance 2; from 2 to 1 it is empty |
| Nav.TwoSquaresAStarIsAStar | tests/test_bindings.py:62-93 | a concrete search meets the A* description on the two-square graph |
| Nav.AreasVisibleLaws | src/nav.rs:481-539 | a cache built from the checker answers as the checker does; areas whose centroids are less than 1e-6 apart see each other |
| NavRegularize.MakeNewNavArea | src/nav.rs:627-647 | id 0, the centroid of the corners, every other field as given |
| NavRegularize.ToNavArea | src/nav.rs:237-250 | hull index 0, the same id, flags, corners and centroid, each set listed with the same members |
| NavRegularize.ClassifyCell | src/nav.rs:711-719 | the areas containing the centre, and the others meeting the cell, which are disjoint |
| NavRegularize.NearestExtra | src/nav.rs:725-740 | a listed extra area whose polygon centroid is nearest the cell centre |
| NavRegularize.NearestExtraOf | src/nav.rs:725-740 | the fallback area is one of the extra areas of the square |
| NavRegularize.CollectOrigins | src/nav.rs:746-756 | the primary and the other extra areas within jump height of its interpolated height |
| NavRegularize.RoundHalfAway | src/nav.rs:758 | the nearest integer, halves away from zero |
| NavRegularize.RepLevel | src/nav.rs:758 | the height rounded to two decimals is within 0.005 of it |
| NavRegularize.CellCorners | src/nav.rs:759-764 | four corners, all at the given height |
| NavRegularize.CellsAt | src/nav.rs:691-775 | the cells of one grid square: none when nothing meets it; one per primary area in set order; else one for the extra area whose centroid is nearest the centre; each well formed |
| NavRegularize.CellsFrom | src/nav.rs:721-775 | the same cells once the areas of the square are classified |
| NavRegularize.GridCellFrom | src/nav.rs:721-775 | cells built by the three cases are the specification of one grid square |
| NavRegularize.GridCellOfPrimaries | src/nav.rs:741-775 | one cell per primary area, in set order, is the grid square's cells |
| NavRegularize.GridCellOfNearest | src/nav.rs:725-775 | the nearest extra area's cell alone is the grid square's cells when no area holds the centre |
| NavRegularize.GridCellAt | src/nav.rs:691-696 | square (i, j) spans `min + j * width` to that plus `width` in x, and likewise in y with i; its cells are well formed |
| NavRegularize.RowCellsStep | src/nav.rs:689-696 | row i up to column j + 1 is row i up to column j followed by square (i, j) |
| NavRegularize.RowStep | src/nav.rs:689-775 | one pass of the inner loop appends square (i, j) to the row |
| NavRegularize.RowPass | src/nav.rs:689-775 | the inner loop makes row i, every square in column order |
| NavRegularize.RowsPass | src/nav.rs:689-775 | the outer loop makes every row in order, so the squares come in row-major order |
| NavRegularize.GridPass | src/nav.rs:677-775 | the cells of every square of the grid spanned by the corner extremes, in row-major order; none for grid 0 |
| NavRegularize.ChoosePrimaries | src/nav.rs:725-743 | every primary area in set order, or else the single extra area nearest the centre; each has corners |
| NavRegularize.BuildCells | src/nav.rs:745-775 | one well-formed cell per chosen area, in order |
| NavRegularize.BuildCell | src/nav.rs:746-774 | the body builds the cell of its area |
| NavRegularize.CellHeight | src/nav.rs:747-748 | the height is the inverse distance weighting of the area's corners at the centre |
| NavRegularize.BuildOldToNewMapping | src/nav.rs:785-798 | cell i gets id i, and each old id maps to the cells it is an origin of |
| NavRegularize.AddOrigins | src/nav.rs:790-795 | each origin of the cell gains the cell's index |
| NavRegularize.AllOriginsIff | src/nav.rs:790-795 | an old id is a key of the mapping iff some cell lists it as an origin |
| NavRegularize.OldToNewMaps | src/nav.rs:785-798 | the mapping sends each old id to exactly the cells listing it, all of them cells |
| NavRegularize.MapsOriginsUnique | src/nav.rs:785-798 | only one mapping has that property |
| NavRegularize.SeqMin | src/nav.rs:677-680 | the least element, one of the list |
| NavRegularize.SeqMax | src/nav.rs:677-680 | the greatest element, one of the list |
| NavRegularize.CreateNewNavAreas | src/nav.rs:669-782 | the cells of every grid square in row-major order, renumbered so that cell k has id k, each well formed; the mapping lists every cell's origins; no cells for grid 0 |
| NavRegularize.ReachableLaws | src/nav.rs:946-963 | an area never gains its own id; an area whose ladders meet is linked; only ids of cells are added |
| NavRegularize.AddConnectionsByReachability | src/nav.rs:938-971 | every area's connections are extended by the ids it reaches among all areas as they were before the pass, and nothing else changes |
| NavRegularize.Pairs | src/nav.rs:906-907 | every pair of the two lists, as many as their product |
| NavRegularize.SortedPairs | src/nav.rs:906-919 | all child pairs, ordered by the 2-D distance of their centroids |
| NavRegularize.NearestPairs | src/nav.rs:906-925 | at most three pairs, each of a child of the area and a child of its neighbour |
| NavRegularize.NearestPairsAreNearest | src/nav.rs:909-925 | no pair left out is nearer than a linked one |
| NavRegularize.AddEdges | src/nav.rs:925-931 | each listed pair's second cell becomes a connection of the first |
| NavRegularize.AddEdgesOnlyListed | src/nav.rs:925-931 | connections only grow, and every new one is a listed pair |
| NavRegularize.LinkChildrenLaws | src/nav.rs:893-931 | nothing changes when already linked; otherwise at most three connections from children of the area to children of the neighbour |
| NavRegularize.LinkNeighbours | src/nav.rs:888-932 | the loop over an area's neighbours keeps the number of cells |
| NavRegularize.EnsureConnections | src/nav.rs:878-933 | the loop over the old areas keeps the number of cells |
| NavRegularize.EnsureConnectionsGrows | src/nav.rs:871-936 | the pass only adds connections and changes no other field |
| NavRegularize.GatherNeighbours | src/nav.rs:893-896 | the children and all their connections |
| NavRegularize.LinkChildrenInPlace | src/nav.rs:893-931 | the array after linking one pair is the pure linking of its old contents |
| NavRegularize.AddEdgesInPlace | src/nav.rs:925-931 | the array after the loop is the pure edge addition on its old contents |
| NavRegularize.EnsureInterAreaConnections | src/nav.rs:871-936 | the array after the pass is the pure pass on its old contents |
| NavRegularize.LinkNeighboursInPlace | src/nav.rs:888-932 | the array after the loop over one area's neighbours is the pure linking of its old contents |
| NavRegularize.LinkNeighboursSnoc | src/nav.rs:888-932 | linking one more neighbour links that neighbour's cells into the children when it was regularized, and changes nothing otherwise |
| NavRegularize.GatherInfo | src/nav.rs:817-834 | each area's polygon and mean height, and the x and y of every corner in map order; none when no area has corners |
| NavRegularize.InfoOfUnique | src/nav.rs:817-829 | the area information is determined by the areas |
| NavRegularize.ConnectCells | src/nav.rs:855-862 | the two connection passes in order: reachability, then the links between neighbouring old areas; connections only grow |
| NavRegularize.FinalCells | src/nav.rs:840-862 | the numbered grid cells after both passes are the regularized cells |
| NavRegularize.RegularCells | src/nav.rs:836-862 | the cells before conversion are the regularized cells, with ids 0, 1, … and four corners |
| NavRegularize.RegularizedIs | src/nav.rs:802-869 | the regularized cells are those of the grid over the corner lists; none when there are no corners |
| NavRegularize.RegularizeNavAreas | src/nav.rs:802-869 | the map of the regularized cells (grid cells, renumbered, with both connection passes) by index; keys 0, 1, … and each area's own id, hull index 0, four corners; empty when there are no corners or grid 0 |
| Spread.ByDistanceIsTotalPreorder | src/spread.rs:111-112 | the distance comparison is a total preorder |
| Spread.FilterMembers | src/spread.rs:171-177 | an element is kept iff it is in the list and passes |
| Spread.FilterAppend | src/spread.rs:171-177 | filtering keeps the input order |
| Spread.FilterSorted | src/spread.rs:334-342 | filtering a sorted list keeps it sorted |
| Spread.ConnectionsTo | src/spread.rs:235-238 | one connection from the current area to each visible area, in order |
| Spread.FirstNearest | src/spread.rs:66-73 | nothing for no spawns; else the first path of least distance |
| Spread.PathsFrom | src/spread.rs:63-68 | the path from each spawn point to the area |
| Spread.Ids | src/spread.rs:91 | the ids of a path's areas, in order |
| Spread.Entry | src/spread.rs:62-98 | the entry of one side is for the area it is computed for |
| Spread.EntryLaws | src/spread.rs:63-97 | infinitely far with an empty path iff the side has no spawn; else the least distance over the spawns, with a spawn's path at it |
| Spread.Distances | src/spread.rs:56-100 | for each area in map order, its CT entry and its T entry |
| Spread.DistancesPerArea | src/spread.rs:56-100 | each side's list has one entry per area of the map |
| Spread.ListedOncePerArea | src/spread.rs:56-60 | the areas listed in map order give one entry per area |
| Spread.Unzip | src/spread.rs:103-109 | the loop splits the pairs into the firsts and the seconds |
| Spread.GetDistancesFromSpawns | src/spread.rs:53-118 | each side's list is a permutation of its entries, sorted by distance, and holds an infinite entry iff the side has no spawns and the map has areas |
| Spread.DistancesInfinite | src/spread.rs:63-97 | an entry is infinitely far iff its side has no spawns |
| Spread.HasInfIff | src/spread.rs:70-73 | a list whose entries are all infinite, or all finite, holds an infinite entry iff it is infinite and non-empty |
| Spread.HasInfPermutation | src/spread.rs:111-112 | sorting does not change whether a list holds an infinite entry |
| Spread.TwoSquaresNavReady | tests/test_bindings.py:62-93 | the two-square mesh with a concrete search meets what `find_path` needs |
| Spread.UnreachableIsFinite | src/spread.rs:63-73 | an area no spawn can reach is reported at `f64::MAX`, not at infinity |
| Spread.NewlyVisibleFine | src/spread.rs:327-343 | the previous opposing areas, in order, that are visible and not already spotted by both |
| Spread.FineKeepsOrder | src/spread.rs:334-342 | the fine rule works part by part on a concatenation |
| Spread.RoughVisible | src/spread.rs:305-324 | nothing when a path area is own-spotted; else the visible opposing areas, in distance order |
| Spread.NewlyVisibleRough | src/spread.rs:298-325 | the result of the rough rule; the current area is own-spotted and each result opposing-spotted |
| Spread.SpotVisible | src/spread.rs:317-323 | the loop keeps the visible areas in order and marks them |
| Spread.NewlyVisible | src/spread.rs:272-296 | every visible area is a visible previous opposing area |
| Spread.Ceil | src/spread.rs:346 | the least integer not below the value |
| Spread.RoundUpToNext100 | src/spread.rs:345-347 | a multiple of 100, not below the value and less than 100 above it |
| Spread.RoundUpIsLeast | src/spread.rs:345-347 | no smaller multiple of 100 is at least the value |
| Spread.OpposingPrevious | src/spread.rs:171-177 | the opposing entries that are marked or newly marked |
| Spread.AfterPredecessor | src/spread.rs:218-222 | the current area becomes own-spotted when its predecessor is, and nothing else changes |
| Spread.Advance | src/spread.rs:166-267 | one pass of the loop body, step by step, is the pass function |
| Spread.TakeHead | src/spread.rs:167-204 | the side with the strictly smaller head distance moves (T on ties); its head is marked as new, its index goes up by one, and the opposing list is the other side's areas already marked or newly marked |
| Spread.Plot | src/spread.rs:241-267 | the tail of a pass that does not break: a pass with nothing visible within 100 of the last plot emits nothing; otherwise one record is pushed, the new marks are folded into the old, last_plotted is rounded up to the next 100, and for the fine style the connections are cleared |
| Spread.Visit | src/spread.rs:218-239 | the predecessor rule, the visible areas, the spotted sets and the connections after one pass |
| Spread.RecordSpotted | src/spread.rs:233-239 | each visible area becomes opposing-spotted and gets a connection |
| Spread.ChainedSnoc | src/spread.rs:245-259 | a record continuing the chain keeps the records chained |
| Spread.EmitKeepsConsistent | src/spread.rs:245-267 | a pass that emits a record and goes on keeps the state consistent |
| Spread.SkipKeepsConsistent | src/spread.rs:241-243 | a pass that emits nothing keeps the state consistent |
| Spread.NextConsistent | src/spread.rs:166-268 | each pass keeps the state consistent, or breaks with a chained final record without new connections |
| Spread.BreakConsistent | src/spread.rs:206-216 | a pass whose head is infinite breaks and leaves a chained result whose last record has no new connections |
| Spread.SkipConsistent | src/spread.rs:241-243 | on a finite head with nothing visible within 100 of the last plot, the pass function does not break and keeps the state consistent |
| Spread.EmitConsistent | src/spread.rs:245-267 | on a finite head that is plotted, the pass function does not break and keeps the state consistent |
| Spread.NextStaysInRange | src/spread.rs:166-204 | a pass that does not break takes a finite head and advances exactly one index |
| Spread.NextIndices | src/spread.rs:166-216 | a pass advances exactly the index of the side that moves, and it breaks if and only if that side's head is infinite |
| Spread.GenerateSpreads | src/spread.rs:138-270 | the records are those of the passes iterated from the start until the break; they are chained, and the last one carries no new connections |
| Spread.Run | src/spread.rs:166-270 | the passes from a state until the break extend its records by at least one |
| Spread.NextExtendsResult | src/spread.rs:241-268 | a pass keeps the records so far and adds at most one, and the break adds one |
| Spread.SpreadStep | src/spread.rs:166-268 | one pass keeps the loop invariant and, unless it breaks, takes one entry from one list |
| Spread.NextMarksCurrent | src/spread.rs:168-216 | a pass marks the current area on its side; a break emits one final record |
| Spread.NextPlotting | src/spread.rs:241-267 | marks only grow; an emitted record moves the new marks into the marks and clears them, and the fine style clears the connections; otherwise a skipped pass emits nothing |
| Spread.NextSpotting | src/spread.rs:218-239 | the spotted sets grow by the predecessor rule, by the current area when something is visible, and by every visible area |
| Spread.OpposingAreMarked | src/spread.rs:171-195 | the opposing areas considered are exactly the other side's marked or newly marked ones |
| Spread.TiesGoToT | src/spread.rs:168 | on equal distances the T side moves |
| PlotSpread.Centroid | scripts/plot_spread.py:68-88 | the origin without corners, else the mean of the corners per coordinate |
| PlotSpread.CentroidAgreesWithMesh | scripts/plot_spread.py:68-88 | the script's centroid is the one the Rust mesh computes |
| PlotSpread.HigherFirstIsTotalPreorder | scripts/plot_spread.py:192 | ordering by descending `altitude_max` is a total preorder |
| PlotSpread.FirstSpanning | scripts/plot_spread.py:194-197 | the first section spanning z, none before it, or the end |
| PlotSpread.Levels | scripts/plot_spread.py:192 | the sections, permuted and ordered highest first |
| PlotSpread.FindLevel | scripts/plot_spread.py:187-201 | `(0, "default")` without sections; else the first spanning level, highest first, or the lowest level |
| PlotSpread.FindLevelNamesASection | scripts/plot_spread.py:187-201 | the name found is one of the sections' names |
| PlotSpread.RoundHalfEven | scripts/plot_spread.py:440-441 | within 0.5 of the value, and even on a half |
| PlotSpread.RoundIsNearest | scripts/plot_spread.py:440-441 | no integer is nearer the value |
| PlotSpread.FloorDiv | scripts/plot_spread.py:442 | the floor of the quotient, for either sign of the divisor |
| PlotSpread.FirstFit | scripts/plot_spread.py:457-468 | the first group that takes the area, none before it, or the end |
| PlotSpread.PlaceArea | scripts/plot_spread.py:450-471 | the placement loop is the placement function |
| PlotSpread.ZGroupsOf | scripts/plot_spread.py:448-471 | the loop over a block's areas builds its z-groups |
| PlotSpread.PlaceAddsOnce | scripts/plot_spread.py:457-471 | placing an area adds it to the groups exactly once |
| PlotSpread.PlaceKeepsWellFormed | scripts/plot_spread.py:457-471 | placing keeps every group within a jump and free of shared cells |
| PlotSpread.ZGroupsPartition | scripts/plot_spread.py:448-471 | every area of a block lands in exactly one z-group |
| PlotSpread.ZGroupsWellFormed | scripts/plot_spread.py:448-471 | every z-group is within a jump height and has no two areas in one cell |
| PlotSpread.ZGroupsLaws | scripts/plot_spread.py:448-471 | both of the above |
| PlotSpread.KeyOn | scripts/plot_spread.py:440-442 | each area's block key depends on the area alone |
| PlotSpread.FileStep | scripts/plot_spread.py:442 | filing one area keeps the block map sound and gathers that area once more |
| PlotSpread.BucketLaws | scripts/plot_spread.py:438-442 | the block map is sound and gathers every area exactly once |
| PlotSpread.GatheredPermutation | scripts/plot_spread.py:447 | gathering does not depend on the order of the keys |
| PlotSpread.SortedKeys | scripts/plot_spread.py:447 | the keys, permuted and in ascending order |
| PlotSpread.MinOfIsLeast | scripts/plot_spread.py:424-425 | the minimum is one of the values and at most each |
| PlotSpread.MaxOfIsGreatest | scripts/plot_spread.py:431-432 | the maximum is one of the values and at least each |
| PlotSpread.Mean | scripts/plot_spread.py:479 | the mean times the count is the sum |
| PlotSpread.Rectangle | scripts/plot_spread.py:474-489 | none iff the group has no corners; else four corners going round a rectangle at one height |
| PlotSpread.RectangleBounds | scripts/plot_spread.py:475-489 | the tightest box around the corners, at the mean corner height |
| PlotSpread.StartGrid | scripts/plot_spread.py:423-435 | the origin is at most every centroid; the tile size is non-negative |
| PlotSpread.GroupingOn | scripts/plot_spread.py:448-471 | the z-groups of a block on the grid rounded from the given origin |
| PlotSpread.GroupingOnLaws | scripts/plot_spread.py:448-471 | that grouping partitions each block and places each group well |
| PlotSpread.BoundGroupsFails | scripts/plot_spread.py:474-479 | the bounds loop fails exactly on a group without corners |
| PlotSpread.BoundGroupsLaws | scripts/plot_spread.py:473-489 | the groups are appended with their rectangles and origin; `min_x`/`min_y` become the last rectangle's lowest corner |
| PlotSpread.BoundGroupsFailsOn | scripts/plot_spread.py:474-479 | a failing prefix of a block's groups fails the block |
| PlotSpread.SweepFailsOn | scripts/plot_spread.py:447-479 | a failing prefix of the blocks fails the whole sweep |
| PlotSpread.SweepLaws | scripts/plot_spread.py:447-489 | the rectangles stay aligned, every area is collected once, each group is well placed |
| PlotSpread.BlockLaws | scripts/plot_spread.py:448-489 | one block keeps the sweep's laws and adds its areas |
| PlotSpread.SweepOrder | scripts/plot_spread.py:447-489 | groups come in ascending block-key order, one block each, each rounded from the origin left by the block before |
| PlotSpread.ClustersLaws | scripts/plot_spread.py:417-491 | every area in exactly one z-group; rectangles aligned; groups well placed, one key each, ascending; the origin is rebound block by block |
| PlotSpread.BucketAreas | scripts/plot_spread.py:437-442 | the loop files every area under its block key |
| PlotSpread.BoundBlock | scripts/plot_spread.py:473-489 | the loop over one block's groups is the bounds function |
| PlotSpread.SweepKeys | scripts/plot_spread.py:447-489 | the loop over sorted blocks is the sweep function |
| PlotSpread.GroupNavAreas | scripts/plot_spread.py:417-491 | the step-by-step function is the specification, including the error cases |
| PlotSpread.TilesOf | scripts/plot_spread.py:559-587 | purple is what both sides have reached, and it is drawn olive or green too |
| PlotSpread.FramesAt | scripts/plot_spread.py:546-589 | frame i is drawn against the marks of the first i records |
| PlotSpread.AccumulateMarked | scripts/plot_spread.py:546-589 | each frame uses the marks before it; the final marks are those of all records |
| PlotSpread.MarkedSnoc | scripts/plot_spread.py:588-589 | one more record adds exactly its new marks and its frame |
| PlotSpread.MarkedGrows | scripts/plot_spread.py:588-589 | the accumulated marks only grow |
| PlotSpread.PurpleIsReachedByBoth | scripts/plot_spread.py:577-589 | purple is exactly what both sides have reached once the record counts |
| PlotSpread.MarkedIsOldMarked | scripts/plot_spread.py:546-589 | on a spread run, the script's marks before a record are the old marks the simulator stored in it |

## Left out

- File, JSON and console I/O are not modelled: `from_json`, `save_to_json`, opening `.tri` files, the caches on disk, `tqdm`, `println!`, and the plotting and GIF output of the script. `read_tri_file` takes the sequence of reads as a parameter.
- The decoding of `f32` bytes into coordinates is a parameter (`decode`). IEEE rounding, NaN and infinities of `f64` are not modelled; `partial_cmp(..).unwrap()` is modelled as a total comparison.
- `par_iter` runs in parallel in the source. The model maps sequentially, in the same order, so each result is the same.
- The polygon operations of the `geo` crate (`contains`, `intersects`, `centroid`, Euclidean distance) are function parameters.
- The A* search of `petgraph` is a function parameter with its contract (`Nav.IsAStar`).
- `areas_walkable` (src/nav.rs:541-585) is a parameter of the reachability pass: its trigonometry over collision rays is not modelled.
- `get_visibility_cache` and `get_walkability_cache` are modelled only as a cache that agrees with the checker (`Nav.CacheOf`), since they read and write files.
- `load_collision_checker` and `Spawns`/`SpawnDistances` loading are I/O.
- `add_intra_area_connections` (src/nav.rs:973-997) is not modelled: its only call is commented out.
- In-place sorting of a `Vec` is modelled as reassigning a sorted sequence, and the HashMaps and HashSets are maps and sets with an iteration listing.
- TraverseBvh, ConnectionUnobstructed: traversal equals testing every triangle only for directions whose nonzero components are at least 1e-6 in size (`TraverseBvhComplete`, `ConnectionUnobstructedExact`). For a smaller nonzero component the slab test of `check_axis` treats the ray as parallel to that axis and can prune a box the ray enters, so a hit can be lost (`GrazingRayPruned`); for such directions only soundness is stated.
- Nav.FindPath, Spread.GetDistancesFromSpawns: the A* parameter is assumed to meet `Nav.IsAStar` on the graph. The heuristic passed to `astar` (`dist_heuristic`) is not modelled, so the model does not capture a search that an inadmissible heuristic would make return a costlier path.
- Spread.NewlyVisible: states only that the result is made of visible previous opposing areas; the exact result of each style is stated by NewlyVisibleFine and RoughVisible.
- NavRegularize.LinkNeighbours and NavRegularize.EnsureConnections: state only the length of the result; what they add is stated by the Grows lemmas.
- The drawing of tiles and connections by `_plot_tiles` and `_plot_visibility_connection` is left out. The model keeps only the sets of area ids drawn in each colour.
