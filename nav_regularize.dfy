/**
 * The regularisation of a nav mesh into a grid (`regularize_nav_areas` in
 * `src/nav.rs`): grid cells classified against the old areas' polygons,
 * the mapping from old areas to the new cells, connections added by
 * reachability, and old connections carried over to the new cells.
 *
 * The new cells live in an array, edited in place as the source edits its
 * `Vec<NewNavArea>`. HashSets are Dafny sets; where the iteration order of
 * a set decides a result (which cell is pushed first, which of two equally
 * near areas wins, the order pairs are sorted from) it comes from a
 * `listing` oracle that enumerates each set.
 */
module NavRegularize {
  import opened Wrappers
  import opened Geometry
  import Nav
  import Sorting

  /** `NewNavArea`: connections, ladders and the old areas it came from are sets. */
  datatype NewNavArea = NewNavArea(
    areaId: nat,
    flags: nat,
    corners: seq<Position>,
    connections: set<nat>,
    laddersAbove: set<nat>,
    laddersBelow: set<nat>,
    origIds: set<nat>,
    centroid: Position)

  /** `NewNavArea::new`: id 0 until the mapping pass numbers it, centroid cached. */
  function MakeNewNavArea(corners: seq<Position>, origIds: set<nat>, laddersAbove: set<nat>, laddersBelow: set<nat>,
                          flags: nat, connections: set<nat>): (a: NewNavArea)
    ensures a.areaId == 0 && a.centroid == Nav.CentroidOf(corners)
    ensures a.corners == corners && a.origIds == origIds && a.flags == flags && a.connections == connections
    ensures a.laddersAbove == laddersAbove && a.laddersBelow == laddersBelow
  {
    NewNavArea(0, flags, corners, connections, laddersAbove, laddersBelow, origIds, Nav.CentroidOf(corners))
  }

  function SetOf(s: seq<nat>): set<nat> {
    set x | x in s
  }

  /** A prefix one longer adds its last element. */
  lemma SetOfPrefixStep(s: seq<nat>, i: nat)
    requires i < |s|
    ensures s[..i + 1] == s[..i] + [s[i]]
    ensures SetOf(s[..i + 1]) == SetOf(s[..i]) + {s[i]}
  {
    assert s[..i + 1] == s[..i] + [s[i]];
  }

  /** `listing(s)` enumerates `s`, each element once. */
  ghost predicate IsEnumeration(listing: set<nat> -> seq<nat>) {
    forall s: set<nat> ::
      && (forall x :: x in listing(s) <==> x in s)
      && (forall i, j :: 0 <= i < j < |listing(s)| ==> listing(s)[i] != listing(s)[j])
  }

  /** `From<NewNavArea> for NavArea`: hull index 0, each set listed as a vector. */
  function ToNavArea(listing: set<nat> -> seq<nat>, item: NewNavArea): (a: Nav.NavArea)
    requires IsEnumeration(listing)
    ensures a.areaId == item.areaId && a.hullIndex == 0 && a.flags == item.flags
    ensures a.corners == item.corners && a.centroid == item.centroid
    ensures forall c :: c in a.connections <==> c in item.connections
    ensures forall c :: c in a.laddersAbove <==> c in item.laddersAbove
    ensures forall c :: c in a.laddersBelow <==> c in item.laddersBelow
  {
    Nav.NavArea(item.areaId, 0, item.flags, item.corners, listing(item.connections),
                listing(item.laddersAbove), listing(item.laddersBelow), item.centroid)
  }

  // ---------------------------------------------------------------------
  // Oracles for the polygon library.

  /** What the model assumes of geo's `contains`, `intersects` and `centroid`: an empty polygon has no points and no centroid. */
  ghost predicate PolygonOracles(contains: (seq<(real, real)>, real, real) -> bool,
                                 intersects: (seq<(real, real)>, seq<(real, real)>) -> bool,
                                 polyCentroid: seq<(real, real)> -> Option<(real, real)>) {
    && (forall x, y :: !contains([], x, y))
    && (forall q :: !intersects([], q))
    && (forall poly :: poly != [] ==> polyCentroid(poly).Some?)
  }

  /** `AdditionalNavAreaInfo`: the 2-D polygon and the mean corner height of an old area. */
  datatype AreaInfo = AreaInfo(polygon: seq<(real, real)>, zLevel: real)

  /** The mean corner z (0 for no corners, where the source divides by zero; such an area is never used). */
  function MeanZ(corners: seq<Position>): real {
    if corners == [] then 0.0 else Nav.SumZ(corners) / |corners| as real
  }

  ghost predicate InfoOf(navAreas: map<nat, Nav.NavArea>, info: map<nat, AreaInfo>) {
    && info.Keys == navAreas.Keys
    && forall id :: id in info ==>
         info[id] == AreaInfo(Nav.Polygon2D(navAreas[id].corners), MeanZ(navAreas[id].corners))
  }

  // ---------------------------------------------------------------------
  // Cell classification.

  function CellPolygon(x0: real, y0: real, x1: real, y1: real): seq<(real, real)> {
    [(x0, y0), (x1, y0), (x1, y1), (x0, y1)]
  }

  /** The old areas whose polygon contains the cell centre. */
  ghost function Primaries(contains: (seq<(real, real)>, real, real) -> bool, info: map<nat, AreaInfo>,
                           cx: real, cy: real): set<nat> {
    set id | id in info && contains(info[id].polygon, cx, cy)
  }

  /** The old areas whose polygon misses the centre but meets the cell. */
  ghost function Extras(contains: (seq<(real, real)>, real, real) -> bool,
                        intersects: (seq<(real, real)>, seq<(real, real)>) -> bool,
                        info: map<nat, AreaInfo>, cx: real, cy: real, cell: seq<(real, real)>): set<nat> {
    set id | id in info && !contains(info[id].polygon, cx, cy) && intersects(info[id].polygon, cell)
  }

  /** The loop over the old areas sorting each into the primary or the extra set (or neither). */
  method ClassifyCell(contains: (seq<(real, real)>, real, real) -> bool,
                      intersects: (seq<(real, real)>, seq<(real, real)>) -> bool,
                      info: map<nat, AreaInfo>, ids: seq<nat>, cx: real, cy: real, cell: seq<(real, real)>)
    returns (primary: set<nat>, extra: set<nat>)
    requires Nav.Listing(info, ids)
    ensures primary == Primaries(contains, info, cx, cy)
    ensures extra == Extras(contains, intersects, info, cx, cy, cell)
    ensures primary !! extra
  {
    primary, extra := {}, {};
    var i := 0;
    while i < |ids|
      invariant 0 <= i <= |ids|
      invariant primary == set id | id in ids[..i] && contains(info[id].polygon, cx, cy)
      invariant extra == set id | id in ids[..i] && !contains(info[id].polygon, cx, cy) && intersects(info[id].polygon, cell)
    {
      var id := ids[i];
      assert ids[..i + 1] == ids[..i] + [id];
      if contains(info[id].polygon, cx, cy) {
        primary := primary + {id};
      } else if intersects(info[id].polygon, cell) {
        extra := extra + {id};
      }
      i := i + 1;
    }
    assert ids[..i] == ids;
  }

  /** Euclidean distance from the polygon centroid of an old area to the cell centre. */
  function CentreDistance(sqrt: real -> real, polyCentroid: seq<(real, real)> -> Option<(real, real)>,
                          info: map<nat, AreaInfo>, id: nat, cx: real, cy: real): real
    requires IsSqrt(sqrt) && id in info && polyCentroid(info[id].polygon).Some?
  {
    var c := polyCentroid(info[id].polygon).value;
    Hypot(sqrt, c.0 - cx, c.1 - cy)
  }

  /** `min_by` over the listed extra areas: the first one whose polygon centroid is nearest the cell centre. */
  function NearestExtra(sqrt: real -> real, polyCentroid: seq<(real, real)> -> Option<(real, real)>,
                        info: map<nat, AreaInfo>, ids: seq<nat>, cx: real, cy: real): (r: nat)
    requires IsSqrt(sqrt) && |ids| > 0
    requires forall i :: 0 <= i < |ids| ==> ids[i] in info && polyCentroid(info[ids[i]].polygon).Some?
    ensures r in ids
    ensures forall i :: 0 <= i < |ids| ==>
              CentreDistance(sqrt, polyCentroid, info, r, cx, cy) <= CentreDistance(sqrt, polyCentroid, info, ids[i], cx, cy)
  {
    var n := |ids|;
    if n == 1 then ids[0]
    else
      var best := NearestExtra(sqrt, polyCentroid, info, ids[..n - 1], cx, cy);
      var x := ids[n - 1];
      var r := if CentreDistance(sqrt, polyCentroid, info, x, cx, cy) < CentreDistance(sqrt, polyCentroid, info, best, cx, cy)
               then x else best;
      NearestExtraStep(sqrt, polyCentroid, info, ids, ids[..n - 1], cx, cy, best, r);
      r
  }

  /** The last listed area replaces the nearest so far only when strictly nearer; either way the result is nearest. */
  lemma NearestExtraStep(sqrt: real -> real, polyCentroid: seq<(real, real)> -> Option<(real, real)>,
                         info: map<nat, AreaInfo>, ids: seq<nat>, prefix: seq<nat>, cx: real, cy: real, best: nat, r: nat)
    requires IsSqrt(sqrt) && |ids| > 1 && prefix == ids[..|ids| - 1]
    requires forall i :: 0 <= i < |ids| ==> ids[i] in info && polyCentroid(info[ids[i]].polygon).Some?
    requires best in prefix
    requires forall i :: 0 <= i < |prefix| ==>
               CentreDistance(sqrt, polyCentroid, info, best, cx, cy) <= CentreDistance(sqrt, polyCentroid, info, prefix[i], cx, cy)
    requires r == if CentreDistance(sqrt, polyCentroid, info, ids[|ids| - 1], cx, cy) < CentreDistance(sqrt, polyCentroid, info, best, cx, cy)
                  then ids[|ids| - 1] else best
    ensures r in ids
    ensures forall i :: 0 <= i < |ids| ==>
              CentreDistance(sqrt, polyCentroid, info, r, cx, cy) <= CentreDistance(sqrt, polyCentroid, info, ids[i], cx, cy)
  {
    assert forall i :: 0 <= i < |prefix| ==> prefix[i] == ids[i];
  }

  /** The extra areas in `s` other than the primary and within jump height of height `z`. */
  ghost function Companions(primary: nat, z: real, s: set<nat>, info: map<nat, AreaInfo>): set<nat>
    requires s <= info.Keys
  {
    set o | o in s && o != primary && Abs(z - info[o].zLevel) <= JUMP_HEIGHT
  }

  lemma CompanionsAdd(primary: nat, z: real, s: set<nat>, o: nat, info: map<nat, AreaInfo>)
    requires s <= info.Keys && o in info
    ensures Companions(primary, z, s + {o}, info)
            == Companions(primary, z, s, info) + (if o != primary && Abs(z - info[o].zLevel) <= JUMP_HEIGHT then {o} else {})
  {
  }

  /** `cell_orig_ids`: the primary and every other extra area within jump height of the primary's height. */
  ghost function CellOrigins(primary: nat, z: real, extra: set<nat>, info: map<nat, AreaInfo>): set<nat>
    requires extra <= info.Keys
  {
    {primary} + Companions(primary, z, extra, info)
  }

  /** The loop over the extra areas, in set order, gathering the companions of the primary. */
  method CollectOrigins(primary: nat, z: real, extra: seq<nat>, info: map<nat, AreaInfo>) returns (ids: set<nat>)
    requires SetOf(extra) <= info.Keys
    ensures ids == CellOrigins(primary, z, SetOf(extra), info)
  {
    ids := {primary};
    for i := 0 to |extra|
      invariant ids == {primary} + Companions(primary, z, SetOf(extra[..i]), info)
    {
      var other := extra[i];
      assert SetOf(extra[..i + 1]) == SetOf(extra[..i]) + {other} by {
        assert extra[..i + 1] == extra[..i] + [other];
      }
      CompanionsAdd(primary, z, SetOf(extra[..i]), other, info);
      if other != primary && Abs(z - info[other].zLevel) <= JUMP_HEIGHT {
        ids := ids + {other};
      }
    }
    assert extra[..|extra|] == extra;
  }

  /** `f64::round`: to the nearest integer, halves away from zero. */
  function RoundHalfAway(v: real): (r: int)
    ensures r as real - 0.5 <= v <= r as real + 0.5
    ensures v == r as real + 0.5 ==> v < 0.0
    ensures v == r as real - 0.5 ==> v > 0.0
  {
    if v >= 0.0 then (v + 0.5).Floor else -((-v + 0.5).Floor)
  }

  /** `(z * 100).round() / 100`: the height rounded to two decimals. */
  function RepLevel(z: real): (r: real)
    ensures z - 0.005 <= r <= z + 0.005
  {
    RoundHalfAway(z * 100.0) as real / 100.0
  }

  /** The four corners of a cell at one height. */
  function CellCorners(x0: real, y0: real, x1: real, y1: real, z: real): (cs: seq<Position>)
    ensures |cs| == 4 && forall i :: 0 <= i < 4 ==> cs[i].z == z
  {
    [Position(x0, y0, z), Position(x1, y0, z), Position(x1, y1, z), Position(x0, y1, z)]
  }

  /** The new cell for one primary area, its height interpolated from the area's corners at the cell centre. */
  ghost function CellFor(sqrt: real -> real, navAreas: map<nat, Nav.NavArea>, info: map<nat, AreaInfo>,
                         primary: nat, extra: set<nat>, x0: real, y0: real, x1: real, y1: real): NewNavArea
    requires IsSqrt(sqrt) && primary in navAreas && extra <= info.Keys
  {
    CellAtHeight(navAreas[primary], info, primary, IdwValue(sqrt, navAreas[primary].corners, Mid(x0, x1), Mid(y0, y1)),
                 extra, x0, y0, x1, y1)
  }

  /** The new cell for primary area `a` (id `primary`) at interpolated height `z`. */
  ghost function CellAtHeight(a: Nav.NavArea, info: map<nat, AreaInfo>, primary: nat, z: real, extra: set<nat>,
                              x0: real, y0: real, x1: real, y1: real): NewNavArea
    requires extra <= info.Keys
  {
    MakeNewNavArea(CellCorners(x0, y0, x1, y1, RepLevel(z)), CellOrigins(primary, z, extra, info),
                   SetOf(a.laddersAbove), SetOf(a.laddersBelow), a.flags, {})
  }

  /** A cell as the grid pass leaves it: four corners, no connections, born of known old areas, one of them its primary. */
  ghost predicate WellFormedCell(navAreas: map<nat, Nav.NavArea>, c: NewNavArea) {
    && |c.corners| == 4
    && c.connections == {}
    && c.origIds <= navAreas.Keys
    && exists p :: p in c.origIds && c.flags == navAreas[p].flags
                   && c.laddersAbove == SetOf(navAreas[p].laddersAbove) && c.laddersBelow == SetOf(navAreas[p].laddersBelow)
  }

  lemma CellForWellFormed(sqrt: real -> real, navAreas: map<nat, Nav.NavArea>, info: map<nat, AreaInfo>,
                          primary: nat, extra: set<nat>, x0: real, y0: real, x1: real, y1: real)
    requires IsSqrt(sqrt) && primary in navAreas && extra <= info.Keys && info.Keys == navAreas.Keys
    ensures WellFormedCell(navAreas, CellFor(sqrt, navAreas, info, primary, extra, x0, y0, x1, y1))
  {
    var c := CellFor(sqrt, navAreas, info, primary, extra, x0, y0, x1, y1);
    assert primary in c.origIds;
  }

  /** A polygon the centre lies in, or that meets the cell, comes from an area with corners. */
  lemma UsedAreaHasCorners(contains: (seq<(real, real)>, real, real) -> bool,
                           intersects: (seq<(real, real)>, seq<(real, real)>) -> bool,
                           polyCentroid: seq<(real, real)> -> Option<(real, real)>,
                           navAreas: map<nat, Nav.NavArea>, info: map<nat, AreaInfo>, id: nat,
                           cx: real, cy: real, cell: seq<(real, real)>)
    requires PolygonOracles(contains, intersects, polyCentroid) && InfoOf(navAreas, info) && id in info
    requires contains(info[id].polygon, cx, cy) || intersects(info[id].polygon, cell)
    ensures |navAreas[id].corners| > 0 && polyCentroid(info[id].polygon).Some?
  {
  }

  /** The extra area whose polygon centroid is nearest the cell centre, first in listing order among equals. */
  ghost function NearestExtraOf(sqrt: real -> real, contains: (seq<(real, real)>, real, real) -> bool,
                                intersects: (seq<(real, real)>, seq<(real, real)>) -> bool,
                                polyCentroid: seq<(real, real)> -> Option<(real, real)>, listing: set<nat> -> seq<nat>,
                                navAreas: map<nat, Nav.NavArea>, info: map<nat, AreaInfo>,
                                cx: real, cy: real, cell: seq<(real, real)>): (r: nat)
    requires IsSqrt(sqrt) && PolygonOracles(contains, intersects, polyCentroid) && IsEnumeration(listing)
    requires InfoOf(navAreas, info) && Extras(contains, intersects, info, cx, cy, cell) != {}
    ensures r in Extras(contains, intersects, info, cx, cy, cell)
  {
    var extra := Extras(contains, intersects, info, cx, cy, cell);
    ExtrasHaveCentroids(sqrt, contains, intersects, polyCentroid, listing, navAreas, info, cx, cy, cell);
    NearestExtra(sqrt, polyCentroid, info, listing(extra), cx, cy)
  }

  /** The listed extra areas are known, each with a polygon centroid, and there is at least one. */
  lemma ExtrasHaveCentroids(sqrt: real -> real, contains: (seq<(real, real)>, real, real) -> bool,
                            intersects: (seq<(real, real)>, seq<(real, real)>) -> bool,
                            polyCentroid: seq<(real, real)> -> Option<(real, real)>, listing: set<nat> -> seq<nat>,
                            navAreas: map<nat, Nav.NavArea>, info: map<nat, AreaInfo>,
                            cx: real, cy: real, cell: seq<(real, real)>)
    requires IsSqrt(sqrt) && PolygonOracles(contains, intersects, polyCentroid) && IsEnumeration(listing)
    requires InfoOf(navAreas, info) && Extras(contains, intersects, info, cx, cy, cell) != {}
    ensures var extraList := listing(Extras(contains, intersects, info, cx, cy, cell));
            && |extraList| > 0
            && forall i :: 0 <= i < |extraList| ==> extraList[i] in info && polyCentroid(info[extraList[i]].polygon).Some?
  {
    var extra := Extras(contains, intersects, info, cx, cy, cell);
    var extraList := listing(extra);
    assert forall x :: x in extraList <==> x in extra;
    forall i | 0 <= i < |extraList| ensures extraList[i] in info && polyCentroid(info[extraList[i]].polygon).Some? {
      assert extraList[i] in extra;
      UsedAreaHasCorners(contains, intersects, polyCentroid, navAreas, info, extraList[i], cx, cy, cell);
    }
    var someExtra :| someExtra in extra;
    assert someExtra in extraList;
  }

  /**
   * The cells one grid cell contributes: one per primary area in listing
   * order; with no primary, one for the nearest extra area; with neither,
   * none.
   */
  ghost function GridCell(sqrt: real -> real, contains: (seq<(real, real)>, real, real) -> bool,
                          intersects: (seq<(real, real)>, seq<(real, real)>) -> bool,
                          polyCentroid: seq<(real, real)> -> Option<(real, real)>, listing: set<nat> -> seq<nat>,
                          navAreas: map<nat, Nav.NavArea>, info: map<nat, AreaInfo>,
                          x0: real, y0: real, x1: real, y1: real): seq<NewNavArea>
    requires IsSqrt(sqrt) && PolygonOracles(contains, intersects, polyCentroid) && IsEnumeration(listing)
    requires InfoOf(navAreas, info)
  {
    var cx, cy := Mid(x0, x1), Mid(y0, y1);
    var cell := CellPolygon(x0, y0, x1, y1);
    var primary := Primaries(contains, info, cx, cy);
    var extra := Extras(contains, intersects, info, cx, cy, cell);
    ClassesKnown(contains, intersects, listing, info, cx, cy, cell);
    if primary != {} then
      var ps := listing(primary);
      seq(|ps|, k requires 0 <= k < |ps| => CellFor(sqrt, navAreas, info, ps[k], extra, x0, y0, x1, y1))
    else if extra != {} then
      [CellFor(sqrt, navAreas, info, NearestExtraOf(sqrt, contains, intersects, polyCentroid, listing, navAreas, info, cx, cy, cell),
               extra, x0, y0, x1, y1)]
    else []
  }

  /** The primary and extra areas of a cell are known areas, and so are those listed. */
  lemma ClassesKnown(contains: (seq<(real, real)>, real, real) -> bool,
                     intersects: (seq<(real, real)>, seq<(real, real)>) -> bool, listing: set<nat> -> seq<nat>,
                     info: map<nat, AreaInfo>, cx: real, cy: real, cell: seq<(real, real)>)
    requires IsEnumeration(listing)
    ensures Primaries(contains, info, cx, cy) <= info.Keys
    ensures Extras(contains, intersects, info, cx, cy, cell) <= info.Keys
    ensures var ps := listing(Primaries(contains, info, cx, cy));
            forall k :: 0 <= k < |ps| ==> ps[k] in info
  {
    var ps := listing(Primaries(contains, info, cx, cy));
    assert forall x :: x in ps <==> x in Primaries(contains, info, cx, cy);
  }

  /** The cells of the first `j` grid cells of row `i`, left to right. */
  ghost function RowCells(sqrt: real -> real, contains: (seq<(real, real)>, real, real) -> bool,
                          intersects: (seq<(real, real)>, seq<(real, real)>) -> bool,
                          polyCentroid: seq<(real, real)> -> Option<(real, real)>, listing: set<nat> -> seq<nat>,
                          navAreas: map<nat, Nav.NavArea>, info: map<nat, AreaInfo>,
                          minX: real, minY: real, width: real, height: real, i: nat, j: nat): seq<NewNavArea>
    requires IsSqrt(sqrt) && PolygonOracles(contains, intersects, polyCentroid) && IsEnumeration(listing)
    requires InfoOf(navAreas, info)
  {
    if j == 0 then []
    else
      RowCells(sqrt, contains, intersects, polyCentroid, listing, navAreas, info, minX, minY, width, height, i, j - 1)
      + GridSquare(sqrt, contains, intersects, polyCentroid, listing, navAreas, info, minX, minY, width, height, i, j - 1)
  }

  /** The cells of grid cell `j` of row `i`: the square from column `j` and row `i` of the grid. */
  ghost function GridSquare(sqrt: real -> real, contains: (seq<(real, real)>, real, real) -> bool,
                          intersects: (seq<(real, real)>, seq<(real, real)>) -> bool,
                          polyCentroid: seq<(real, real)> -> Option<(real, real)>, listing: set<nat> -> seq<nat>,
                          navAreas: map<nat, Nav.NavArea>, info: map<nat, AreaInfo>,
                          minX: real, minY: real, width: real, height: real, i: nat, j: nat): seq<NewNavArea>
    requires IsSqrt(sqrt) && PolygonOracles(contains, intersects, polyCentroid) && IsEnumeration(listing)
    requires InfoOf(navAreas, info)
  {
    GridCell(sqrt, contains, intersects, polyCentroid, listing, navAreas, info,
             CellMin(minX, j, width), CellMin(minY, i, height), CellMax(minX, j, width), CellMax(minY, i, height))
  }

  /** The centre of a cell along one axis: halfway between its edges. */
  function Mid(lo: real, hi: real): real {
    (lo + hi) / 2.0
  }

  /** The size of one of `n` equal grid cells spanning `lo` to `hi` along one axis. */
  function CellSize(lo: real, hi: real, n: nat): real
    requires n > 0
  {
    (hi - lo) / n as real
  }

  /** The low edge of grid cell `k` along one axis: `origin + k * size`. */
  function CellMin(origin: real, k: nat, size: real): real {
    origin + k as real * size
  }

  /** The high edge of grid cell `k` along one axis: one cell size above its low edge. */
  function CellMax(origin: real, k: nat, size: real): real {
    CellMin(origin, k, size) + size
  }

  lemma RowCellsStep(sqrt: real -> real, contains: (seq<(real, real)>, real, real) -> bool,
                     intersects: (seq<(real, real)>, seq<(real, real)>) -> bool,
                     polyCentroid: seq<(real, real)> -> Option<(real, real)>, listing: set<nat> -> seq<nat>,
                     navAreas: map<nat, Nav.NavArea>, info: map<nat, AreaInfo>,
                     minX: real, minY: real, width: real, height: real, i: nat, j: nat)
    requires IsSqrt(sqrt) && PolygonOracles(contains, intersects, polyCentroid) && IsEnumeration(listing)
    requires InfoOf(navAreas, info)
    ensures RowCells(sqrt, contains, intersects, polyCentroid, listing, navAreas, info, minX, minY, width, height, i, j + 1)
            == RowCells(sqrt, contains, intersects, polyCentroid, listing, navAreas, info, minX, minY, width, height, i, j)
               + GridSquare(sqrt, contains, intersects, polyCentroid, listing, navAreas, info, minX, minY, width, height, i, j)
  {
  }

  /** The cells of the first `i` rows of a grid `n` cells wide, row by row. */
  ghost function GridCells(sqrt: real -> real, contains: (seq<(real, real)>, real, real) -> bool,
                           intersects: (seq<(real, real)>, seq<(real, real)>) -> bool,
                           polyCentroid: seq<(real, real)> -> Option<(real, real)>, listing: set<nat> -> seq<nat>,
                           navAreas: map<nat, Nav.NavArea>, info: map<nat, AreaInfo>,
                           minX: real, minY: real, width: real, height: real, n: nat, i: nat): seq<NewNavArea>
    requires IsSqrt(sqrt) && PolygonOracles(contains, intersects, polyCentroid) && IsEnumeration(listing)
    requires InfoOf(navAreas, info)
  {
    if i == 0 then []
    else
      GridCells(sqrt, contains, intersects, polyCentroid, listing, navAreas, info, minX, minY, width, height, n, i - 1)
      + RowCells(sqrt, contains, intersects, polyCentroid, listing, navAreas, info, minX, minY, width, height, i - 1, n)
  }

  /**
   * One grid cell: no new cell when no old area meets it; otherwise one
   * cell per primary area, or, with no primary, one for the extra area
   * whose centroid is nearest the centre.
   */
  method CellsAt(sqrt: real -> real, contains: (seq<(real, real)>, real, real) -> bool,
                 intersects: (seq<(real, real)>, seq<(real, real)>) -> bool,
                 polyCentroid: seq<(real, real)> -> Option<(real, real)>, listing: set<nat> -> seq<nat>,
                 navAreas: map<nat, Nav.NavArea>, info: map<nat, AreaInfo>, ids: seq<nat>,
                 x0: real, y0: real, x1: real, y1: real)
    returns (cells: seq<NewNavArea>, ghost primary: set<nat>, ghost extra: set<nat>)
    requires IsSqrt(sqrt) && PolygonOracles(contains, intersects, polyCentroid) && IsEnumeration(listing)
    requires InfoOf(navAreas, info) && Nav.Listing(info, ids)
    ensures cells == GridCell(sqrt, contains, intersects, polyCentroid, listing, navAreas, info, x0, y0, x1, y1)
    ensures primary == Primaries(contains, info, Mid(x0, x1), Mid(y0, y1))
    ensures extra == Extras(contains, intersects, info, Mid(x0, x1), Mid(y0, y1), CellPolygon(x0, y0, x1, y1))
    ensures primary == {} && extra == {} ==> cells == []
    ensures primary != {} ==>
              && |cells| == |listing(primary)|
              && forall k :: 0 <= k < |cells| ==>
                   listing(primary)[k] in primary && cells[k] == CellFor(sqrt, navAreas, info, listing(primary)[k], extra, x0, y0, x1, y1)
    ensures primary == {} && extra != {} ==>
              && |cells| == 1
              && cells[0] == CellFor(sqrt, navAreas, info,
                                     NearestExtraOf(sqrt, contains, intersects, polyCentroid, listing, navAreas, info,
                                                    Mid(x0, x1), Mid(y0, y1), CellPolygon(x0, y0, x1, y1)),
                                     extra, x0, y0, x1, y1)
    ensures forall k :: 0 <= k < |cells| ==> WellFormedCell(navAreas, cells[k])
  {
    var cx, cy := Mid(x0, x1), Mid(y0, y1);
    var cell := CellPolygon(x0, y0, x1, y1);
    var prim, ext := ClassifyCell(contains, intersects, info, ids, cx, cy, cell);
    primary, extra := prim, ext;
    cells := CellsFrom(sqrt, contains, intersects, polyCentroid, listing, navAreas, info, prim, ext, x0, y0, x1, y1);
    GridCellFrom(sqrt, contains, intersects, polyCentroid, listing, navAreas, info, prim, ext, x0, y0, x1, y1, cells);
  }

  /** Cells that follow the three cases of a grid cell are its cells. */
  lemma GridCellFrom(sqrt: real -> real, contains: (seq<(real, real)>, real, real) -> bool,
                     intersects: (seq<(real, real)>, seq<(real, real)>) -> bool,
                     polyCentroid: seq<(real, real)> -> Option<(real, real)>, listing: set<nat> -> seq<nat>,
                     navAreas: map<nat, Nav.NavArea>, info: map<nat, AreaInfo>, primary: set<nat>, extra: set<nat>,
                     x0: real, y0: real, x1: real, y1: real, cells: seq<NewNavArea>)
    requires IsSqrt(sqrt) && PolygonOracles(contains, intersects, polyCentroid) && IsEnumeration(listing)
    requires InfoOf(navAreas, info)
    requires primary == Primaries(contains, info, Mid(x0, x1), Mid(y0, y1))
    requires extra == Extras(contains, intersects, info, Mid(x0, x1), Mid(y0, y1), CellPolygon(x0, y0, x1, y1))
    requires primary == {} && extra == {} ==> cells == []
    requires primary != {} ==>
               && |cells| == |listing(primary)|
               && forall k :: 0 <= k < |cells| ==>
                    listing(primary)[k] in primary && cells[k] == CellFor(sqrt, navAreas, info, listing(primary)[k], extra, x0, y0, x1, y1)
    requires primary == {} && extra != {} ==>
               && |cells| == 1
               && cells[0] == CellFor(sqrt, navAreas, info,
                                      NearestExtraOf(sqrt, contains, intersects, polyCentroid, listing, navAreas, info, Mid(x0, x1), Mid(y0, y1), CellPolygon(x0, y0, x1, y1)),
                                      extra, x0, y0, x1, y1)
    ensures cells == GridCell(sqrt, contains, intersects, polyCentroid, listing, navAreas, info, x0, y0, x1, y1)
  {
    if primary != {} {
      GridCellOfPrimaries(sqrt, contains, intersects, polyCentroid, listing, navAreas, info, primary, extra, x0, y0, x1, y1, cells);
    } else if extra != {} {
      GridCellOfNearest(sqrt, contains, intersects, polyCentroid, listing, navAreas, info, primary, extra, x0, y0, x1, y1, cells);
    }
  }

  /** With primary areas, the cells are one per primary in listing order. */
  lemma GridCellOfPrimaries(sqrt: real -> real, contains: (seq<(real, real)>, real, real) -> bool,
                     intersects: (seq<(real, real)>, seq<(real, real)>) -> bool,
                     polyCentroid: seq<(real, real)> -> Option<(real, real)>, listing: set<nat> -> seq<nat>,
                     navAreas: map<nat, Nav.NavArea>, info: map<nat, AreaInfo>, primary: set<nat>, extra: set<nat>,
                     x0: real, y0: real, x1: real, y1: real, cells: seq<NewNavArea>)
    requires IsSqrt(sqrt) && PolygonOracles(contains, intersects, polyCentroid) && IsEnumeration(listing)
    requires InfoOf(navAreas, info)
    requires primary == Primaries(contains, info, Mid(x0, x1), Mid(y0, y1))
    requires extra == Extras(contains, intersects, info, Mid(x0, x1), Mid(y0, y1), CellPolygon(x0, y0, x1, y1))
    requires primary != {}
    requires |cells| == |listing(primary)|
    requires forall k :: 0 <= k < |cells| ==>
               listing(primary)[k] in primary && cells[k] == CellFor(sqrt, navAreas, info, listing(primary)[k], extra, x0, y0, x1, y1)
    ensures cells == GridCell(sqrt, contains, intersects, polyCentroid, listing, navAreas, info, x0, y0, x1, y1)
  {
    ghost var g := GridCell(sqrt, contains, intersects, polyCentroid, listing, navAreas, info, x0, y0, x1, y1);
    assert |cells| == |g| && forall k :: 0 <= k < |g| ==> cells[k] == g[k];
  }

  /** With extra areas only, the cell is the one for the nearest extra area. */
  lemma GridCellOfNearest(sqrt: real -> real, contains: (seq<(real, real)>, real, real) -> bool,
                     intersects: (seq<(real, real)>, seq<(real, real)>) -> bool,
                     polyCentroid: seq<(real, real)> -> Option<(real, real)>, listing: set<nat> -> seq<nat>,
                     navAreas: map<nat, Nav.NavArea>, info: map<nat, AreaInfo>, primary: set<nat>, extra: set<nat>,
                     x0: real, y0: real, x1: real, y1: real, cells: seq<NewNavArea>)
    requires IsSqrt(sqrt) && PolygonOracles(contains, intersects, polyCentroid) && IsEnumeration(listing)
    requires InfoOf(navAreas, info)
    requires primary == Primaries(contains, info, Mid(x0, x1), Mid(y0, y1))
    requires extra == Extras(contains, intersects, info, Mid(x0, x1), Mid(y0, y1), CellPolygon(x0, y0, x1, y1))
    requires primary == {} && extra != {}
    requires |cells| == 1
    requires cells[0] == CellFor(sqrt, navAreas, info,
                                 NearestExtraOf(sqrt, contains, intersects, polyCentroid, listing, navAreas, info, Mid(x0, x1), Mid(y0, y1), CellPolygon(x0, y0, x1, y1)),
                                 extra, x0, y0, x1, y1)
    ensures cells == GridCell(sqrt, contains, intersects, polyCentroid, listing, navAreas, info, x0, y0, x1, y1)
  {
    ghost var g := GridCell(sqrt, contains, intersects, polyCentroid, listing, navAreas, info, x0, y0, x1, y1);
    assert cells == [g[0]];
  }

  /** The cells of one grid cell once its old areas are classified. */
  method CellsFrom(sqrt: real -> real, contains: (seq<(real, real)>, real, real) -> bool,
                   intersects: (seq<(real, real)>, seq<(real, real)>) -> bool,
                   polyCentroid: seq<(real, real)> -> Option<(real, real)>, listing: set<nat> -> seq<nat>,
                   navAreas: map<nat, Nav.NavArea>, info: map<nat, AreaInfo>, primary: set<nat>, extra: set<nat>,
                   x0: real, y0: real, x1: real, y1: real)
    returns (cells: seq<NewNavArea>)
    requires IsSqrt(sqrt) && PolygonOracles(contains, intersects, polyCentroid) && IsEnumeration(listing)
    requires InfoOf(navAreas, info)
    requires primary == Primaries(contains, info, Mid(x0, x1), Mid(y0, y1))
    requires extra == Extras(contains, intersects, info, Mid(x0, x1), Mid(y0, y1), CellPolygon(x0, y0, x1, y1))
    ensures primary == {} && extra == {} ==> cells == []
    ensures primary != {} ==>
              && |cells| == |listing(primary)|
              && forall k :: 0 <= k < |cells| ==>
                   listing(primary)[k] in primary && cells[k] == CellFor(sqrt, navAreas, info, listing(primary)[k], extra, x0, y0, x1, y1)
    ensures primary == {} && extra != {} ==>
              && |cells| == 1
              && cells[0] == CellFor(sqrt, navAreas, info,
                                     NearestExtraOf(sqrt, contains, intersects, polyCentroid, listing, navAreas, info,
                                                    Mid(x0, x1), Mid(y0, y1), CellPolygon(x0, y0, x1, y1)),
                                     extra, x0, y0, x1, y1)
    ensures forall k :: 0 <= k < |cells| ==> WellFormedCell(navAreas, cells[k])
  {
    if primary == {} && extra == {} {
      return [];
    }
    var cx, cy := Mid(x0, x1), Mid(y0, y1);
    var primaries := ChoosePrimaries(sqrt, contains, intersects, polyCentroid, listing, navAreas, info, primary, extra,
                                     cx, cy, CellPolygon(x0, y0, x1, y1));
    cells := BuildCells(sqrt, listing, navAreas, info, primaries, extra, x0, y0, x1, y1);
    if primary == {} {
      assert cells[0] == CellFor(sqrt, navAreas, info, primaries[0], extra, x0, y0, x1, y1);
    }
  }

  /** The areas that get a cell: every primary in set order, or else the extra area nearest the centre. */
  method ChoosePrimaries(sqrt: real -> real, contains: (seq<(real, real)>, real, real) -> bool,
                         intersects: (seq<(real, real)>, seq<(real, real)>) -> bool,
                         polyCentroid: seq<(real, real)> -> Option<(real, real)>, listing: set<nat> -> seq<nat>,
                         navAreas: map<nat, Nav.NavArea>, info: map<nat, AreaInfo>, primary: set<nat>, extra: set<nat>,
                         cx: real, cy: real, cell: seq<(real, real)>) returns (primaries: seq<nat>)
    requires IsSqrt(sqrt) && PolygonOracles(contains, intersects, polyCentroid) && IsEnumeration(listing)
    requires InfoOf(navAreas, info)
    requires primary == Primaries(contains, info, cx, cy) && extra == Extras(contains, intersects, info, cx, cy, cell)
    requires primary != {} || extra != {}
    ensures primary != {} ==> primaries == listing(primary) && forall k :: 0 <= k < |primaries| ==> primaries[k] in primary
    ensures primary == {} ==>
              && |primaries| == 1 && primaries[0] in extra
              && primaries[0] == NearestExtraOf(sqrt, contains, intersects, polyCentroid, listing, navAreas, info, cx, cy, cell)
    ensures forall p :: p in primaries ==> p in navAreas && |navAreas[p].corners| > 0
  {
    if primary == {} {
      var extraList := listing(extra);
      ExtrasHaveCentroids(sqrt, contains, intersects, polyCentroid, listing, navAreas, info, cx, cy, cell);
      primaries := [NearestExtra(sqrt, polyCentroid, info, extraList, cx, cy)];
    } else {
      primaries := listing(primary);
      assert forall x :: x in primaries <==> x in primary;
    }
    forall p | p in primaries ensures p in navAreas && |navAreas[p].corners| > 0 {
      assert p in primary || p in extra;
      UsedAreaHasCorners(contains, intersects, polyCentroid, navAreas, info, p, cx, cy, cell);
    }
  }

  /** The loop over the chosen areas, one cell each. */
  method BuildCells(sqrt: real -> real, listing: set<nat> -> seq<nat>, navAreas: map<nat, Nav.NavArea>, info: map<nat, AreaInfo>,
                    primaries: seq<nat>, extra: set<nat>, x0: real, y0: real, x1: real, y1: real)
    returns (cells: seq<NewNavArea>)
    requires IsSqrt(sqrt) && IsEnumeration(listing) && info.Keys == navAreas.Keys && extra <= info.Keys
    requires forall p :: p in primaries ==> p in navAreas && |navAreas[p].corners| > 0
    ensures |cells| == |primaries|
    ensures forall m :: 0 <= m < |cells| ==> cells[m] == CellFor(sqrt, navAreas, info, primaries[m], extra, x0, y0, x1, y1)
    ensures forall m :: 0 <= m < |cells| ==> WellFormedCell(navAreas, cells[m])
  {
    var extraList := listing(extra);
    assert SetOf(extraList) == extra;
    cells := [];
    var k := 0;
    while k < |primaries|
      invariant 0 <= k <= |primaries| && |cells| == k
      invariant forall m :: 0 <= m < k ==> cells[m] == CellFor(sqrt, navAreas, info, primaries[m], extra, x0, y0, x1, y1)
    {
      var c := BuildCell(sqrt, navAreas, info, primaries[k], extra, extraList, x0, y0, x1, y1);
      cells := cells + [c];
      k := k + 1;
    }
    forall m | 0 <= m < |cells| ensures WellFormedCell(navAreas, cells[m]) {
      CellForWellFormed(sqrt, navAreas, info, primaries[m], extra, x0, y0, x1, y1);
    }
  }

  /** The body of the loop over the chosen areas: the interpolated height, the origins, the cell. */
  method BuildCell(sqrt: real -> real, navAreas: map<nat, Nav.NavArea>, info: map<nat, AreaInfo>,
                   p: nat, extra: set<nat>, extraList: seq<nat>, x0: real, y0: real, x1: real, y1: real) returns (c: NewNavArea)
    requires IsSqrt(sqrt) && p in navAreas && |navAreas[p].corners| > 0 && extra <= info.Keys && SetOf(extraList) == extra
    ensures c == CellFor(sqrt, navAreas, info, p, extra, x0, y0, x1, y1)
  {
    var a := navAreas[p];
    var z := CellHeight(sqrt, a.corners, Mid(x0, x1), Mid(y0, y1));
    var origins := CollectOrigins(p, z, extraList, info);
    c := MakeNewNavArea(CellCorners(x0, y0, x1, y1, RepLevel(z)), origins, SetOf(a.laddersAbove), SetOf(a.laddersBelow), a.flags, {});
    CellForAtHeight(sqrt, navAreas, info, p, extra, x0, y0, x1, y1, z);
  }

  lemma CellForAtHeight(sqrt: real -> real, navAreas: map<nat, Nav.NavArea>, info: map<nat, AreaInfo>,
                        p: nat, extra: set<nat>, x0: real, y0: real, x1: real, y1: real, z: real)
    requires IsSqrt(sqrt) && p in navAreas && extra <= info.Keys
    requires z == IdwValue(sqrt, navAreas[p].corners, Mid(x0, x1), Mid(y0, y1))
    ensures CellFor(sqrt, navAreas, info, p, extra, x0, y0, x1, y1) == CellAtHeight(navAreas[p], info, p, z, extra, x0, y0, x1, y1)
  {
  }

  /** `inverse_distance_weighting` at the cell centre, seen only through the value it computes. */
  method CellHeight(sqrt: real -> real, corners: seq<Position>, cx: real, cy: real) returns (z: real)
    requires IsSqrt(sqrt) && |corners| > 0
    ensures z == IdwValue(sqrt, corners, cx, cy)
  {
    z := InverseDistanceWeighting(sqrt, corners, cx, cy);
  }

  // ---------------------------------------------------------------------
  // Numbering the cells and mapping old areas to them.

  /** Old area `o` maps to exactly the indices of the cells it is an origin of. */
  ghost predicate MapsOrigins(m: map<nat, set<nat>>, cells: seq<NewNavArea>) {
    && (forall o :: o in m <==> exists i :: 0 <= i < |cells| && o in cells[i].origIds)
    && (forall o :: o in m ==> m[o] == set i | 0 <= i < |cells| && o in cells[i].origIds)
  }

  /**
   * `build_old_to_new_mapping`: gives cell i the id i and maps each old
   * area id to the set of cells it is an origin of.
   */
  method BuildOldToNewMapping(listing: set<nat> -> seq<nat>, cells: array<NewNavArea>) returns (m: map<nat, set<nat>>)
    requires IsEnumeration(listing)
    modifies cells
    ensures forall i :: 0 <= i < cells.Length ==> cells[i] == old(cells[i]).(areaId := i)
    ensures MapsOrigins(m, cells[..])
  {
    m := map[];
    var idx := 0;
    while idx < cells.Length
      invariant 0 <= idx <= cells.Length
      invariant forall i :: 0 <= i < idx ==> cells[i] == old(cells[i]).(areaId := i)
      invariant forall i :: idx <= i < cells.Length ==> cells[i] == old(cells[i])
      invariant MapsOrigins(m, cells[..idx])
    {
      ghost var done := cells[..idx];
      cells[idx] := cells[idx].(areaId := idx);
      ghost var now := cells[..idx + 1];
      assert now == done + [cells[idx]];
      ghost var before := m;
      var origins := listing(cells[idx].origIds);
      assert SetOf(origins) == cells[idx].origIds;
      m := AddOrigins(m, origins, idx);
      MappingStep(before, m, now, idx);
      idx := idx + 1;
    }
    assert cells[..idx] == cells[..];
  }

  /** The mapping after cell `idx` has been added to the entry of every old area in `s`. */
  ghost function WithCell(m0: map<nat, set<nat>>, s: set<nat>, idx: nat): map<nat, set<nat>> {
    map o | o in m0.Keys + s :: (if o in m0 then m0[o] else {}) + (if o in s then {idx} else {})
  }

  /** One step of the inner loop: old area `o` gains cell `idx` (its entry created empty when missing). */
  function Bump(m: map<nat, set<nat>>, o: nat, idx: nat): map<nat, set<nat>> {
    m[o := (if o in m then m[o] else {}) + {idx}]
  }

  lemma WithCellEmpty(m0: map<nat, set<nat>>, idx: nat)
    ensures WithCell(m0, {}, idx) == m0
  {
    var w := WithCell(m0, {}, idx);
    assert w.Keys == m0.Keys;
    forall k | k in w ensures w[k] == m0[k] {
    }
  }

  lemma WithCellAdd(m0: map<nat, set<nat>>, s: set<nat>, o: nat, idx: nat)
    ensures WithCell(m0, s + {o}, idx) == Bump(WithCell(m0, s, idx), o, idx)
  {
    var l := WithCell(m0, s + {o}, idx);
    var w := WithCell(m0, s, idx);
    var r := Bump(w, o, idx);
    assert l.Keys == r.Keys;
    forall k | k in l ensures l[k] == r[k] {
      if k == o {
      } else {
        assert l[k] == w[k];
      }
    }
  }

  /** The inner loop: each origin of cell `idx`, in set order, gains `idx` in its entry. */
  method AddOrigins(m0: map<nat, set<nat>>, origins: seq<nat>, idx: nat) returns (m: map<nat, set<nat>>)
    ensures m == WithCell(m0, SetOf(origins), idx)
  {
    m := m0;
    WithCellEmpty(m0, idx);
    for i := 0 to |origins|
      invariant m == WithCell(m0, SetOf(origins[..i]), idx)
    {
      WithCellAdd(m0, SetOf(origins[..i]), origins[i], idx);
      assert SetOf(origins[..i + 1]) == SetOf(origins[..i]) + {origins[i]} by {
        assert origins[..i + 1] == origins[..i] + [origins[i]];
      }
      m := Bump(m, origins[i], idx);
    }
    assert origins[..|origins|] == origins;
  }

  lemma MappingStep(before: map<nat, set<nat>>, m: map<nat, set<nat>>, cells: seq<NewNavArea>, idx: nat)
    requires |cells| == idx + 1 && MapsOrigins(before, cells[..idx])
    requires m == WithCell(before, cells[idx].origIds, idx)
    ensures MapsOrigins(m, cells)
  {
    forall o | o in m ensures m[o] == set i | 0 <= i < |cells| && o in cells[i].origIds {
      assert forall i :: 0 <= i < idx ==> cells[..idx][i] == cells[i];
    }
    forall o | (exists i :: 0 <= i < |cells| && o in cells[i].origIds) ensures o in m {
      var i :| 0 <= i < |cells| && o in cells[i].origIds;
      if i < idx {
        assert cells[..idx][i] == cells[i];
      }
    }
    forall o | o in m ensures exists i :: 0 <= i < |cells| && o in cells[i].origIds {
      if o in before {
        var i :| 0 <= i < idx && o in cells[..idx][i].origIds;
        assert cells[i] == cells[..idx][i];
      } else {
        assert o in cells[idx].origIds;
      }
    }
  }

  /** Every old area that is an origin of some cell. */
  function AllOrigins(cells: seq<NewNavArea>): set<nat> {
    if cells == [] then {} else AllOrigins(cells[..|cells| - 1]) + cells[|cells| - 1].origIds
  }

  lemma {:induction false} AllOriginsIff(cells: seq<NewNavArea>, o: nat)
    ensures o in AllOrigins(cells) <==> exists i :: 0 <= i < |cells| && o in cells[i].origIds
  {
    if cells != [] {
      var n := |cells| - 1;
      AllOriginsIff(cells[..n], o);
      if o in AllOrigins(cells[..n]) {
        var i :| 0 <= i < n && o in cells[..n][i].origIds;
        assert cells[i] == cells[..n][i];
      }
      if exists i :: 0 <= i < |cells| && o in cells[i].origIds {
        var i :| 0 <= i < |cells| && o in cells[i].origIds;
        if i < n {
          assert cells[..n][i] == cells[i];
        }
      }
    }
  }

  /** The old-to-new mapping of a sequence of cells, as a function of the cells. */
  ghost function OldToNew(cells: seq<NewNavArea>): map<nat, set<nat>> {
    map o | o in AllOrigins(cells) :: set i | 0 <= i < |cells| && o in cells[i].origIds
  }

  /** `OldToNew` is a mapping of the cells, and it names only cells. */
  lemma OldToNewMaps(cells: seq<NewNavArea>)
    ensures MapsOrigins(OldToNew(cells), cells)
    ensures forall o, c :: o in OldToNew(cells) && c in OldToNew(cells)[o] ==> c < |cells|
  {
    forall o: nat ensures o in AllOrigins(cells) <==> exists i :: 0 <= i < |cells| && o in cells[i].origIds {
      AllOriginsIff(cells, o);
    }
  }

  /** The mapping the numbering pass builds is the only one there is. */
  lemma MapsOriginsUnique(m: map<nat, set<nat>>, cells: seq<NewNavArea>)
    requires MapsOrigins(m, cells)
    ensures m == OldToNew(cells)
  {
    OldToNewMaps(cells);
    forall o ensures o in m <==> o in OldToNew(cells) {
      AllOriginsIff(cells, o);
    }
  }

  // ---------------------------------------------------------------------
  // The grid pass.

  function SeqMin(s: seq<real>): (r: real)
    requires |s| > 0
    ensures r in s && forall i :: 0 <= i < |s| ==> r <= s[i]
  {
    if |s| == 1 then s[0] else Min(s[0], SeqMin(s[1..]))
  }

  function SeqMax(s: seq<real>): (r: real)
    requires |s| > 0
    ensures r in s && forall i :: 0 <= i < |s| ==> s[i] <= r
  {
    if |s| == 1 then s[0] else Max(s[0], SeqMax(s[1..]))
  }

  /**
   * `create_new_nav_areas`: a `grid` by `grid` partition of the bounding
   * box of all corners, row by row; each cell contributes the cells of
   * `CellsAt`; then the cells are numbered and the old-to-new mapping
   * built.
   */
  method CreateNewNavAreas(sqrt: real -> real, contains: (seq<(real, real)>, real, real) -> bool,
                           intersects: (seq<(real, real)>, seq<(real, real)>) -> bool,
                           polyCentroid: seq<(real, real)> -> Option<(real, real)>, listing: set<nat> -> seq<nat>,
                           navAreas: map<nat, Nav.NavArea>, grid: nat, xs: seq<real>, ys: seq<real>,
                           info: map<nat, AreaInfo>, ids: seq<nat>)
    returns (cells: array<NewNavArea>, mapping: map<nat, set<nat>>)
    requires IsSqrt(sqrt) && PolygonOracles(contains, intersects, polyCentroid) && IsEnumeration(listing)
    requires InfoOf(navAreas, info) && Nav.Listing(info, ids)
    requires |xs| > 0 && |ys| > 0
    ensures fresh(cells)
    ensures forall i :: 0 <= i < cells.Length ==> cells[i].areaId == i && WellFormedCell(navAreas, cells[i])
    ensures MapsOrigins(mapping, cells[..])
    ensures grid == 0 ==> cells.Length == 0
    ensures grid > 0 ==>
              var g := GridCells(sqrt, contains, intersects, polyCentroid, listing, navAreas, info,
                                 SeqMin(xs), SeqMin(ys), CellSize(SeqMin(xs), SeqMax(xs), grid),
                                 CellSize(SeqMin(ys), SeqMax(ys), grid), grid, grid);
              cells.Length == |g| && forall k :: 0 <= k < |g| ==> cells[k] == g[k].(areaId := k)
  {
    var newCells := GridPass(sqrt, contains, intersects, polyCentroid, listing, navAreas, grid, xs, ys, info, ids);
    cells := new NewNavArea[|newCells|](k requires 0 <= k < |newCells| => newCells[k]);
    ghost var unnumbered := cells[..];
    assert unnumbered == newCells;
    assert forall k :: 0 <= k < cells.Length ==> WellFormedCell(navAreas, unnumbered[k]);
    mapping := BuildOldToNewMapping(listing, cells);
    forall k | 0 <= k < cells.Length ensures WellFormedCell(navAreas, cells[k]) {
      NumberingKeepsWellFormed(navAreas, unnumbered[k], k);
    }
  }

  lemma GridCellsStep(sqrt: real -> real, contains: (seq<(real, real)>, real, real) -> bool,
                      intersects: (seq<(real, real)>, seq<(real, real)>) -> bool,
                      polyCentroid: seq<(real, real)> -> Option<(real, real)>, listing: set<nat> -> seq<nat>,
                      navAreas: map<nat, Nav.NavArea>, info: map<nat, AreaInfo>,
                      minX: real, minY: real, width: real, height: real, n: nat, i: nat)
    requires IsSqrt(sqrt) && PolygonOracles(contains, intersects, polyCentroid) && IsEnumeration(listing)
    requires InfoOf(navAreas, info)
    ensures GridCells(sqrt, contains, intersects, polyCentroid, listing, navAreas, info, minX, minY, width, height, n, i + 1)
            == GridCells(sqrt, contains, intersects, polyCentroid, listing, navAreas, info, minX, minY, width, height, n, i)
               + RowCells(sqrt, contains, intersects, polyCentroid, listing, navAreas, info, minX, minY, width, height, i, n)
  {
  }

  /** `CellsAt`, seen only through the cells it gives. */
  method GridCellAt(sqrt: real -> real, contains: (seq<(real, real)>, real, real) -> bool,
                    intersects: (seq<(real, real)>, seq<(real, real)>) -> bool,
                    polyCentroid: seq<(real, real)> -> Option<(real, real)>, listing: set<nat> -> seq<nat>,
                    navAreas: map<nat, Nav.NavArea>, info: map<nat, AreaInfo>, ids: seq<nat>,
                    minX: real, minY: real, cellWidth: real, cellHeight: real, i: nat, j: nat)
    returns (cells: seq<NewNavArea>)
    requires IsSqrt(sqrt) && PolygonOracles(contains, intersects, polyCentroid) && IsEnumeration(listing)
    requires InfoOf(navAreas, info) && Nav.Listing(info, ids)
    ensures cells == GridSquare(sqrt, contains, intersects, polyCentroid, listing, navAreas, info, minX, minY, cellWidth, cellHeight, i, j)
    ensures forall k :: 0 <= k < |cells| ==> WellFormedCell(navAreas, cells[k])
  {
    var x0, y0 := CellMin(minX, j, cellWidth), CellMin(minY, i, cellHeight);
    var x1, y1 := CellMax(minX, j, cellWidth), CellMax(minY, i, cellHeight);
    var c, _, _ := CellsAt(sqrt, contains, intersects, polyCentroid, listing, navAreas, info, ids, x0, y0, x1, y1);
    cells := c;
  }

  /** The loops of the grid pass: the cells of every grid cell, row by row. */
  method GridPass(sqrt: real -> real, contains: (seq<(real, real)>, real, real) -> bool,
                  intersects: (seq<(real, real)>, seq<(real, real)>) -> bool,
                  polyCentroid: seq<(real, real)> -> Option<(real, real)>, listing: set<nat> -> seq<nat>,
                  navAreas: map<nat, Nav.NavArea>, grid: nat, xs: seq<real>, ys: seq<real>,
                  info: map<nat, AreaInfo>, ids: seq<nat>)
    returns (newCells: seq<NewNavArea>)
    requires IsSqrt(sqrt) && PolygonOracles(contains, intersects, polyCentroid) && IsEnumeration(listing)
    requires InfoOf(navAreas, info) && Nav.Listing(info, ids)
    requires |xs| > 0 && |ys| > 0
    ensures grid == 0 ==> newCells == []
    ensures grid > 0 ==>
              newCells == GridCells(sqrt, contains, intersects, polyCentroid, listing, navAreas, info,
                                    SeqMin(xs), SeqMin(ys), CellSize(SeqMin(xs), SeqMax(xs), grid),
                                    CellSize(SeqMin(ys), SeqMax(ys), grid), grid, grid)
    ensures forall k :: 0 <= k < |newCells| ==> WellFormedCell(navAreas, newCells[k])
  {
    newCells := [];
    if grid > 0 {
      var minX, maxX, minY, maxY := SeqMin(xs), SeqMax(xs), SeqMin(ys), SeqMax(ys);
      newCells := RowsPass(sqrt, contains, intersects, polyCentroid, listing, navAreas, info, ids,
                           minX, minY, CellSize(minX, maxX, grid), CellSize(minY, maxY, grid), grid);
    }
  }

  /** The outer loop of the grid pass: row after row. */
  method RowsPass(sqrt: real -> real, contains: (seq<(real, real)>, real, real) -> bool,
                  intersects: (seq<(real, real)>, seq<(real, real)>) -> bool,
                  polyCentroid: seq<(real, real)> -> Option<(real, real)>, listing: set<nat> -> seq<nat>,
                  navAreas: map<nat, Nav.NavArea>, info: map<nat, AreaInfo>, ids: seq<nat>,
                  minX: real, minY: real, cellWidth: real, cellHeight: real, grid: nat)
    returns (newCells: seq<NewNavArea>)
    requires IsSqrt(sqrt) && PolygonOracles(contains, intersects, polyCentroid) && IsEnumeration(listing)
    requires InfoOf(navAreas, info) && Nav.Listing(info, ids)
    ensures newCells == GridCells(sqrt, contains, intersects, polyCentroid, listing, navAreas, info,
                                  minX, minY, cellWidth, cellHeight, grid, grid)
    ensures forall k :: 0 <= k < |newCells| ==> WellFormedCell(navAreas, newCells[k])
  {
    newCells := [];
    var i := 0;
    while i < grid
      invariant 0 <= i <= grid
      invariant forall k :: 0 <= k < |newCells| ==> WellFormedCell(navAreas, newCells[k])
      invariant newCells == GridCells(sqrt, contains, intersects, polyCentroid, listing, navAreas, info,
                                      minX, minY, cellWidth, cellHeight, grid, i)
    {
      var row := RowPass(sqrt, contains, intersects, polyCentroid, listing, navAreas, info, ids,
                         minX, minY, cellWidth, cellHeight, i, grid);
      GridCellsStep(sqrt, contains, intersects, polyCentroid, listing, navAreas, info, minX, minY, cellWidth, cellHeight, grid, i);
      newCells := newCells + row;
      i := i + 1;
    }
  }

  /** The inner loop of the grid pass: the cells of row `i`, left to right. */
  method RowPass(sqrt: real -> real, contains: (seq<(real, real)>, real, real) -> bool,
                 intersects: (seq<(real, real)>, seq<(real, real)>) -> bool,
                 polyCentroid: seq<(real, real)> -> Option<(real, real)>, listing: set<nat> -> seq<nat>,
                 navAreas: map<nat, Nav.NavArea>, info: map<nat, AreaInfo>, ids: seq<nat>,
                 minX: real, minY: real, cellWidth: real, cellHeight: real, i: nat, grid: nat)
    returns (row: seq<NewNavArea>)
    requires IsSqrt(sqrt) && PolygonOracles(contains, intersects, polyCentroid) && IsEnumeration(listing)
    requires InfoOf(navAreas, info) && Nav.Listing(info, ids)
    ensures row == RowCells(sqrt, contains, intersects, polyCentroid, listing, navAreas, info,
                            minX, minY, cellWidth, cellHeight, i, grid)
    ensures forall k :: 0 <= k < |row| ==> WellFormedCell(navAreas, row[k])
  {
    row := [];
    var j := 0;
    while j < grid
      invariant 0 <= j <= grid
      invariant forall k :: 0 <= k < |row| ==> WellFormedCell(navAreas, row[k])
      invariant row == RowCells(sqrt, contains, intersects, polyCentroid, listing, navAreas, info,
                                minX, minY, cellWidth, cellHeight, i, j)
    {
      row := RowStep(sqrt, contains, intersects, polyCentroid, listing, navAreas, info, ids,
                     minX, minY, cellWidth, cellHeight, i, j, row);
      j := j + 1;
    }
  }

  /** One turn of the inner loop: grid cell `j` of row `i`, its cells appended to the row. */
  method RowStep(sqrt: real -> real, contains: (seq<(real, real)>, real, real) -> bool,
                 intersects: (seq<(real, real)>, seq<(real, real)>) -> bool,
                 polyCentroid: seq<(real, real)> -> Option<(real, real)>, listing: set<nat> -> seq<nat>,
                 navAreas: map<nat, Nav.NavArea>, info: map<nat, AreaInfo>, ids: seq<nat>,
                 minX: real, minY: real, cellWidth: real, cellHeight: real, i: nat, j: nat, row0: seq<NewNavArea>)
    returns (row: seq<NewNavArea>)
    requires IsSqrt(sqrt) && PolygonOracles(contains, intersects, polyCentroid) && IsEnumeration(listing)
    requires InfoOf(navAreas, info) && Nav.Listing(info, ids)
    requires row0 == RowCells(sqrt, contains, intersects, polyCentroid, listing, navAreas, info,
                              minX, minY, cellWidth, cellHeight, i, j)
    requires forall k :: 0 <= k < |row0| ==> WellFormedCell(navAreas, row0[k])
    ensures row == RowCells(sqrt, contains, intersects, polyCentroid, listing, navAreas, info,
                            minX, minY, cellWidth, cellHeight, i, j + 1)
    ensures forall k :: 0 <= k < |row| ==> WellFormedCell(navAreas, row[k])
  {
    var here := GridCellAt(sqrt, contains, intersects, polyCentroid, listing, navAreas, info, ids, minX, minY, cellWidth, cellHeight, i, j);
    RowCellsStep(sqrt, contains, intersects, polyCentroid, listing, navAreas, info, minX, minY, cellWidth, cellHeight, i, j);
    row := row0 + here;
  }


  lemma NumberingKeepsWellFormed(navAreas: map<nat, Nav.NavArea>, c: NewNavArea, i: nat)
    requires WellFormedCell(navAreas, c)
    ensures WellFormedCell(navAreas, c.(areaId := i))
  {
    var p :| p in c.origIds && c.flags == navAreas[p].flags
             && c.laddersAbove == SetOf(navAreas[p].laddersAbove) && c.laddersBelow == SetOf(navAreas[p].laddersBelow);
    assert p in c.(areaId := i).origIds;
  }

  // ---------------------------------------------------------------------
  // Connections by reachability.

  /**
   * Whether the reachability pass links `a` to `b`: a different id not
   * yet connected, and either a ladder leads from one to the other or `b`'s
   * centroid can be jumped to from `a`'s and the way is walkable.
   */
  predicate Links(sqrt: real -> real, walkable: (NewNavArea, NewNavArea) -> bool, a: NewNavArea, b: NewNavArea)
    requires IsSqrt(sqrt)
  {
    && a.areaId != b.areaId
    && b.areaId !in a.connections
    && (|| !(a.laddersAbove !! b.laddersBelow)
        || !(a.laddersBelow !! b.laddersAbove)
        || (CanJumpTo(sqrt, a.centroid, b.centroid) && walkable(a, b)))
  }

  /** The ids the reachability pass adds to `a`, judged against the cells as they were before the pass. */
  ghost function Reachable(sqrt: real -> real, walkable: (NewNavArea, NewNavArea) -> bool,
                           cells: seq<NewNavArea>, a: NewNavArea): set<nat>
    requires IsSqrt(sqrt)
  {
    set j | 0 <= j < |cells| && Links(sqrt, walkable, a, cells[j]) :: cells[j].areaId
  }

  /**
   * The pass never links an area to its own id, always links (or already
   * had) an area whose ladders meet, and adds only ids of cells.
   */
  lemma ReachableLaws(sqrt: real -> real, walkable: (NewNavArea, NewNavArea) -> bool,
                      cells: seq<NewNavArea>, a: NewNavArea, j: nat)
    requires IsSqrt(sqrt) && j < |cells|
    ensures a.areaId !in Reachable(sqrt, walkable, cells, a)
    ensures forall x :: x in Reachable(sqrt, walkable, cells, a) ==> exists k :: 0 <= k < |cells| && cells[k].areaId == x
    ensures cells[j].areaId != a.areaId && !(a.laddersAbove !! cells[j].laddersBelow) ==>
              cells[j].areaId in a.connections + Reachable(sqrt, walkable, cells, a)
    ensures cells[j].areaId != a.areaId && !(a.laddersBelow !! cells[j].laddersAbove) ==>
              cells[j].areaId in a.connections + Reachable(sqrt, walkable, cells, a)
  {
    if cells[j].areaId != a.areaId && cells[j].areaId !in a.connections && Links(sqrt, walkable, a, cells[j]) {
      assert cells[j].areaId in Reachable(sqrt, walkable, cells, a);
    }
  }

  /**
   * `add_connections_by_reachability`: first the ids each area can reach
   * among all areas, then each area's connections extended by them.
   */
  method AddConnectionsByReachability(sqrt: real -> real, walkable: (NewNavArea, NewNavArea) -> bool,
                                      cells: array<NewNavArea>)
    requires IsSqrt(sqrt)
    modifies cells
    ensures forall i :: 0 <= i < cells.Length ==>
              cells[i] == old(cells[i]).(connections := old(cells[i]).connections + Reachable(sqrt, walkable, old(cells[..]), old(cells[i])))
    ensures cells[..] == ReachPass(sqrt, walkable, old(cells[..]))
  {
    ghost var snapshot := cells[..];
    var newConnections: seq<set<nat>> := [];
    var i := 0;
    while i < cells.Length
      invariant 0 <= i <= cells.Length && |newConnections| == i
      invariant cells[..] == snapshot
      invariant forall k :: 0 <= k < i ==> newConnections[k] == Reachable(sqrt, walkable, snapshot, snapshot[k])
    {
      var area := cells[i];
      var conns: set<nat> := {};
      var j := 0;
      while j < cells.Length
        invariant 0 <= j <= cells.Length
        invariant conns == set m | 0 <= m < j && Links(sqrt, walkable, area, snapshot[m]) :: snapshot[m].areaId
      {
        var other := cells[j];
        if area.areaId != other.areaId && other.areaId !in area.connections {
          if || !(area.laddersAbove !! other.laddersBelow)
             || !(area.laddersBelow !! other.laddersAbove)
             || (CanJumpTo(sqrt, area.centroid, other.centroid) && walkable(area, other)) {
            conns := conns + {other.areaId};
          }
        }
        j := j + 1;
      }
      newConnections := newConnections + [conns];
      i := i + 1;
    }
    i := 0;
    while i < cells.Length
      invariant 0 <= i <= cells.Length
      invariant forall k :: 0 <= k < i ==> cells[k] == snapshot[k].(connections := snapshot[k].connections + newConnections[k])
      invariant forall k :: i <= k < cells.Length ==> cells[k] == snapshot[k]
    {
      cells[i] := cells[i].(connections := cells[i].connections + newConnections[i]);
      i := i + 1;
    }
  }

  /** The cells after the reachability pass. */
  ghost function ReachPass(sqrt: real -> real, walkable: (NewNavArea, NewNavArea) -> bool,
                           cells: seq<NewNavArea>): seq<NewNavArea>
    requires IsSqrt(sqrt)
  {
    seq(|cells|, i requires 0 <= i < |cells| =>
      cells[i].(connections := cells[i].connections + Reachable(sqrt, walkable, cells, cells[i])))
  }

  // ---------------------------------------------------------------------
  // Carrying old connections over.

  /** Every cell index the mapping names is a cell. */
  ghost predicate MappingInRange(mapping: map<nat, set<nat>>, n: nat) {
    forall o, c :: o in mapping && c in mapping[o] ==> c < n
  }

  /** Everything the cells in `cs` connect to. */
  function ConnectionsOf(cells: seq<NewNavArea>, cs: set<nat>): set<nat>
    requires forall c :: c in cs ==> c < |cells|
  {
    set c, x | c in cs && x in cells[c].connections :: x
  }

  /** The children of an old area are already linked to the children of its neighbour: some neighbour child is one of them or a connection of one. */
  predicate AlreadyLinked(cells: seq<NewNavArea>, children: set<nat>, neighbourChildren: set<nat>)
    requires forall c :: c in children ==> c < |cells|
  {
    exists x :: x in neighbourChildren && x in children + ConnectionsOf(cells, children)
  }

  /** `iproduct!`: every pair, the first component varying slowest. */
  function Pairs(xs: seq<nat>, ys: seq<nat>): (ps: seq<(nat, nat)>)
    ensures |ps| == |xs| * |ys|
    ensures forall p :: p in ps <==> p.0 in xs && p.1 in ys
  {
    if xs == [] then []
    else
      var row := seq(|ys|, k requires 0 <= k < |ys| => (xs[0], ys[k]));
      var rest := Pairs(xs[1..], ys);
      RowPairs(xs[0], ys, row);
      assert forall y :: y in xs <==> y == xs[0] || y in xs[1..];
      row + rest
  }

  lemma RowPairs(x: nat, ys: seq<nat>, row: seq<(nat, nat)>)
    requires |row| == |ys| && forall k :: 0 <= k < |ys| ==> row[k] == (x, ys[k])
    ensures forall p :: p in row <==> p.0 == x && p.1 in ys
  {
    forall p: (nat, nat) | p.0 == x && p.1 in ys ensures p in row {
      var k :| 0 <= k < |ys| && ys[k] == p.1;
      assert row[k] == p;
    }
  }

  /** The 2-D distance between the centroids of the two cells of a pair. */
  function PairDistance(sqrt: real -> real, cells: seq<NewNavArea>, p: (nat, nat)): real
    requires IsSqrt(sqrt) && p.0 < |cells| && p.1 < |cells|
  {
    Distance2D(sqrt, cells[p.0].centroid, cells[p.1].centroid)
  }

  /** Pairs ordered by their centroid distance (pairs outside the cells, which do not occur, come last). */
  function Closer(sqrt: real -> real, cells: seq<NewNavArea>): ((nat, nat), (nat, nat)) -> bool
    requires IsSqrt(sqrt)
  {
    (p: (nat, nat), q: (nat, nat)) =>
      if p.0 < |cells| && p.1 < |cells| && q.0 < |cells| && q.1 < |cells|
      then PairDistance(sqrt, cells, p) <= PairDistance(sqrt, cells, q)
      else !(q.0 < |cells| && q.1 < |cells|)
  }

  lemma CloserIsTotalPreorder(sqrt: real -> real, cells: seq<NewNavArea>)
    requires IsSqrt(sqrt)
    ensures Sorting.TotalPreorder(Closer(sqrt, cells))
  {
  }

  /** All child pairs, listed child by child, in the order of the stable sort by centroid distance. */
  function SortedPairs(sqrt: real -> real, listing: set<nat> -> seq<nat>, cells: seq<NewNavArea>,
                       children: set<nat>, neighbourChildren: set<nat>): (sorted: seq<(nat, nat)>)
    requires IsSqrt(sqrt) && IsEnumeration(listing)
    ensures Sorting.SortedBy(sorted, Closer(sqrt, cells))
    ensures forall p :: p in sorted <==> p.0 in children && p.1 in neighbourChildren
  {
    CloserIsTotalPreorder(sqrt, cells);
    var all := Pairs(listing(children), listing(neighbourChildren));
    var sorted := Sorting.SortBy(all, Closer(sqrt, cells));
    forall p ensures p in sorted <==> p in all {
      assert p in sorted <==> p in multiset(sorted);
      assert p in all <==> p in multiset(all);
    }
    sorted
  }

  /** The pairs the pass links: the (at most) three nearest of all child pairs, after a stable sort. */
  function NearestPairs(sqrt: real -> real, listing: set<nat> -> seq<nat>, cells: seq<NewNavArea>,
                        children: set<nat>, neighbourChildren: set<nat>): (ps: seq<(nat, nat)>)
    requires IsSqrt(sqrt) && IsEnumeration(listing)
    ensures |ps| <= 3
    ensures forall k :: 0 <= k < |ps| ==> ps[k].0 in children && ps[k].1 in neighbourChildren
  {
    var sorted := SortedPairs(sqrt, listing, cells, children, neighbourChildren);
    assert forall k :: 0 <= k < |sorted| ==> sorted[k] in sorted;
    if |sorted| <= 3 then sorted else sorted[..3]
  }

  /** In a sequence sorted by centroid distance, every entry before position `m` is no farther than entry `m`. */
  lemma SortedPrefixNearer(sqrt: real -> real, cells: seq<NewNavArea>, sorted: seq<(nat, nat)>, m: nat)
    requires IsSqrt(sqrt) && Sorting.SortedBy(sorted, Closer(sqrt, cells)) && m < |sorted|
    requires forall k :: 0 <= k < |sorted| ==> sorted[k].0 < |cells| && sorted[k].1 < |cells|
    ensures forall k :: 0 <= k < m ==> PairDistance(sqrt, cells, sorted[k]) <= PairDistance(sqrt, cells, sorted[m])
  {
    forall k | 0 <= k < m ensures PairDistance(sqrt, cells, sorted[k]) <= PairDistance(sqrt, cells, sorted[m]) {
      assert Closer(sqrt, cells)(sorted[k], sorted[m]);
    }
  }

  /** No pair left out is nearer than a pair that was linked. */
  lemma NearestPairsAreNearest(sqrt: real -> real, listing: set<nat> -> seq<nat>, cells: seq<NewNavArea>,
                               children: set<nat>, neighbourChildren: set<nat>, c: nat, d: nat)
    requires IsSqrt(sqrt) && IsEnumeration(listing)
    requires c in children && d in neighbourChildren
    requires (forall x :: x in children ==> x < |cells|) && (forall x :: x in neighbourChildren ==> x < |cells|)
    ensures var ps := NearestPairs(sqrt, listing, cells, children, neighbourChildren);
            (c, d) !in ps ==> forall k :: 0 <= k < |ps| ==> PairDistance(sqrt, cells, ps[k]) <= PairDistance(sqrt, cells, (c, d))
  {
    var sorted := SortedPairs(sqrt, listing, cells, children, neighbourChildren);
    var ps := NearestPairs(sqrt, listing, cells, children, neighbourChildren);
    assert ps == if |sorted| <= 3 then sorted else sorted[..3];
    assert (c, d) in sorted;
    var m :| 0 <= m < |sorted| && sorted[m] == (c, d);
    forall k | 0 <= k < |sorted| ensures sorted[k].0 < |cells| && sorted[k].1 < |cells| {
      assert sorted[k] in sorted;
    }
    if (c, d) !in ps {
      assert m >= |ps|;
      SortedPrefixNearer(sqrt, cells, sorted, m);
      assert forall k :: 0 <= k < |ps| ==> ps[k] == sorted[k];
    }
  }

  /** The cells the listed pairs link cell `i` to. */
  ghost function Targets(ps: seq<(nat, nat)>, i: nat): set<nat> {
    set k | 0 <= k < |ps| && ps[k].0 == i :: ps[k].1
  }

  lemma TargetsSnoc(ps: seq<(nat, nat)>, i: nat)
    requires |ps| > 0
    ensures var p := ps[|ps| - 1];
            Targets(ps, i) == Targets(ps[..|ps| - 1], i) + (if p.0 == i then {p.1} else {})
  {
    var n := |ps|;
    assert forall k :: 0 <= k < n - 1 ==> ps[..n - 1][k] == ps[k];
  }

  /** Links each listed pair: the second cell becomes a connection of the first. */
  function AddEdges(cells: seq<NewNavArea>, ps: seq<(nat, nat)>): (r: seq<NewNavArea>)
    requires forall k :: 0 <= k < |ps| ==> ps[k].0 < |cells|
    ensures |r| == |cells|
    ensures forall i :: 0 <= i < |cells| ==> r[i] == cells[i].(connections := cells[i].connections + Targets(ps, i))
  {
    if ps == [] then cells
    else
      var n := |ps|;
      var before := AddEdges(cells, ps[..n - 1]);
      var p := ps[n - 1];
      forall i | 0 <= i < |cells| {
        TargetsSnoc(ps, i);
      }
      before[p.0 := before[p.0].(connections := before[p.0].connections + {p.1})]
  }

  /** One (old area, neighbour) pair of the pass: nothing when the children are already linked, else the nearest pairs. */
  function LinkChildren(sqrt: real -> real, listing: set<nat> -> seq<nat>, cells: seq<NewNavArea>,
                        children: set<nat>, neighbourChildren: set<nat>): seq<NewNavArea>
    requires IsSqrt(sqrt) && IsEnumeration(listing)
    requires forall c :: c in children ==> c < |cells|
  {
    if AlreadyLinked(cells, children, neighbourChildren) then cells
    else AddEdges(cells, NearestPairs(sqrt, listing, cells, children, neighbourChildren))
  }

  /** The pass only changes connections, only adds to them, never shrinks the cell list. */
  ghost predicate Grows(before: seq<NewNavArea>, after: seq<NewNavArea>) {
    && |after| == |before|
    && forall i :: 0 <= i < |before| ==>
         after[i] == before[i].(connections := after[i].connections) && before[i].connections <= after[i].connections
  }

  /**
   * One pair adds nothing when already linked and otherwise at most three
   * connections, each from a child of the old area to a child of its
   * neighbour.
   */
  lemma LinkChildrenLaws(sqrt: real -> real, listing: set<nat> -> seq<nat>, cells: seq<NewNavArea>,
                         children: set<nat>, neighbourChildren: set<nat>)
    requires IsSqrt(sqrt) && IsEnumeration(listing)
    requires forall c :: c in children ==> c < |cells|
    ensures AlreadyLinked(cells, children, neighbourChildren) ==> LinkChildren(sqrt, listing, cells, children, neighbourChildren) == cells
    ensures var r := LinkChildren(sqrt, listing, cells, children, neighbourChildren);
            && Grows(cells, r)
            && exists ps: seq<(nat, nat)> ::
                 && |ps| <= 3
                 && (forall k :: 0 <= k < |ps| ==> ps[k].0 in children && ps[k].1 in neighbourChildren)
                 && forall i, x :: 0 <= i < |cells| && x in r[i].connections && x !in cells[i].connections ==> (i, x) in ps
  {
    if AlreadyLinked(cells, children, neighbourChildren) {
      var none: seq<(nat, nat)> := [];
      assert forall i, x :: 0 <= i < |cells| && x in cells[i].connections && x !in cells[i].connections ==> (i, x) in none;
    } else {
      var ps := NearestPairs(sqrt, listing, cells, children, neighbourChildren);
      AddEdgesOnlyListed(cells, ps);
    }
  }

  /** Adding the listed edges only grows connection sets, and every new connection is a listed pair. */
  lemma AddEdgesOnlyListed(cells: seq<NewNavArea>, ps: seq<(nat, nat)>)
    requires forall k :: 0 <= k < |ps| ==> ps[k].0 < |cells|
    ensures Grows(cells, AddEdges(cells, ps))
    ensures forall i, x :: 0 <= i < |cells| && x in AddEdges(cells, ps)[i].connections && x !in cells[i].connections ==> (i, x) in ps
  {
    var r := AddEdges(cells, ps);
    forall i, x | 0 <= i < |cells| && x in r[i].connections && x !in cells[i].connections ensures (i, x) in ps {
      assert x in Targets(ps, i);
      var k :| 0 <= k < |ps| && ps[k].0 == i && ps[k].1 == x;
      assert ps[k] == (i, x);
    }
  }


  /** The inner loop over an old area's neighbours ids, skipping those with no cells. */
  function LinkNeighbours(sqrt: real -> real, listing: set<nat> -> seq<nat>, cells: seq<NewNavArea>,
                          mapping: map<nat, set<nat>>, children: set<nat>, neighbours: seq<nat>): (r: seq<NewNavArea>)
    requires IsSqrt(sqrt) && IsEnumeration(listing) && MappingInRange(mapping, |cells|)
    requires forall c :: c in children ==> c < |cells|
    ensures |r| == |cells|
  {
    if neighbours == [] then cells
    else
      var n := |neighbours|;
      var before := LinkNeighbours(sqrt, listing, cells, mapping, children, neighbours[..n - 1]);
      var b := neighbours[n - 1];
      if b !in mapping then before
      else
        LinkChildrenLaws(sqrt, listing, before, children, mapping[b]);
        LinkChildren(sqrt, listing, before, children, mapping[b])
  }

  /** `ensure_inter_area_connections`, over the old areas in map order, skipping those with no cells. */
  function EnsureConnections(sqrt: real -> real, listing: set<nat> -> seq<nat>, cells: seq<NewNavArea>,
                             navAreas: map<nat, Nav.NavArea>, mapping: map<nat, set<nat>>, ids: seq<nat>): (r: seq<NewNavArea>)
    requires IsSqrt(sqrt) && IsEnumeration(listing) && MappingInRange(mapping, |cells|)
    requires forall i :: 0 <= i < |ids| ==> ids[i] in navAreas
    ensures |r| == |cells|
  {
    if ids == [] then cells
    else
      var n := |ids|;
      var before := EnsureConnections(sqrt, listing, cells, navAreas, mapping, ids[..n - 1]);
      var a := ids[n - 1];
      if a !in mapping then before
      else LinkNeighbours(sqrt, listing, before, mapping, mapping[a], navAreas[a].connections)
  }

  lemma GrowsTrans(a: seq<NewNavArea>, b: seq<NewNavArea>, c: seq<NewNavArea>)
    requires Grows(a, b) && Grows(b, c)
    ensures Grows(a, c)
  {
  }

  lemma {:induction false} LinkNeighboursGrows(sqrt: real -> real, listing: set<nat> -> seq<nat>, cells: seq<NewNavArea>,
                                               mapping: map<nat, set<nat>>, children: set<nat>, neighbours: seq<nat>)
    requires IsSqrt(sqrt) && IsEnumeration(listing) && MappingInRange(mapping, |cells|)
    requires forall c :: c in children ==> c < |cells|
    ensures Grows(cells, LinkNeighbours(sqrt, listing, cells, mapping, children, neighbours))
  {
    if neighbours != [] {
      var n := |neighbours|;
      var before := LinkNeighbours(sqrt, listing, cells, mapping, children, neighbours[..n - 1]);
      LinkNeighboursGrows(sqrt, listing, cells, mapping, children, neighbours[..n - 1]);
      var b := neighbours[n - 1];
      if b in mapping {
        LinkChildrenLaws(sqrt, listing, before, children, mapping[b]);
        GrowsTrans(cells, before, LinkChildren(sqrt, listing, before, children, mapping[b]));
      }
    }
  }

  /** The pass only adds connections and leaves every other field of every cell as it was. */
  lemma {:induction false} EnsureConnectionsGrows(sqrt: real -> real, listing: set<nat> -> seq<nat>, cells: seq<NewNavArea>,
                                                  navAreas: map<nat, Nav.NavArea>, mapping: map<nat, set<nat>>, ids: seq<nat>)
    requires IsSqrt(sqrt) && IsEnumeration(listing) && MappingInRange(mapping, |cells|)
    requires forall i :: 0 <= i < |ids| ==> ids[i] in navAreas
    ensures Grows(cells, EnsureConnections(sqrt, listing, cells, navAreas, mapping, ids))
  {
    if ids != [] {
      var n := |ids|;
      var before := EnsureConnections(sqrt, listing, cells, navAreas, mapping, ids[..n - 1]);
      EnsureConnectionsGrows(sqrt, listing, cells, navAreas, mapping, ids[..n - 1]);
      var a := ids[n - 1];
      if a in mapping {
        LinkNeighboursGrows(sqrt, listing, before, mapping, mapping[a], navAreas[a].connections);
        GrowsTrans(cells, before, LinkNeighbours(sqrt, listing, before, mapping, mapping[a], navAreas[a].connections));
      }
    }
  }

  /** The neighbour set of the children, gathered by a loop over them. */
  method GatherNeighbours(cells: array<NewNavArea>, children: set<nat>) returns (nbrs: set<nat>)
    requires forall c :: c in children ==> c < cells.Length
    ensures nbrs == children + ConnectionsOf(cells[..], children)
  {
    nbrs := children;
    var rest := children;
    while rest != {}
      invariant rest <= children
      invariant nbrs == children + ConnectionsOf(cells[..], children - rest)
      decreases |rest|
    {
      var c :| c in rest;
      ConnectionsOfAdd(cells[..], children - rest, c);
      assert children - (rest - {c}) == (children - rest) + {c};
      nbrs := nbrs + cells[c].connections;
      rest := rest - {c};
    }
    assert children - rest == children;
  }

  lemma ConnectionsOfAdd(cells: seq<NewNavArea>, cs: set<nat>, c: nat)
    requires c < |cells| && forall x :: x in cs ==> x < |cells|
    ensures ConnectionsOf(cells, cs + {c}) == ConnectionsOf(cells, cs) + cells[c].connections
  {
  }

  /** The in-place linking of one (old area, neighbour) pair. */
  method LinkChildrenInPlace(sqrt: real -> real, listing: set<nat> -> seq<nat>, cells: array<NewNavArea>,
                             children: set<nat>, neighbourChildren: set<nat>)
    requires IsSqrt(sqrt) && IsEnumeration(listing)
    requires forall c :: c in children ==> c < cells.Length
    modifies cells
    ensures cells[..] == LinkChildren(sqrt, listing, old(cells[..]), children, neighbourChildren)
  {
    var nbrs := GatherNeighbours(cells, children);
    if exists x :: x in neighbourChildren && x in nbrs {
      return;
    }
    var chosen := NearestPairs(sqrt, listing, cells[..], children, neighbourChildren);
    AddEdgesInPlace(cells, chosen);
  }

  /** The loop pushing each chosen pair's second cell onto the first cell's connections. */
  method AddEdgesInPlace(cells: array<NewNavArea>, chosen: seq<(nat, nat)>)
    requires forall k :: 0 <= k < |chosen| ==> chosen[k].0 < cells.Length
    modifies cells
    ensures cells[..] == AddEdges(old(cells[..]), chosen)
  {
    ghost var start := cells[..];
    var k := 0;
    while k < |chosen|
      invariant 0 <= k <= |chosen|
      invariant cells[..] == AddEdges(start, chosen[..k])
    {
      var p := chosen[k];
      assert chosen[..k + 1][..k] == chosen[..k];
      cells[p.0] := cells[p.0].(connections := cells[p.0].connections + {p.1});
      k := k + 1;
    }
    assert chosen[..k] == chosen;
  }

  /**
   * `ensure_inter_area_connections`: for every old area with cells and
   * every neighbour of it with cells, link the two sets of children unless
   * they are linked already.
   */
  method EnsureInterAreaConnections(sqrt: real -> real, listing: set<nat> -> seq<nat>, cells: array<NewNavArea>,
                                    navAreas: map<nat, Nav.NavArea>, order: seq<nat>, mapping: map<nat, set<nat>>)
    requires IsSqrt(sqrt) && IsEnumeration(listing) && MappingInRange(mapping, cells.Length)
    requires Nav.Listing(navAreas, order)
    modifies cells
    ensures cells[..] == EnsureConnections(sqrt, listing, old(cells[..]), navAreas, mapping, order)
  {
    ghost var start := cells[..];
    var i := 0;
    while i < |order|
      invariant 0 <= i <= |order|
      invariant cells[..] == EnsureConnections(sqrt, listing, start, navAreas, mapping, order[..i])
    {
      var a := order[i];
      assert order[..i + 1][..i] == order[..i];
      if a in mapping {
        LinkNeighboursInPlace(sqrt, listing, cells, mapping, mapping[a], navAreas[a].connections);
      }
      i := i + 1;
    }
    assert order[..i] == order;
  }

  /** The inner loop: the children of one old area linked to those of each of its neighbours in turn. */
  method LinkNeighboursInPlace(sqrt: real -> real, listing: set<nat> -> seq<nat>, cells: array<NewNavArea>,
                               mapping: map<nat, set<nat>>, children: set<nat>, neighbours: seq<nat>)
    requires IsSqrt(sqrt) && IsEnumeration(listing) && MappingInRange(mapping, cells.Length)
    requires forall c :: c in children ==> c < cells.Length
    modifies cells
    ensures cells[..] == LinkNeighbours(sqrt, listing, old(cells[..]), mapping, children, neighbours)
  {
    ghost var outer := cells[..];
    var j := 0;
    while j < |neighbours|
      invariant 0 <= j <= |neighbours|
      invariant cells[..] == LinkNeighbours(sqrt, listing, outer, mapping, children, neighbours[..j])
    {
      var b := neighbours[j];
      LinkNeighboursSnoc(sqrt, listing, outer, mapping, children, neighbours, j);
      if b in mapping {
        LinkChildrenInPlace(sqrt, listing, cells, children, mapping[b]);
      }
      j := j + 1;
    }
    assert neighbours[..j] == neighbours;
  }

  /** One more neighbour links the children to that neighbour's children, if it has any. */
  lemma LinkNeighboursSnoc(sqrt: real -> real, listing: set<nat> -> seq<nat>, cells: seq<NewNavArea>,
                           mapping: map<nat, set<nat>>, children: set<nat>, neighbours: seq<nat>, j: nat)
    requires IsSqrt(sqrt) && IsEnumeration(listing) && MappingInRange(mapping, |cells|)
    requires forall c :: c in children ==> c < |cells|
    requires j < |neighbours|
    ensures var before := LinkNeighbours(sqrt, listing, cells, mapping, children, neighbours[..j]);
            LinkNeighbours(sqrt, listing, cells, mapping, children, neighbours[..j + 1])
            == if neighbours[j] in mapping then LinkChildren(sqrt, listing, before, children, mapping[neighbours[j]])
               else before
  {
    assert neighbours[..j + 1][..j] == neighbours[..j];
  }

  // ---------------------------------------------------------------------
  // The whole regularisation.

  /** The polygon and mean height of every old area. */
  ghost function InfoMap(navAreas: map<nat, Nav.NavArea>): (info: map<nat, AreaInfo>)
    ensures InfoOf(navAreas, info)
  {
    map id | id in navAreas :: AreaInfo(Nav.Polygon2D(navAreas[id].corners), MeanZ(navAreas[id].corners))
  }

  lemma InfoOfUnique(navAreas: map<nat, Nav.NavArea>, info: map<nat, AreaInfo>)
    ensures InfoOf(navAreas, InfoMap(navAreas))
    ensures InfoOf(navAreas, info) ==> info == InfoMap(navAreas)
  {
  }

  function XsOf(cs: seq<Position>): seq<real> {
    seq(|cs|, k requires 0 <= k < |cs| => cs[k].x)
  }

  function YsOf(cs: seq<Position>): seq<real> {
    seq(|cs|, k requires 0 <= k < |cs| => cs[k].y)
  }

  /** The x coordinates of all corners of the areas in `ids`, area after area, in corner order. */
  ghost function CornerXs(navAreas: map<nat, Nav.NavArea>, ids: seq<nat>): (xs: seq<real>)
    requires forall i :: 0 <= i < |ids| ==> ids[i] in navAreas
  {
    if ids == [] then [] else CornerXs(navAreas, ids[..|ids| - 1]) + XsOf(navAreas[ids[|ids| - 1]].corners)
  }

  /** The y coordinates, in the same order. */
  ghost function CornerYs(navAreas: map<nat, Nav.NavArea>, ids: seq<nat>): (ys: seq<real>)
    requires forall i :: 0 <= i < |ids| ==> ids[i] in navAreas
    ensures |ys| == |CornerXs(navAreas, ids)|
  {
    if ids == [] then [] else CornerYs(navAreas, ids[..|ids| - 1]) + YsOf(navAreas[ids[|ids| - 1]].corners)
  }

  /** The cells numbered by their index, as the numbering pass leaves them. */
  ghost function Numbered(g: seq<NewNavArea>): seq<NewNavArea> {
    seq(|g|, k requires 0 <= k < |g| => g[k].(areaId := k))
  }

  /**
   * The whole regularisation of the areas listed by `order` on a
   * `grid` by `grid` grid, as a sequence of cells: the grid cells over the
   * bounding box of all corners, numbered, extended by reachability, then
   * linked along the old connections.
   */
  ghost function Regularized(sqrt: real -> real, contains: (seq<(real, real)>, real, real) -> bool,
                             intersects: (seq<(real, real)>, seq<(real, real)>) -> bool,
                             polyCentroid: seq<(real, real)> -> Option<(real, real)>, listing: set<nat> -> seq<nat>,
                             walkable: (NewNavArea, NewNavArea) -> bool,
                             navAreas: map<nat, Nav.NavArea>, order: seq<nat>, grid: nat): seq<NewNavArea>
    requires IsSqrt(sqrt) && PolygonOracles(contains, intersects, polyCentroid) && IsEnumeration(listing)
    requires Nav.Listing(navAreas, order)
  {
    RegularizedOn(sqrt, contains, intersects, polyCentroid, listing, walkable, navAreas, order, grid,
                  CornerXs(navAreas, order), CornerYs(navAreas, order))
  }

  /** `Regularized`, given the corner coordinates `xs` and `ys`. */
  ghost function RegularizedOn(sqrt: real -> real, contains: (seq<(real, real)>, real, real) -> bool,
                               intersects: (seq<(real, real)>, seq<(real, real)>) -> bool,
                               polyCentroid: seq<(real, real)> -> Option<(real, real)>, listing: set<nat> -> seq<nat>,
                               walkable: (NewNavArea, NewNavArea) -> bool,
                               navAreas: map<nat, Nav.NavArea>, order: seq<nat>, grid: nat,
                               xs: seq<real>, ys: seq<real>): seq<NewNavArea>
    requires IsSqrt(sqrt) && PolygonOracles(contains, intersects, polyCentroid) && IsEnumeration(listing)
    requires Nav.Listing(navAreas, order) && |xs| == |ys|
  {
    if |xs| == 0 || grid == 0 then []
    else
      Connected(sqrt, listing, walkable, navAreas, order,
                GridOf(sqrt, contains, intersects, polyCentroid, listing, navAreas, grid, xs, ys))
  }

  /** The grid cells over the bounding box of `xs` and `ys`, row by row. */
  ghost function GridOf(sqrt: real -> real, contains: (seq<(real, real)>, real, real) -> bool,
                        intersects: (seq<(real, real)>, seq<(real, real)>) -> bool,
                        polyCentroid: seq<(real, real)> -> Option<(real, real)>, listing: set<nat> -> seq<nat>,
                        navAreas: map<nat, Nav.NavArea>, grid: nat, xs: seq<real>, ys: seq<real>): seq<NewNavArea>
    requires IsSqrt(sqrt) && PolygonOracles(contains, intersects, polyCentroid) && IsEnumeration(listing)
    requires |xs| > 0 && |ys| > 0 && grid > 0
  {
    GridCells(sqrt, contains, intersects, polyCentroid, listing, navAreas, InfoMap(navAreas),
              SeqMin(xs), SeqMin(ys), CellSize(SeqMin(xs), SeqMax(xs), grid),
              CellSize(SeqMin(ys), SeqMax(ys), grid), grid, grid)
  }

  /** The grid cells `g`, numbered, extended by reachability, then linked along the old connections. */
  ghost function Connected(sqrt: real -> real, listing: set<nat> -> seq<nat>, walkable: (NewNavArea, NewNavArea) -> bool,
                           navAreas: map<nat, Nav.NavArea>, order: seq<nat>, g: seq<NewNavArea>): seq<NewNavArea>
    requires IsSqrt(sqrt) && IsEnumeration(listing) && Nav.Listing(navAreas, order)
  {
    var numbered := Numbered(g);
    OldToNewMaps(numbered);
    EnsureConnections(sqrt, listing, ReachPass(sqrt, walkable, numbered), navAreas, OldToNew(numbered), order)
  }

  /** `RegularizedOn` when there are corners and a grid. */
  lemma RegularizedOnUnfold(sqrt: real -> real, contains: (seq<(real, real)>, real, real) -> bool,
                            intersects: (seq<(real, real)>, seq<(real, real)>) -> bool,
                            polyCentroid: seq<(real, real)> -> Option<(real, real)>, listing: set<nat> -> seq<nat>,
                            walkable: (NewNavArea, NewNavArea) -> bool,
                            navAreas: map<nat, Nav.NavArea>, order: seq<nat>, grid: nat, xs: seq<real>, ys: seq<real>)
    requires IsSqrt(sqrt) && PolygonOracles(contains, intersects, polyCentroid) && IsEnumeration(listing)
    requires Nav.Listing(navAreas, order) && |xs| == |ys| > 0 && grid > 0
    ensures RegularizedOn(sqrt, contains, intersects, polyCentroid, listing, walkable, navAreas, order, grid, xs, ys)
            == Connected(sqrt, listing, walkable, navAreas, order,
                         GridOf(sqrt, contains, intersects, polyCentroid, listing, navAreas, grid, xs, ys))
  {
  }

  lemma GridOfIs(sqrt: real -> real, contains: (seq<(real, real)>, real, real) -> bool,
                  intersects: (seq<(real, real)>, seq<(real, real)>) -> bool,
                  polyCentroid: seq<(real, real)> -> Option<(real, real)>, listing: set<nat> -> seq<nat>,
                  navAreas: map<nat, Nav.NavArea>, grid: nat, xs: seq<real>, ys: seq<real>)
    requires IsSqrt(sqrt) && PolygonOracles(contains, intersects, polyCentroid) && IsEnumeration(listing)
    requires |xs| > 0 && |ys| > 0 && grid > 0
    ensures GridOf(sqrt, contains, intersects, polyCentroid, listing, navAreas, grid, xs, ys)
            == GridCells(sqrt, contains, intersects, polyCentroid, listing, navAreas, InfoMap(navAreas),
                         SeqMin(xs), SeqMin(ys), CellSize(SeqMin(xs), SeqMax(xs), grid),
                         CellSize(SeqMin(ys), SeqMax(ys), grid), grid, grid)
  {
  }

  lemma NumberedIs(numbered: seq<NewNavArea>, g: seq<NewNavArea>)
    requires |numbered| == |g| && forall k :: 0 <= k < |g| ==> numbered[k] == g[k].(areaId := k)
    ensures numbered == Numbered(g)
  {
  }

  /** What the first loop of `regularize_nav_areas` has gathered once it has seen the areas `ids`. */
  ghost predicate Gathered(navAreas: map<nat, Nav.NavArea>, ids: seq<nat>,
                           info: map<nat, AreaInfo>, xs: seq<real>, ys: seq<real>)
    requires forall i :: 0 <= i < |ids| ==> ids[i] in navAreas
  {
    && info.Keys == SetOf(ids)
    && (forall id :: id in info ==>
          id in navAreas && info[id] == AreaInfo(Nav.Polygon2D(navAreas[id].corners), MeanZ(navAreas[id].corners)))
    && xs == CornerXs(navAreas, ids) && ys == CornerYs(navAreas, ids)
  }

  /** The first loop of `regularize_nav_areas`: each area's polygon and mean height, and every corner's x and y. */
  method GatherInfo(navAreas: map<nat, Nav.NavArea>, order: seq<nat>)
    returns (info: map<nat, AreaInfo>, xs: seq<real>, ys: seq<real>)
    requires Nav.Listing(navAreas, order)
    ensures InfoOf(navAreas, info)
    ensures xs == CornerXs(navAreas, order) && ys == CornerYs(navAreas, order)
    ensures |xs| == |ys|
    ensures (forall id :: id in navAreas ==> navAreas[id].corners == []) ==> xs == []
  {
    info, xs, ys := map[], [], [];
    var i := 0;
    while i < |order|
      invariant 0 <= i <= |order|
      invariant Gathered(navAreas, order[..i], info, xs, ys)
    {
      info, xs, ys := GatherArea(navAreas, order, i, info, xs, ys);
      i := i + 1;
    }
    assert order[..i] == order;
    assert info.Keys == SetOf(order) == navAreas.Keys;
    CornersEmpty(navAreas, order);
  }

  /** One turn of the first loop: the area `order[i]`'s polygon, mean height and corners. */
  method GatherArea(navAreas: map<nat, Nav.NavArea>, order: seq<nat>, i: nat,
                    info0: map<nat, AreaInfo>, xs0: seq<real>, ys0: seq<real>)
    returns (info: map<nat, AreaInfo>, xs: seq<real>, ys: seq<real>)
    requires Nav.Listing(navAreas, order) && i < |order|
    requires Gathered(navAreas, order[..i], info0, xs0, ys0)
    ensures Gathered(navAreas, order[..i + 1], info, xs, ys)
  {
    var id := order[i];
    var area := navAreas[id];
    SetOfPrefixStep(order, i);
    info := info0[id := AreaInfo(Nav.Polygon2D(area.corners), MeanZ(area.corners))];
    CornersStep(navAreas, order, i);
    xs, ys := PushCorners(xs0, ys0, area.corners);
  }

  lemma CornersStep(navAreas: map<nat, Nav.NavArea>, ids: seq<nat>, i: nat)
    requires i < |ids| && forall k :: 0 <= k < |ids| ==> ids[k] in navAreas
    ensures CornerXs(navAreas, ids[..i + 1]) == CornerXs(navAreas, ids[..i]) + XsOf(navAreas[ids[i]].corners)
    ensures CornerYs(navAreas, ids[..i + 1]) == CornerYs(navAreas, ids[..i]) + YsOf(navAreas[ids[i]].corners)
  {
    assert ids[..i + 1][..i] == ids[..i];
  }

  /** No corners anywhere, no coordinates. */
  lemma {:induction false} CornersEmpty(navAreas: map<nat, Nav.NavArea>, ids: seq<nat>)
    requires forall i :: 0 <= i < |ids| ==> ids[i] in navAreas
    ensures (forall id :: id in navAreas ==> navAreas[id].corners == []) ==> CornerXs(navAreas, ids) == []
  {
    if ids != [] {
      CornersEmpty(navAreas, ids[..|ids| - 1]);
    }
  }

  /** The inner loop: each corner's x and y pushed in corner order. */
  method PushCorners(xs0: seq<real>, ys0: seq<real>, corners: seq<Position>) returns (xs: seq<real>, ys: seq<real>)
    ensures xs == xs0 + XsOf(corners) && ys == ys0 + YsOf(corners)
  {
    xs, ys := xs0, ys0;
    var k := 0;
    while k < |corners|
      invariant 0 <= k <= |corners|
      invariant xs == xs0 + XsOf(corners[..k]) && ys == ys0 + YsOf(corners[..k])
    {
      assert XsOf(corners[..k + 1]) == XsOf(corners[..k]) + [corners[k].x];
      assert YsOf(corners[..k + 1]) == YsOf(corners[..k]) + [corners[k].y];
      xs := xs + [corners[k].x];
      ys := ys + [corners[k].y];
      k := k + 1;
    }
    assert corners[..k] == corners;
  }

  /** The two connection passes run one after the other over the numbered cells. */
  method ConnectCells(sqrt: real -> real, listing: set<nat> -> seq<nat>, walkable: (NewNavArea, NewNavArea) -> bool,
                      cells: array<NewNavArea>, navAreas: map<nat, Nav.NavArea>, order: seq<nat>,
                      mapping: map<nat, set<nat>>)
    requires IsSqrt(sqrt) && IsEnumeration(listing) && MappingInRange(mapping, cells.Length)
    requires Nav.Listing(navAreas, order)
    modifies cells
    ensures cells[..] == EnsureConnections(sqrt, listing, ReachPass(sqrt, walkable, old(cells[..])), navAreas, mapping, order)
    ensures Grows(old(cells[..]), cells[..])
  {
    ghost var numbered := cells[..];
    AddConnectionsByReachability(sqrt, walkable, cells);
    ghost var reached := cells[..];
    assert Grows(numbered, reached);
    EnsureInterAreaConnections(sqrt, listing, cells, navAreas, order, mapping);
    EnsureConnectionsGrows(sqrt, listing, reached, navAreas, mapping, order);
    GrowsTrans(numbered, reached, cells[..]);
  }

  /**
   * `regularize_nav_areas`: the polygon and mean height of every old area
   * and the bounding coordinates of all corners; an empty map when there
   * are no corners; otherwise the grid cells, connected by reachability and
   * by the old connections, keyed by their index.
   */
  method RegularizeNavAreas(sqrt: real -> real, contains: (seq<(real, real)>, real, real) -> bool,
                            intersects: (seq<(real, real)>, seq<(real, real)>) -> bool,
                            polyCentroid: seq<(real, real)> -> Option<(real, real)>, listing: set<nat> -> seq<nat>,
                            walkable: (NewNavArea, NewNavArea) -> bool,
                            navAreas: map<nat, Nav.NavArea>, order: seq<nat>, grid: nat)
    returns (r: map<nat, Nav.NavArea>)
    requires IsSqrt(sqrt) && PolygonOracles(contains, intersects, polyCentroid) && IsEnumeration(listing)
    requires Nav.Listing(navAreas, order)
    ensures r == ToNavAreas(listing, Regularized(sqrt, contains, intersects, polyCentroid, listing, walkable, navAreas, order, grid))
    ensures forall k :: k in r ==> r[k].areaId == k && r[k].hullIndex == 0 && |r[k].corners| == 4
    ensures forall k :: k in r ==> forall j :: 0 <= j < k ==> j in r
    ensures (forall id :: id in navAreas ==> navAreas[id].corners == []) ==> r == map[]
    ensures grid == 0 ==> r == map[]
  {
    var info, xs, ys := GatherInfo(navAreas, order);
    InfoOfUnique(navAreas, info);
    RegularizedIs(sqrt, contains, intersects, polyCentroid, listing, walkable, navAreas, order, grid, xs, ys);
    if |xs| == 0 {
      return map[];
    }
    var cells := RegularCells(sqrt, contains, intersects, polyCentroid, listing, walkable, navAreas, order, grid, info, xs, ys);
    r := ToNavAreas(listing, cells[..]);
  }

  lemma RegularizedIs(sqrt: real -> real, contains: (seq<(real, real)>, real, real) -> bool,
                      intersects: (seq<(real, real)>, seq<(real, real)>) -> bool,
                      polyCentroid: seq<(real, real)> -> Option<(real, real)>, listing: set<nat> -> seq<nat>,
                      walkable: (NewNavArea, NewNavArea) -> bool,
                      navAreas: map<nat, Nav.NavArea>, order: seq<nat>, grid: nat, xs: seq<real>, ys: seq<real>)
    requires IsSqrt(sqrt) && PolygonOracles(contains, intersects, polyCentroid) && IsEnumeration(listing)
    requires Nav.Listing(navAreas, order) && xs == CornerXs(navAreas, order) && ys == CornerYs(navAreas, order)
    ensures Regularized(sqrt, contains, intersects, polyCentroid, listing, walkable, navAreas, order, grid)
            == RegularizedOn(sqrt, contains, intersects, polyCentroid, listing, walkable, navAreas, order, grid, xs, ys)
    ensures |xs| == 0 ==> Regularized(sqrt, contains, intersects, polyCentroid, listing, walkable, navAreas, order, grid) == []
  {
  }

  /** The final conversion: cell `k` becomes the area with key `k`. */
  function ToNavAreas(listing: set<nat> -> seq<nat>, cells: seq<NewNavArea>): map<nat, Nav.NavArea>
    requires IsEnumeration(listing)
  {
    map k | 0 <= k < |cells| :: ToNavArea(listing, cells[k])
  }

  /** Everything `regularize_nav_areas` does once the corners are gathered: the grid pass and the two connection passes. */
  method RegularCells(sqrt: real -> real, contains: (seq<(real, real)>, real, real) -> bool,
                      intersects: (seq<(real, real)>, seq<(real, real)>) -> bool,
                      polyCentroid: seq<(real, real)> -> Option<(real, real)>, listing: set<nat> -> seq<nat>,
                      walkable: (NewNavArea, NewNavArea) -> bool,
                      navAreas: map<nat, Nav.NavArea>, order: seq<nat>, grid: nat,
                      info: map<nat, AreaInfo>, xs: seq<real>, ys: seq<real>)
    returns (cells: array<NewNavArea>)
    requires IsSqrt(sqrt) && PolygonOracles(contains, intersects, polyCentroid) && IsEnumeration(listing)
    requires Nav.Listing(navAreas, order) && info == InfoMap(navAreas) && |xs| == |ys| > 0
    ensures cells[..] == RegularizedOn(sqrt, contains, intersects, polyCentroid, listing, walkable, navAreas, order, grid, xs, ys)
    ensures forall k :: 0 <= k < cells.Length ==> cells[k].areaId == k && |cells[k].corners| == 4
  {
    var mapping;
    cells, mapping := CreateNewNavAreas(sqrt, contains, intersects, polyCentroid, listing, navAreas, grid, xs, ys, info, order);
    ghost var numbered := cells[..];
    MapsOriginsUnique(mapping, numbered);
    OldToNewMaps(numbered);
    ConnectCells(sqrt, listing, walkable, cells, navAreas, order, mapping);
    forall k | 0 <= k < cells.Length ensures cells[k].areaId == k && |cells[k].corners| == 4 {
      assert cells[k] == cells[..][k] && numbered[k].areaId == cells[..][k].areaId;
    }
    if grid > 0 {
      FinalCells(sqrt, contains, intersects, polyCentroid, listing, walkable, navAreas, order, grid, xs, ys, numbered, cells[..]);
    }
  }

  /** The cells the two connection passes leave are the cells `RegularizedOn` describes. */
  lemma FinalCells(sqrt: real -> real, contains: (seq<(real, real)>, real, real) -> bool,
                   intersects: (seq<(real, real)>, seq<(real, real)>) -> bool,
                   polyCentroid: seq<(real, real)> -> Option<(real, real)>, listing: set<nat> -> seq<nat>,
                   walkable: (NewNavArea, NewNavArea) -> bool,
                   navAreas: map<nat, Nav.NavArea>, order: seq<nat>, grid: nat, xs: seq<real>, ys: seq<real>,
                   numbered: seq<NewNavArea>, final: seq<NewNavArea>)
    requires IsSqrt(sqrt) && PolygonOracles(contains, intersects, polyCentroid) && IsEnumeration(listing)
    requires Nav.Listing(navAreas, order)
    requires |xs| == |ys| > 0 && grid > 0
    requires |numbered| == |GridCells(sqrt, contains, intersects, polyCentroid, listing, navAreas, InfoMap(navAreas),
                                      SeqMin(xs), SeqMin(ys), CellSize(SeqMin(xs), SeqMax(xs), grid),
                                      CellSize(SeqMin(ys), SeqMax(ys), grid), grid, grid)|
    requires forall k :: 0 <= k < |numbered| ==>
               numbered[k] == GridCells(sqrt, contains, intersects, polyCentroid, listing, navAreas, InfoMap(navAreas),
                                        SeqMin(xs), SeqMin(ys), CellSize(SeqMin(xs), SeqMax(xs), grid),
                                        CellSize(SeqMin(ys), SeqMax(ys), grid), grid, grid)[k].(areaId := k)
    requires MappingInRange(OldToNew(numbered), |numbered|)
    requires final == EnsureConnections(sqrt, listing, ReachPass(sqrt, walkable, numbered), navAreas, OldToNew(numbered), order)
    ensures final == RegularizedOn(sqrt, contains, intersects, polyCentroid, listing, walkable, navAreas, order, grid, xs, ys)
  {
    GridOfIs(sqrt, contains, intersects, polyCentroid, listing, navAreas, grid, xs, ys);
    NumberedIs(numbered, GridOf(sqrt, contains, intersects, polyCentroid, listing, navAreas, grid, xs, ys));
    RegularizedOnUnfold(sqrt, contains, intersects, polyCentroid, listing, walkable, navAreas, order, grid, xs, ys);
  }
}
