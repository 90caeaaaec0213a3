/**
 * The navigation mesh of `src/nav.rs`: nav areas, their centroid and
 * shoelace size, the deserialisation of an area record, the weighted
 * directed graph `Nav::new` builds over the areas, area lookup by
 * position, path costs, `find_path` around an A* search, and the
 * visibility test between two areas.
 *
 * HashMap iteration order is an explicit `order` listing every key once.
 * The geo polygon `contains` test, petgraph's `astar` and the square root
 * are oracles passed as parameters, each with the contract the model
 * relies on.
 */
module Nav {
  import opened Wrappers
  import opened Geometry
  import Collisions

  /** `CROUCHING_ATTRIBUTE_FLAG` of `src/constants.rs`. */
  const CROUCHING_ATTRIBUTE_FLAG: nat := 65536

  /** `f64::MAX`, written out exactly. */
  const F64_MAX: real := 179769313486231570814527423731704356798070567525844996598917476803157260780028538760589558632766878171540458953514382464234321326889464182768467546703537516986049910576551282076245490090389328944075868508455133942304583236903222948165808559332123348274797826204144723168738177180919299881250404026184124858368.0

  /** `NavArea`; `centroid` is the cached (or deserialised) centroid. */
  datatype NavArea = NavArea(
    areaId: nat,
    hullIndex: nat,
    flags: nat,
    corners: seq<Position>,
    connections: seq<nat>,
    laddersAbove: seq<nat>,
    laddersBelow: seq<nat>,
    centroid: Position)

  // ---------------------------------------------------------------------
  // Centroid and size.

  /** Left-to-right sums of the corner coordinates, as the fold computes them. */
  function SumX(cs: seq<Position>): real {
    if cs == [] then 0.0 else SumX(cs[..|cs| - 1]) + cs[|cs| - 1].x
  }

  function SumY(cs: seq<Position>): real {
    if cs == [] then 0.0 else SumY(cs[..|cs| - 1]) + cs[|cs| - 1].y
  }

  function SumZ(cs: seq<Position>): real {
    if cs == [] then 0.0 else SumZ(cs[..|cs| - 1]) + cs[|cs| - 1].z
  }

  /** `centroid`: the origin for no corners, otherwise the componentwise mean. */
  function CentroidOf(corners: seq<Position>): (c: Position)
    ensures corners == [] ==> c == Origin
    ensures corners != [] ==>
              && |corners| as real * c.x == SumX(corners)
              && |corners| as real * c.y == SumY(corners)
              && |corners| as real * c.z == SumZ(corners)
  {
    if corners == [] then Origin
    else
      var n := |corners| as real;
      Position(SumX(corners) / n, SumY(corners) / n, SumZ(corners) / n)
  }

  lemma {:induction false} SumsOfCopies(cs: seq<Position>, p: Position)
    requires forall i :: 0 <= i < |cs| ==> cs[i] == p
    ensures SumX(cs) == |cs| as real * p.x
    ensures SumY(cs) == |cs| as real * p.y
    ensures SumZ(cs) == |cs| as real * p.z
  {
    if cs != [] {
      SumsOfCopies(cs[..|cs| - 1], p);
    }
  }

  /** The centroid of corners that all coincide is that point. */
  lemma CentroidOfCopies(cs: seq<Position>, p: Position)
    requires cs != [] && forall i :: 0 <= i < |cs| ==> cs[i] == p
    ensures CentroidOf(cs) == p
  {
    SumsOfCopies(cs, p);
    var c := CentroidOf(cs);
    var n := |cs| as real;
    assert n * c.x == n * p.x && n * c.y == n * p.y && n * c.z == n * p.z;
  }

  /** The area's own cached centroid is the mean of its corners. */
  ghost predicate CentroidCached(a: NavArea) {
    a.centroid == CentroidOf(a.corners)
  }

  /** `NavArea::new`: hull index 0 and the centroid computed from the corners. */
  function NewNavArea(areaId: nat, flags: nat, corners: seq<Position>, connections: seq<nat>,
                      laddersAbove: seq<nat>, laddersBelow: seq<nat>): (a: NavArea)
    ensures a.hullIndex == 0 && CentroidCached(a)
    ensures a.areaId == areaId && a.flags == flags && a.corners == corners
    ensures a.connections == connections && a.laddersAbove == laddersAbove && a.laddersBelow == laddersBelow
  {
    NavArea(areaId, 0, flags, corners, connections, laddersAbove, laddersBelow, CentroidOf(corners))
  }

  /** The corner after corner k, wrapping round to the first. */
  function Next(cs: seq<Position>, k: nat): Position
    requires k < |cs|
  {
    if k + 1 < |cs| then cs[k + 1] else cs[0]
  }

  /** Sum of the first k shoelace terms x_i * y_{i+1} - y_i * x_{i+1}. */
  function ShoelaceSum(cs: seq<Position>, k: nat): real
    requires k <= |cs|
  {
    if k == 0 then 0.0
    else ShoelaceSum(cs, k - 1) + (cs[k - 1].x * Next(cs, k - 1).y - cs[k - 1].y * Next(cs, k - 1).x)
  }

  /** The 2-D polygon area of the corners by the shoelace formula; 0 for fewer than 3 corners. */
  function SizeOf(cs: seq<Position>): (r: real)
    ensures r >= 0.0
    ensures |cs| < 3 ==> r == 0.0
  {
    if |cs| < 3 then 0.0 else Abs(ShoelaceSum(cs, |cs|)) / 2.0
  }

  /** `NavArea::size`: closes the x and y lists with their first entries and accumulates the terms. */
  method Size(a: NavArea) returns (area: real)
    ensures area == SizeOf(a.corners)
  {
    var cs := a.corners;
    if |cs| < 3 {
      return 0.0;
    }
    var x := seq(|cs|, i requires 0 <= i < |cs| => cs[i].x) + [cs[0].x];
    var y := seq(|cs|, i requires 0 <= i < |cs| => cs[i].y) + [cs[0].y];
    var sum := 0.0;
    var i := 0;
    while i < |cs|
      invariant 0 <= i <= |cs|
      invariant sum == ShoelaceSum(cs, i)
    {
      assert x[i] == cs[i].x && y[i] == cs[i].y;
      assert x[i + 1] == Next(cs, i).x && y[i + 1] == Next(cs, i).y;
      sum := sum + (x[i] * y[i + 1] - y[i] * x[i + 1]);
      i := i + 1;
    }
    area := Abs(sum) / 2.0;
  }

  /** The four corners of an axis-aligned rectangle at height z, counter-clockwise. */
  function Rectangle(x0: real, y0: real, x1: real, y1: real, z: real): seq<Position> {
    [Position(x0, y0, z), Position(x1, y0, z), Position(x1, y1, z), Position(x0, y1, z)]
  }

  /** An axis-aligned rectangle's size is its width times its height. */
  lemma RectangleSize(x0: real, y0: real, x1: real, y1: real, z: real)
    requires x0 <= x1 && y0 <= y1
    ensures SizeOf(Rectangle(x0, y0, x1, y1, z)) == (x1 - x0) * (y1 - y0)
  {
    var cs := Rectangle(x0, y0, x1, y1, z);
    assert ShoelaceSum(cs, 1) == x0 * y0 - y0 * x1;
    assert ShoelaceSum(cs, 2) == ShoelaceSum(cs, 1) + (x1 * y1 - y0 * x1);
    assert ShoelaceSum(cs, 3) == ShoelaceSum(cs, 2) + (x1 * y1 - y1 * x0);
    assert ShoelaceSum(cs, 4) == ShoelaceSum(cs, 3) + (x0 * y0 - y1 * x0);
    assert ShoelaceSum(cs, 4) == 2.0 * ((x1 - x0) * (y1 - y0));
    assert (x1 - x0) * (y1 - y0) >= 0.0;
  }

  // ---------------------------------------------------------------------
  // Containment, centroid distance, crouching.

  /** `to_polygon_2d`: the (x, y) of the corners. */
  function Polygon2D(corners: seq<Position>): (poly: seq<(real, real)>)
    ensures |poly| == |corners|
    ensures forall i :: 0 <= i < |corners| ==> poly[i] == (corners[i].x, corners[i].y)
  {
    seq(|corners|, i requires 0 <= i < |corners| => (corners[i].x, corners[i].y))
  }

  /** `NavArea::contains`, through the polygon oracle on the 2-D projection. */
  function Contains(contains: (seq<(real, real)>, real, real) -> bool, a: NavArea, p: Position): bool {
    contains(Polygon2D(a.corners), p.x, p.y)
  }

  /** Containment ignores every z: the corners' and the point's. */
  lemma ContainsIgnoresZ(contains: (seq<(real, real)>, real, real) -> bool, a: NavArea, b: NavArea, p: Position, q: Position)
    requires |a.corners| == |b.corners|
    requires forall i :: 0 <= i < |a.corners| ==> a.corners[i].x == b.corners[i].x && a.corners[i].y == b.corners[i].y
    requires p.x == q.x && p.y == q.y
    ensures Contains(contains, a, p) == Contains(contains, b, q)
  {
    assert Polygon2D(a.corners) == Polygon2D(b.corners);
  }

  /** `NavArea::centroid_distance`: the 3-D distance from the cached centroid. */
  function CentroidDistance(sqrt: real -> real, a: NavArea, p: Position): (r: real)
    requires IsSqrt(sqrt)
    ensures r >= 0.0
    ensures p == a.centroid ==> r == 0.0
  {
    DistanceToSelf(sqrt, p);
    Distance(sqrt, a.centroid, p)
  }

  /** `requires_crouch`: the flags equal the crouching flag exactly. */
  predicate RequiresCrouch(a: NavArea) {
    a.flags == CROUCHING_ATTRIBUTE_FLAG
  }

  /**
   * The test is an equality, not a bit test: flags with the crouching bit
   * and any other bit set do not count as crouching.
   */
  lemma CrouchIsExactFlag(a: NavArea)
    ensures a.flags == 65536 ==> RequiresCrouch(a)
    ensures a.flags == 65537 ==> !RequiresCrouch(a)
    ensures a.flags == 65536 + 1024 ==> !RequiresCrouch(a)
  {
  }

  // ---------------------------------------------------------------------
  // Deserialisation of one area record.

  /** A value of the record, already parsed to the type its key expects (or of another type). */
  datatype Value =
    | Number(n: nat)
    | Points(ps: seq<Position>)
    | Ids(ids: seq<nat>)
    | Point(p: Position)
    | Other

  datatype DeError = MissingField(field: string) | InvalidType(field: string)

  /** The `Option` locals of the visitor. */
  datatype Fields = Fields(
    areaId: Option<nat>,
    hullIndex: Option<nat>,
    flags: Option<nat>,
    corners: Option<seq<Position>>,
    connections: Option<seq<nat>>,
    laddersAbove: Option<seq<nat>>,
    laddersBelow: Option<seq<nat>>,
    centroid: Option<Position>)

  const NoFields := Fields(None, None, None, None, None, None, None, None)

  predicate KnownKey(key: string) {
    key in ["area_id", "hull_index", "dynamic_attribute_flags", "corners",
            "connections", "ladders_above", "ladders_below", "centroid"]
  }

  /** One key of the record: a known key takes its value (or fails on a wrongly typed one); any other key is skipped. */
  function Absorb(f: Fields, key: string, v: Value): Result<Fields, DeError> {
    if key == "area_id" then (if v.Number? then Ok(f.(areaId := Some(v.n))) else Err(InvalidType(key)))
    else if key == "hull_index" then (if v.Number? then Ok(f.(hullIndex := Some(v.n))) else Err(InvalidType(key)))
    else if key == "dynamic_attribute_flags" then (if v.Number? then Ok(f.(flags := Some(v.n))) else Err(InvalidType(key)))
    else if key == "corners" then (if v.Points? then Ok(f.(corners := Some(v.ps))) else Err(InvalidType(key)))
    else if key == "connections" then (if v.Ids? then Ok(f.(connections := Some(v.ids))) else Err(InvalidType(key)))
    else if key == "ladders_above" then (if v.Ids? then Ok(f.(laddersAbove := Some(v.ids))) else Err(InvalidType(key)))
    else if key == "ladders_below" then (if v.Ids? then Ok(f.(laddersBelow := Some(v.ids))) else Err(InvalidType(key)))
    else if key == "centroid" then (if v.Point? then Ok(f.(centroid := Some(v.p))) else Err(InvalidType(key)))
    else Ok(f)
  }

  /** The visitor loop over the keys in order, stopping at the first error. */
  function ReadFields(entries: seq<(string, Value)>): Result<Fields, DeError> {
    if entries == [] then Ok(NoFields)
    else
      var last := entries[|entries| - 1];
      match ReadFields(entries[..|entries| - 1])
      case Err(e) => Err(e)
      case Ok(f) => Absorb(f, last.0, last.1)
  }

  function Or<T>(o: Option<T>, default: T): T {
    if o.Some? then o.value else default
  }

  /**
   * After the loop: `area_id`, `dynamic_attribute_flags` and `corners` are
   * required (checked in that order); `hull_index` defaults to 0, the id
   * lists to empty, and a missing centroid is computed from the corners.
   */
  function Finish(f: Fields): (r: Result<NavArea, DeError>)
    ensures r.Ok? <==> f.areaId.Some? && f.flags.Some? && f.corners.Some?
    ensures f.areaId.None? ==> r == Err(MissingField("area_id"))
    ensures f.areaId.Some? && f.flags.None? ==> r == Err(MissingField("dynamic_attribute_flags"))
    ensures f.areaId.Some? && f.flags.Some? && f.corners.None? ==> r == Err(MissingField("corners"))
    ensures r.Ok? ==>
              && r.value.areaId == f.areaId.value
              && r.value.flags == f.flags.value
              && r.value.corners == f.corners.value
              && r.value.hullIndex == Or(f.hullIndex, 0)
              && r.value.connections == Or(f.connections, [])
              && r.value.laddersAbove == Or(f.laddersAbove, [])
              && r.value.laddersBelow == Or(f.laddersBelow, [])
              && r.value.centroid == Or(f.centroid, CentroidOf(f.corners.value))
  {
    if f.areaId.None? then Err(MissingField("area_id"))
    else if f.flags.None? then Err(MissingField("dynamic_attribute_flags"))
    else if f.corners.None? then Err(MissingField("corners"))
    else
      var corners := f.corners.value;
      Ok(NavArea(f.areaId.value, Or(f.hullIndex, 0), f.flags.value, corners, Or(f.connections, []),
                 Or(f.laddersAbove, []), Or(f.laddersBelow, []), Or(f.centroid, CentroidOf(corners))))
  }

  function Decode(entries: seq<(string, Value)>): Result<NavArea, DeError> {
    match ReadFields(entries)
    case Err(e) => Err(e)
    case Ok(f) => Finish(f)
  }

  /** The visitor's `visit_map`, with one `Option` local per field. */
  method DeserializeNavArea(entries: seq<(string, Value)>) returns (r: Result<NavArea, DeError>)
    ensures r == Decode(entries)
  {
    var areaId: Option<nat> := None;
    var hullIndex: Option<nat> := None;
    var flags: Option<nat> := None;
    var corners: Option<seq<Position>> := None;
    var connections: Option<seq<nat>> := None;
    var laddersAbove: Option<seq<nat>> := None;
    var laddersBelow: Option<seq<nat>> := None;
    var centroid: Option<Position> := None;
    var i := 0;
    while i < |entries|
      invariant 0 <= i <= |entries|
      invariant ReadFields(entries[..i])
                == Ok(Fields(areaId, hullIndex, flags, corners, connections, laddersAbove, laddersBelow, centroid))
    {
      assert entries[..i + 1][..i] == entries[..i];
      var (key, v) := entries[i];
      if key == "area_id" {
        if !v.Number? { assert ReadFields(entries) == ReadFields(entries[..i + 1]) by { ErrorSticks(entries, i + 1); } return Err(InvalidType(key)); }
        areaId := Some(v.n);
      } else if key == "hull_index" {
        if !v.Number? { assert ReadFields(entries) == ReadFields(entries[..i + 1]) by { ErrorSticks(entries, i + 1); } return Err(InvalidType(key)); }
        hullIndex := Some(v.n);
      } else if key == "dynamic_attribute_flags" {
        if !v.Number? { assert ReadFields(entries) == ReadFields(entries[..i + 1]) by { ErrorSticks(entries, i + 1); } return Err(InvalidType(key)); }
        flags := Some(v.n);
      } else if key == "corners" {
        if !v.Points? { assert ReadFields(entries) == ReadFields(entries[..i + 1]) by { ErrorSticks(entries, i + 1); } return Err(InvalidType(key)); }
        corners := Some(v.ps);
      } else if key == "connections" {
        if !v.Ids? { assert ReadFields(entries) == ReadFields(entries[..i + 1]) by { ErrorSticks(entries, i + 1); } return Err(InvalidType(key)); }
        connections := Some(v.ids);
      } else if key == "ladders_above" {
        if !v.Ids? { assert ReadFields(entries) == ReadFields(entries[..i + 1]) by { ErrorSticks(entries, i + 1); } return Err(InvalidType(key)); }
        laddersAbove := Some(v.ids);
      } else if key == "ladders_below" {
        if !v.Ids? { assert ReadFields(entries) == ReadFields(entries[..i + 1]) by { ErrorSticks(entries, i + 1); } return Err(InvalidType(key)); }
        laddersBelow := Some(v.ids);
      } else if key == "centroid" {
        if !v.Point? { assert ReadFields(entries) == ReadFields(entries[..i + 1]) by { ErrorSticks(entries, i + 1); } return Err(InvalidType(key)); }
        centroid := Some(v.p);
      }
      i := i + 1;
    }
    assert entries[..i] == entries;
    r := Finish(Fields(areaId, hullIndex, flags, corners, connections, laddersAbove, laddersBelow, centroid));
  }

  /** Once the loop has failed on a prefix, the whole record fails with that error. */
  lemma {:induction false} ErrorSticks(entries: seq<(string, Value)>, k: nat)
    requires k <= |entries| && ReadFields(entries[..k]).Err?
    ensures ReadFields(entries) == ReadFields(entries[..k])
    decreases |entries| - k
  {
    if k < |entries| {
      assert entries[..k + 1][..k] == entries[..k];
      ErrorSticks(entries, k + 1);
    } else {
      assert entries[..k] == entries;
    }
  }

  /** A key the record does not know is skipped wherever it occurs. */
  lemma {:induction false} UnknownKeyIgnored(entries: seq<(string, Value)>, k: nat, key: string, v: Value)
    requires k <= |entries| && !KnownKey(key)
    ensures ReadFields(entries[..k] + [(key, v)] + entries[k..]) == ReadFields(entries)
    decreases |entries| - k
  {
    if k == |entries| {
      assert entries[..k] + [(key, v)] + entries[k..] == entries + [(key, v)];
      assert (entries + [(key, v)])[..|entries|] == entries;
      assert entries[..k] == entries;
    } else {
      var n := |entries|;
      var longer := entries[..k] + [(key, v)] + entries[k..];
      UnknownKeyIgnored(entries[..n - 1], k, key, v);
      assert entries[..n - 1][..k] == entries[..k];
      assert longer[..n] == entries[..n - 1][..k] + [(key, v)] + entries[..n - 1][k..];
      assert longer[n] == entries[n - 1];
      assert longer == longer[..n] + [longer[n]];
      assert entries == entries[..n - 1] + [entries[n - 1]];
    }
  }

  /** A record holding no `area_id` key is refused for that missing field (or an earlier type error). */
  lemma {:induction false} MissingAreaId(entries: seq<(string, Value)>)
    requires forall i :: 0 <= i < |entries| ==> entries[i].0 != "area_id"
    ensures ReadFields(entries).Ok? ==> ReadFields(entries).value.areaId.None?
    ensures ReadFields(entries).Ok? ==> Decode(entries) == Err(MissingField("area_id"))
  {
    if entries != [] {
      MissingAreaId(entries[..|entries| - 1]);
    }
  }

  /**
   * A record with exactly the required keys, well typed, yields hull index
   * 0, empty id lists and the corner mean as centroid.
   */
  lemma RequiredOnly(id: nat, flags: nat, corners: seq<Position>)
    ensures Decode([("area_id", Number(id)), ("dynamic_attribute_flags", Number(flags)), ("corners", Points(corners))])
            == Ok(NavArea(id, 0, flags, corners, [], [], [], CentroidOf(corners)))
  {
    var e := [("area_id", Number(id)), ("dynamic_attribute_flags", Number(flags)), ("corners", Points(corners))];
    var f1 := NoFields.(areaId := Some(id));
    var f2 := f1.(flags := Some(flags));
    var f3 := f2.(corners := Some(corners));
    assert e[..1][..0] == [];
    assert ReadFields(e[..1]) == Ok(f1);
    assert e[..2][..1] == e[..1];
    assert ReadFields(e[..2]) == Ok(f2);
    assert e[..2] == e[..|e| - 1];
    assert ReadFields(e) == Ok(f3);
  }

  // ---------------------------------------------------------------------
  // The graph of `Nav::new`.

  /** `DiGraphMap<u32, f64>`: a node set and the weight of each directed edge. */
  datatype Graph = Graph(nodes: set<nat>, weights: map<(nat, nat), real>)

  datatype Nav = Nav(version: nat, subVersion: nat, areas: map<nat, NavArea>, order: seq<nat>,
                     isAnalyzed: bool, graph: Graph)

  /** `order` lists every key of `areas` exactly once: the map's iteration order. */
  ghost predicate Listing<V>(areas: map<nat, V>, order: seq<nat>) {
    && (forall i :: 0 <= i < |order| ==> order[i] in areas)
    && (forall k :: k in areas ==> k in order)
    && (forall i, j :: 0 <= i < j < |order| ==> order[i] != order[j])
  }

  /** Every listed connection names an area of the map (otherwise `Nav::new` panics). */
  ghost predicate ConnectionsKnown(areas: map<nat, NavArea>) {
    forall k, c :: k in areas && c in areas[k].connections ==> c in areas
  }

  /** Speed relative to running: 85 / 250 for a crouching area, 1 otherwise. */
  function RelativeSpeed(a: NavArea): (s: real)
    ensures s > 0.0
  {
    (if RequiresCrouch(a) then CROUCHING_SPEED else RUNNING_SPEED) / RUNNING_SPEED
  }

  /** The 2-D distance of two areas' centroids. */
  function CentroidGap(sqrt: real -> real, a: NavArea, c: NavArea): (d: real)
    requires IsSqrt(sqrt)
    ensures d >= 0.0
  {
    Hypot(sqrt, a.centroid.x - c.centroid.x, a.centroid.y - c.centroid.y)
  }

  /** The edge weight: the 2-D centroid distance divided by each end's relative speed, averaged. */
  function EdgeWeight(sqrt: real -> real, a: NavArea, c: NavArea): real
    requires IsSqrt(sqrt)
  {
    var d := CentroidGap(sqrt, a, c);
    (d / RelativeSpeed(a) + d / RelativeSpeed(c)) / 2.0
  }

  /**
   * Without crouching the weight is the centroid distance; crouching at
   * either end only makes it larger; crouching at both ends scales it by
   * 250 / 85.
   */
  lemma EdgeWeightLaws(sqrt: real -> real, a: NavArea, c: NavArea)
    requires IsSqrt(sqrt)
    ensures !RequiresCrouch(a) && !RequiresCrouch(c) ==> EdgeWeight(sqrt, a, c) == CentroidGap(sqrt, a, c)
    ensures EdgeWeight(sqrt, a, c) >= CentroidGap(sqrt, a, c)
    ensures RequiresCrouch(a) && RequiresCrouch(c) ==>
              EdgeWeight(sqrt, a, c) == CentroidGap(sqrt, a, c) * RUNNING_SPEED / CROUCHING_SPEED
  {
    var d := CentroidGap(sqrt, a, c);
    var crouch := CROUCHING_SPEED / RUNNING_SPEED;
    assert d / crouch == d * RUNNING_SPEED / CROUCHING_SPEED;
    assert d / crouch >= d;
  }

  /** The graph `Nav::new` builds: one node per area, one weighted edge per listed connection. */
  ghost predicate GraphOf(sqrt: real -> real, areas: map<nat, NavArea>, g: Graph)
    requires IsSqrt(sqrt) && ConnectionsKnown(areas)
  {
    && g.nodes == areas.Keys
    && (forall a, c :: (a, c) in g.weights <==> a in areas && c in areas[a].connections)
    && (forall a, c :: (a, c) in g.weights ==> g.weights[(a, c)] == EdgeWeight(sqrt, areas[a], areas[c]))
  }

  /** Each area is stored under its own id, as the nav files are written. */
  ghost predicate KeysAreIds(areas: map<nat, NavArea>) {
    forall k :: k in areas ==> areas[k].areaId == k
  }

  ghost predicate ValidNav(sqrt: real -> real, nav: Nav)
    requires IsSqrt(sqrt)
  {
    Listing(nav.areas, nav.order) && ConnectionsKnown(nav.areas) && GraphOf(sqrt, nav.areas, nav.graph)
  }

  /** `Nav::new`: add every area as a node, then one edge per connection, in map order. */
  method NewNav(sqrt: real -> real, version: nat, subVersion: nat, areas: map<nat, NavArea>, order: seq<nat>,
                isAnalyzed: bool) returns (nav: Nav)
    requires IsSqrt(sqrt) && Listing(areas, order) && ConnectionsKnown(areas)
    ensures ValidNav(sqrt, nav)
    ensures nav.version == version && nav.subVersion == subVersion && nav.isAnalyzed == isAnalyzed
    ensures nav.areas == areas && nav.order == order
  {
    var nodes: set<nat> := {};
    var i := 0;
    while i < |order|
      invariant 0 <= i <= |order|
      invariant nodes == set k | k in order[..i]
    {
      assert order[..i + 1] == order[..i] + [order[i]];
      nodes := nodes + {order[i]};
      i := i + 1;
    }
    assert order[..i] == order;
    assert nodes == areas.Keys;
    var weights: map<(nat, nat), real> := map[];
    i := 0;
    while i < |order|
      invariant 0 <= i <= |order|
      invariant forall a, c :: (a, c) in weights <==> a in order[..i] && c in areas[a].connections
      invariant forall a, c :: (a, c) in weights ==> a in areas && c in areas && weights[(a, c)] == EdgeWeight(sqrt, areas[a], areas[c])
    {
      assert order[..i + 1] == order[..i] + [order[i]];
      weights := AddEdgesOf(sqrt, areas, order[i], weights);
      i := i + 1;
    }
    assert order[..i] == order;
    nav := Nav(version, subVersion, areas, order, isAnalyzed, Graph(nodes, weights));
  }
  /** The inner loop of `Nav::new`: one weighted edge from area `id` to each of its connections. */
  method AddEdgesOf(sqrt: real -> real, areas: map<nat, NavArea>, id: nat, weights0: map<(nat, nat), real>)
    returns (weights: map<(nat, nat), real>)
    requires IsSqrt(sqrt) && id in areas && ConnectionsKnown(areas)
    ensures forall a, c :: (a, c) in weights <==> (a, c) in weights0 || (a == id && c in areas[id].connections)
    ensures forall a, c :: (a, c) in weights && (a, c) !in weights0 ==> weights[(a, c)] == EdgeWeight(sqrt, areas[a], areas[c])
    ensures forall a, c :: (a, c) in weights0 && a != id ==> weights[(a, c)] == weights0[(a, c)]
  {
    weights := weights0;
    var conns := areas[id].connections;
    var j := 0;
    while j < |conns|
      invariant 0 <= j <= |conns|
      invariant forall a, c :: (a, c) in weights <==> (a, c) in weights0 || (a == id && c in conns[..j])
      invariant forall a, c :: (a, c) in weights && (a, c) !in weights0 ==> weights[(a, c)] == EdgeWeight(sqrt, areas[a], areas[c])
      invariant forall a, c :: (a, c) in weights0 && a != id ==> weights[(a, c)] == weights0[(a, c)]
    {
      var c := conns[j];
      assert conns[..j + 1] == conns[..j] + [c];
      weights := weights[(id, c) := EdgeWeight(sqrt, areas[id], areas[c])];
      j := j + 1;
    }
    assert conns[..j] == conns;
  }


  // ---------------------------------------------------------------------
  // Area lookup.

  /** |centroid.z - z|, the key `find_area` minimises. */
  function ZGap(a: NavArea, p: Position): real {
    Abs(a.centroid.z - p.z)
  }

  /**
   * `find_area` over the areas listed by `ids`: of the areas containing
   * the point, the first one of smallest z gap; None iff none contains it.
   */
  function FindAreaIn(contains: (seq<(real, real)>, real, real) -> bool, areas: map<nat, NavArea>,
                      ids: seq<nat>, p: Position): (r: Option<nat>)
    requires forall i :: 0 <= i < |ids| ==> ids[i] in areas
    ensures r.None? <==> forall i :: 0 <= i < |ids| ==> !Contains(contains, areas[ids[i]], p)
    ensures r.Some? ==> exists i :: 0 <= i < |ids| && ids[i] == r.value
    ensures r.Some? ==> r.value in areas && Contains(contains, areas[r.value], p)
    ensures r.Some? ==> forall i :: 0 <= i < |ids| && Contains(contains, areas[ids[i]], p) ==>
                          ZGap(areas[r.value], p) <= ZGap(areas[ids[i]], p)
  {
    if ids == [] then None
    else
      var n := |ids|;
      var best := FindAreaIn(contains, areas, ids[..n - 1], p);
      assert forall i :: 0 <= i < n - 1 ==> ids[..n - 1][i] == ids[i];
      var x := ids[n - 1];
      if !Contains(contains, areas[x], p) then best
      else if best.None? || ZGap(areas[x], p) < ZGap(areas[best.value], p) then Some(x)
      else best
  }

  /** `Nav::find_area`, over the map's iteration order. */
  function FindArea(contains: (seq<(real, real)>, real, real) -> bool, nav: Nav, p: Position): (r: Option<nat>)
    requires forall i :: 0 <= i < |nav.order| ==> nav.order[i] in nav.areas
  {
    FindAreaIn(contains, nav.areas, nav.order, p)
  }

  /** Of equally near containing areas, the one listed first wins. */
  lemma FindAreaFirstOfTies(contains: (seq<(real, real)>, real, real) -> bool, areas: map<nat, NavArea>,
                            ids: seq<nat>, p: Position, i: nat, j: nat)
    requires forall k :: 0 <= k < |ids| ==> ids[k] in areas
    requires i < j < |ids| && ids[i] != ids[j]
    requires Contains(contains, areas[ids[i]], p) && Contains(contains, areas[ids[j]], p)
    requires ZGap(areas[ids[i]], p) == ZGap(areas[ids[j]], p)
    requires forall k :: 0 <= k < |ids| && Contains(contains, areas[ids[k]], p) ==> ZGap(areas[ids[i]], p) <= ZGap(areas[ids[k]], p)
    requires forall k :: 0 <= k < i ==> ids[k] != ids[i] && (!Contains(contains, areas[ids[k]], p) || ZGap(areas[ids[k]], p) > ZGap(areas[ids[i]], p))
    ensures FindAreaIn(contains, areas, ids, p) == Some(ids[i])
  {
    FirstMinimum(contains, areas, ids, p, i);
  }

  lemma {:induction false} FirstMinimum(contains: (seq<(real, real)>, real, real) -> bool, areas: map<nat, NavArea>,
                                        ids: seq<nat>, p: Position, i: nat)
    requires forall k :: 0 <= k < |ids| ==> ids[k] in areas
    requires i < |ids| && Contains(contains, areas[ids[i]], p)
    requires forall k :: 0 <= k < |ids| && Contains(contains, areas[ids[k]], p) ==> ZGap(areas[ids[i]], p) <= ZGap(areas[ids[k]], p)
    requires forall k :: 0 <= k < i ==> !Contains(contains, areas[ids[k]], p) || ZGap(areas[ids[k]], p) > ZGap(areas[ids[i]], p)
    ensures FindAreaIn(contains, areas, ids, p) == Some(ids[i])
    decreases |ids|
  {
    var n := |ids|;
    assert forall k :: 0 <= k < n - 1 ==> ids[..n - 1][k] == ids[k];
    if i < n - 1 {
      FirstMinimum(contains, areas, ids[..n - 1], p, i);
    } else {
      PrefixBefore(contains, areas, ids[..n - 1], p, ZGap(areas[ids[i]], p));
    }
  }

  /** When every containing area of `ids` is farther than `g`, no result is within `g`. */
  lemma PrefixBefore(contains: (seq<(real, real)>, real, real) -> bool, areas: map<nat, NavArea>,
                     ids: seq<nat>, p: Position, g: real)
    requires forall k :: 0 <= k < |ids| ==> ids[k] in areas
    requires forall k :: 0 <= k < |ids| ==> !Contains(contains, areas[ids[k]], p) || ZGap(areas[ids[k]], p) > g
    ensures var r := FindAreaIn(contains, areas, ids, p); r.None? || ZGap(areas[r.value], p) > g
  {
  }

  /**
   * `find_closest_area_centroid` over the areas listed by `ids`: the first
   * area of least centroid distance (`unwrap` needs a non-empty list).
   */
  function ClosestIn(sqrt: real -> real, areas: map<nat, NavArea>, ids: seq<nat>, p: Position): (r: nat)
    requires IsSqrt(sqrt) && |ids| > 0
    requires forall i :: 0 <= i < |ids| ==> ids[i] in areas
    ensures r in areas
    ensures forall i :: 0 <= i < |ids| ==> CentroidDistance(sqrt, areas[r], p) <= CentroidDistance(sqrt, areas[ids[i]], p)
    ensures exists i :: 0 <= i < |ids| && ids[i] == r &&
              forall j :: 0 <= j < i ==> CentroidDistance(sqrt, areas[ids[j]], p) > CentroidDistance(sqrt, areas[r], p)
  {
    var n := |ids|;
    if n == 1 then ids[0]
    else
      var best := ClosestIn(sqrt, areas, ids[..n - 1], p);
      assert forall i :: 0 <= i < n - 1 ==> ids[..n - 1][i] == ids[i];
      var x := ids[n - 1];
      if CentroidDistance(sqrt, areas[x], p) < CentroidDistance(sqrt, areas[best], p) then x else best
  }

  function FindClosestAreaCentroid(sqrt: real -> real, nav: Nav, p: Position): (r: nat)
    requires IsSqrt(sqrt) && |nav.order| > 0
    requires forall i :: 0 <= i < |nav.order| ==> nav.order[i] in nav.areas
  {
    ClosestIn(sqrt, nav.areas, nav.order, p)
  }

  // ---------------------------------------------------------------------
  // Paths.

  /** Every consecutive pair of the path is an edge of the graph. */
  ghost predicate EdgesOf(g: Graph, path: seq<nat>) {
    forall i :: 0 <= i < |path| - 1 ==> (path[i], path[i + 1]) in g.weights
  }

  /** `path_cost`: the sum of the edge weights along the path (its windows of two). */
  function PathCost(g: Graph, path: seq<nat>): (c: real)
    requires EdgesOf(g, path)
    ensures |path| == 2 ==> c == g.weights[(path[0], path[1])]
  {
    if |path| < 2 then 0.0
    else g.weights[(path[0], path[1])] + PathCost(g, path[1..])
  }

  /** The cost of a path is the cost up to any of its areas plus the cost from there on. */
  lemma {:induction false} PathCostSplit(g: Graph, path: seq<nat>, k: nat)
    requires EdgesOf(g, path) && k < |path|
    ensures EdgesOf(g, path[..k + 1]) && EdgesOf(g, path[k..])
    ensures PathCost(g, path) == PathCost(g, path[..k + 1]) + PathCost(g, path[k..])
  {
    assert forall i :: 0 <= i < k + 1 ==> path[..k + 1][i] == path[i];
    if k > 0 {
      assert EdgesOf(g, path[1..]);
      PathCostSplit(g, path[1..], k - 1);
      assert path[1..][..k] == path[..k + 1][1..];
      assert path[1..][k - 1..] == path[k..];
    }
  }

  /** Every edge weight of a nav graph is at least the 2-D centroid distance, so never negative. */
  lemma GraphWeightsNonNegative(sqrt: real -> real, nav: Nav)
    requires IsSqrt(sqrt) && ValidNav(sqrt, nav)
    ensures forall a, c :: (a, c) in nav.graph.weights ==> nav.graph.weights[(a, c)] >= 0.0
  {
    forall a, c | (a, c) in nav.graph.weights ensures nav.graph.weights[(a, c)] >= 0.0 {
      EdgeWeightLaws(sqrt, nav.areas[a], nav.areas[c]);
    }
  }

  /** With no negative weight, no path costs less than nothing. */
  lemma {:induction false} PathCostNonNegative(g: Graph, path: seq<nat>)
    requires forall a, c :: (a, c) in g.weights ==> g.weights[(a, c)] >= 0.0
    requires EdgesOf(g, path)
    ensures PathCost(g, path) >= 0.0
  {
    if |path| >= 2 {
      assert EdgesOf(g, path[1..]);
      PathCostNonNegative(g, path[1..]);
    }
  }

  /** A path from `s` to `e` along graph edges. */
  ghost predicate IsPath(g: Graph, p: seq<nat>, s: nat, e: nat) {
    |p| >= 1 && p[0] == s && p[|p| - 1] == e && EdgesOf(g, p)
  }

  /**
   * What the model assumes of petgraph's `astar` on the graph `g` it is
   * given (with the 2-D centroid heuristic, which never overestimates since
   * each weight is at least the 2-D centroid distance): nothing iff no path
   * exists, otherwise a path of least cost together with that cost. The
   * weights of a nav graph are never negative (`GraphWeightsNonNegative`),
   * so such a path exists whenever any path does.
   */
  ghost predicate IsAStar(astar: (Graph, nat, nat) -> Option<(real, seq<nat>)>, g: Graph) {
    forall s, e ::
      match astar(g, s, e)
      case None => forall p :: !IsPath(g, p, s, e)
      case Some(r) =>
        && IsPath(g, r.1, s, e)
        && r.0 == PathCost(g, r.1)
        && forall p :: IsPath(g, p, s, e) ==> r.0 <= PathCost(g, p)
  }

  datatype AreaIdent = Id(id: nat) | Pos(pos: Position)

  datatype PathResult = PathResult(path: seq<NavArea>, distance: real)

  /**
   * The area id an endpoint names: the id itself, or the `area_id` of the
   * area containing the position, else of the area of nearest centroid.
   */
  function Resolve(sqrt: real -> real, contains: (seq<(real, real)>, real, real) -> bool, nav: Nav, ident: AreaIdent): (id: nat)
    requires IsSqrt(sqrt) && (forall i :: 0 <= i < |nav.order| ==> nav.order[i] in nav.areas)
    requires ident.Pos? ==> |nav.order| > 0
    ensures ident.Id? ==> id == ident.id
    ensures ident.Pos? ==> exists k :: k in nav.areas && nav.areas[k].areaId == id
    ensures ident.Pos? && KeysAreIds(nav.areas) ==> id in nav.areas
  {
    match ident
    case Id(i) => i
    case Pos(p) =>
      var found := FindArea(contains, nav, p);
      var k := if found.Some? then found.value else FindClosestAreaCentroid(sqrt, nav, p);
      nav.areas[k].areaId
  }

  /** The areas of the map among the path's ids, in path order (`filter_map` on `get`). */
  function AreasOnPath(areas: map<nat, NavArea>, ids: seq<nat>): (r: seq<NavArea>)
    ensures |r| <= |ids|
    ensures (forall i :: 0 <= i < |ids| ==> ids[i] in areas) ==>
              |r| == |ids| && forall i :: 0 <= i < |ids| ==> r[i] == areas[ids[i]]
  {
    if ids == [] then []
    else (if ids[0] in areas then [areas[ids[0]]] else []) + AreasOnPath(areas, ids[1..])
  }

  /** Beyond its first area, every area of a path along graph edges is an area of the map. */
  lemma PathAreasKnown(sqrt: real -> real, nav: Nav, p: seq<nat>)
    requires IsSqrt(sqrt) && ValidNav(sqrt, nav) && EdgesOf(nav.graph, p)
    ensures forall i :: 1 <= i < |p| ==> p[i] in nav.areas && (p[i - 1], p[i]) in nav.graph.weights
  {
    forall i | 1 <= i < |p| ensures p[i] in nav.areas && (p[i - 1], p[i]) in nav.graph.weights {
      assert (p[i - 1], p[i]) in nav.graph.weights;
    }
  }

  /** The reported distance for a path `ids` found by the search with cost `cost`. */
  function TotalDistance(sqrt: real -> real, nav: Nav, start: AreaIdent, end: AreaIdent,
                         startArea: nat, endArea: nat, cost: real, ids: seq<nat>): real
    requires IsSqrt(sqrt) && ValidNav(sqrt, nav) && IsPath(nav.graph, ids, startArea, endArea)
    requires start.Pos? ==> startArea in nav.areas
    requires end.Pos? ==> endArea in nav.areas
  {
    PathAreasKnown(sqrt, nav, ids);
    var n := |ids|;
    if n <= 2 then
      assert n == 2 ==> endArea in nav.areas;
      assert n == 1 ==> startArea == endArea;
      match (start, end)
      case (Pos(s), Pos(e)) => Distance2D(sqrt, s, e)
      case (Id(_), Id(_)) => cost
      case (Pos(s), Id(_)) => Distance2D(sqrt, s, nav.areas[endArea].centroid)
      case (Id(_), Pos(e)) => Distance2D(sqrt, nav.areas[startArea].centroid, e)
    else
      PathCostSplit(nav.graph, ids, 1);
      PathCostSplit(nav.graph, ids[1..], n - 3);
      assert EdgesOf(nav.graph, ids[1..n - 1]) by {
        assert ids[1..][..n - 2] == ids[1..n - 1];
      }
      assert EdgesOf(nav.graph, ids[n - 2..n - 1]);
      var startDistance := match start
        case Pos(s) => Distance2D(sqrt, s, nav.areas[ids[1]].centroid)
        case Id(_) => PathCost(nav.graph, ids[0..2]);
      var middleDistance := PathCost(nav.graph, ids[1..n - 1]);
      var endDistance := match end
        case Pos(e) => Distance2D(sqrt, nav.areas[ids[n - 2]].centroid, e)
        case Id(_) => PathCost(nav.graph, ids[n - 2..n - 1]);
      startDistance + middleDistance + endDistance
  }

  /**
   * `Nav::find_path`: resolve both endpoints, search, and report an empty
   * path at distance `f64::MAX` when there is none; otherwise the areas of
   * the path and the distance assembled from its parts.
   */
  function FindPath(sqrt: real -> real, contains: (seq<(real, real)>, real, real) -> bool,
                    astar: (Graph, nat, nat) -> Option<(real, seq<nat>)>, nav: Nav,
                    start: AreaIdent, end: AreaIdent): (r: PathResult)
    requires IsSqrt(sqrt) && IsAStar(astar, nav.graph) && ValidNav(sqrt, nav) && KeysAreIds(nav.areas)
    requires start.Id? ==> start.id in nav.areas
    requires end.Id? ==> end.id in nav.areas
    requires (start.Pos? || end.Pos?) ==> |nav.order| > 0
    ensures var s, e := Resolve(sqrt, contains, nav, start), Resolve(sqrt, contains, nav, end);
            && (r.path == [] <==> forall p :: !IsPath(nav.graph, p, s, e))
            && (r.path == [] ==> r.distance == F64_MAX)
            && (r.path != [] ==> r.path[0].areaId == s && r.path[|r.path| - 1].areaId == e)
            && (forall i :: 0 <= i < |r.path| - 1 ==> (r.path[i].areaId, r.path[i + 1].areaId) in nav.graph.weights)
  {
    var startArea := Resolve(sqrt, contains, nav, start);
    var endArea := Resolve(sqrt, contains, nav, end);
    match astar(nav.graph, startArea, endArea)
    case None => PathResult([], F64_MAX)
    case Some((cost, ids)) =>
      PathAreasKnown(sqrt, nav, ids);
      AreasOnPathIds(nav, ids);
      PathResult(AreasOnPath(nav.areas, ids),
                 TotalDistance(sqrt, nav, start, end, startArea, endArea, cost, ids))
  }

  /** A path whose areas are all in a map keyed by id gives back its own ids. */
  lemma AreasOnPathIds(nav: Nav, ids: seq<nat>)
    requires KeysAreIds(nav.areas) && forall i :: 0 <= i < |ids| ==> ids[i] in nav.areas
    ensures var r := AreasOnPath(nav.areas, ids);
            |r| == |ids| && forall i :: 0 <= i < |ids| ==> r[i].areaId == ids[i]
  {
  }

  /** With no path between the resolved ends the result is the empty path at `f64::MAX`. */
  lemma FindPathUnreachable(sqrt: real -> real, contains: (seq<(real, real)>, real, real) -> bool,
                            astar: (Graph, nat, nat) -> Option<(real, seq<nat>)>, nav: Nav, s: nat, e: nat)
    requires IsSqrt(sqrt) && IsAStar(astar, nav.graph) && ValidNav(sqrt, nav) && KeysAreIds(nav.areas)
    requires s in nav.areas && e in nav.areas
    requires forall p :: !IsPath(nav.graph, p, s, e)
    ensures FindPath(sqrt, contains, astar, nav, Id(s), Id(e)) == PathResult([], F64_MAX)
  {
    var r := astar(nav.graph, s, e);
    assert r.Some? ==> IsPath(nav.graph, r.value.1, s, e);
  }

  /**
   * Between two ids joined by a path of at most two areas the distance is
   * the least cost of any path between them, and the areas are those of the
   * path.
   */
  lemma FindPathShortIds(sqrt: real -> real, contains: (seq<(real, real)>, real, real) -> bool,
                         astar: (Graph, nat, nat) -> Option<(real, seq<nat>)>, nav: Nav, s: nat, e: nat)
    requires IsSqrt(sqrt) && IsAStar(astar, nav.graph) && ValidNav(sqrt, nav) && KeysAreIds(nav.areas)
    requires s in nav.areas && e in nav.areas
    requires astar(nav.graph, s, e).Some? && |astar(nav.graph, s, e).value.1| <= 2
    ensures var r := FindPath(sqrt, contains, astar, nav, Id(s), Id(e));
            && (forall p :: IsPath(nav.graph, p, s, e) ==> r.distance <= PathCost(nav.graph, p))
            && r.path == AreasOnPath(nav.areas, astar(nav.graph, s, e).value.1)
  {
    assert IsPath(nav.graph, astar(nav.graph, s, e).value.1, s, e);
  }

  /**
   * Between two ids joined by a path of more than two areas the last edge
   * is left out: the distance is the cost of the path without its last
   * area, the search's cost minus the last edge's weight.
   */
  lemma FindPathLastEdgeOmitted(sqrt: real -> real, contains: (seq<(real, real)>, real, real) -> bool,
                                astar: (Graph, nat, nat) -> Option<(real, seq<nat>)>, nav: Nav, s: nat, e: nat)
    requires IsSqrt(sqrt) && IsAStar(astar, nav.graph) && ValidNav(sqrt, nav) && KeysAreIds(nav.areas)
    requires s in nav.areas && e in nav.areas
    requires astar(nav.graph, s, e).Some? && |astar(nav.graph, s, e).value.1| > 2
    ensures var (cost, ids) := astar(nav.graph, s, e).value;
            var n := |ids|;
            && EdgesOf(nav.graph, ids[..n - 1])
            && FindPath(sqrt, contains, astar, nav, Id(s), Id(e)).distance == PathCost(nav.graph, ids[..n - 1])
            && FindPath(sqrt, contains, astar, nav, Id(s), Id(e)).distance == cost - nav.graph.weights[(ids[n - 2], ids[n - 1])]
  {
    var (cost, ids) := astar(nav.graph, s, e).value;
    var n := |ids|;
    assert IsPath(nav.graph, ids, s, e);
    PathCostSplit(nav.graph, ids, 1);
    PathCostSplit(nav.graph, ids[1..], n - 3);
    assert ids[1..][..n - 2] == ids[1..n - 1];
    assert ids[1..][n - 3..] == ids[n - 2..];
    PathCostSplit(nav.graph, ids, n - 2);
    assert ids[..n - 1][..2] == ids[0..2];
    PathCostSplit(nav.graph, ids[..n - 1], 1);
    assert ids[..n - 1][1..] == ids[1..n - 1];
    assert PathCost(nav.graph, ids[n - 2..]) == nav.graph.weights[(ids[n - 2], ids[n - 1])] by {
      assert ids[n - 2..] == [ids[n - 2], ids[n - 1]];
    }
  }

  /** Two positions inside areas joined by a path of at most two areas are reported at their own 2-D distance. */
  lemma FindPathShortPositions(sqrt: real -> real, contains: (seq<(real, real)>, real, real) -> bool,
                               astar: (Graph, nat, nat) -> Option<(real, seq<nat>)>, nav: Nav, p: Position, q: Position)
    requires IsSqrt(sqrt) && IsAStar(astar, nav.graph) && ValidNav(sqrt, nav) && KeysAreIds(nav.areas) && |nav.order| > 0
    requires var r := astar(nav.graph, Resolve(sqrt, contains, nav, Pos(p)), Resolve(sqrt, contains, nav, Pos(q)));
             r.Some? && |r.value.1| <= 2
    ensures FindPath(sqrt, contains, astar, nav, Pos(p), Pos(q)).distance == Distance2D(sqrt, p, q)
  {
    var s, e := Resolve(sqrt, contains, nav, Pos(p)), Resolve(sqrt, contains, nav, Pos(q));
    assert IsPath(nav.graph, astar(nav.graph, s, e).value.1, s, e);
  }

  // ---------------------------------------------------------------------
  // The two unit squares of the bindings test.

  const SQUARE_1: seq<Position> := Rectangle(0.0, 0.0, 1.0, 1.0, 0.0)
  const SQUARE_2: seq<Position> := Rectangle(0.0, 2.0, 1.0, 3.0, 0.0)

  /** Area 1 (the unit square at the origin) connects to area 2 (the unit square two units up). */
  ghost predicate TwoSquares(areas: map<nat, NavArea>, order: seq<nat>) {
    && areas.Keys == {1, 2} && order == [1, 2]
    && areas[1] == NewNavArea(1, 1, SQUARE_1, [2], [], [])
    && areas[2] == NewNavArea(2, 1, SQUARE_2, [], [], [])
  }

  lemma RectangleSums(x0: real, y0: real, x1: real, y1: real, z: real)
    ensures SumX(Rectangle(x0, y0, x1, y1, z)) == 2.0 * (x0 + x1)
    ensures SumY(Rectangle(x0, y0, x1, y1, z)) == 2.0 * (y0 + y1)
    ensures SumZ(Rectangle(x0, y0, x1, y1, z)) == 4.0 * z
  {
    var cs := Rectangle(x0, y0, x1, y1, z);
    assert cs[..1][..0] == [];
    assert cs[..2][..1] == cs[..1];
    assert cs[..3][..2] == cs[..2];
    assert cs[..4 - 1] == cs[..3];
    assert SumX(cs[..1]) == x0 && SumY(cs[..1]) == y0 && SumZ(cs[..1]) == z;
    assert SumX(cs[..2]) == x0 + x1 && SumY(cs[..2]) == y0 + y0 && SumZ(cs[..2]) == z + z;
    assert SumX(cs[..3]) == x0 + x1 + x1 && SumY(cs[..3]) == y0 + y0 + y1 && SumZ(cs[..3]) == z + z + z;
  }

  lemma SquareCentroids()
    ensures CentroidOf(SQUARE_1) == Position(0.5, 0.5, 0.0)
    ensures CentroidOf(SQUARE_2) == Position(0.5, 2.5, 0.0)
  {
    RectangleSums(0.0, 0.0, 1.0, 1.0, 0.0);
    RectangleSums(0.0, 2.0, 1.0, 3.0, 0.0);
  }

  /** The only path from area 1 to area 2 is [1, 2], and area 2 reaches nothing. */
  lemma TwoSquaresPaths(sqrt: real -> real, nav: Nav)
    requires IsSqrt(sqrt) && ValidNav(sqrt, nav) && TwoSquares(nav.areas, nav.order)
    ensures forall p :: IsPath(nav.graph, p, 1, 2) ==> p == [1, 2]
    ensures forall p :: !IsPath(nav.graph, p, 2, 1)
    ensures (1, 2) in nav.graph.weights && nav.graph.weights[(1, 2)] == 2.0
  {
    forall a, c | (a, c) in nav.graph.weights ensures a == 1 && c == 2 {
      assert a in nav.areas && c in nav.areas[a].connections;
    }
    forall p | IsPath(nav.graph, p, 1, 2) ensures p == [1, 2] {
      OnlyEdge(nav.graph, p);
    }
    forall p | IsPath(nav.graph, p, 2, 1) ensures false {
      OnlyEdge(nav.graph, p);
    }
    SquareCentroids();
    var a1, a2 := nav.areas[1], nav.areas[2];
    assert a1.centroid == Position(0.5, 0.5, 0.0) && a2.centroid == Position(0.5, 2.5, 0.0);
    assert Square(0.5 - 0.5) + Square(0.5 - 2.5) == Square(2.0);
    assert CentroidGap(sqrt, a1, a2) == 2.0;
    EdgeWeightLaws(sqrt, a1, a2);
  }

  /** In a graph whose only edge is (1, 2), a path of two or more areas runs 1, 2 (so it cannot go on). */
  lemma OnlyEdge(g: Graph, p: seq<nat>)
    requires forall a, c :: (a, c) in g.weights ==> a == 1 && c == 2
    requires |p| >= 1 && EdgesOf(g, p)
    ensures |p| >= 2 ==> p[0] == 1 && p[1] == 2
    ensures |p| >= 3 ==> p[1] == 1
  {
    forall i | 0 <= i < |p| - 1 ensures p[i] == 1 {
      assert (p[i], p[i + 1]) in g.weights;
    }
    forall i | 1 <= i < |p| ensures p[i] == 2 {
      assert (p[i - 1], p[i]) in g.weights;
    }
  }

  /** A search for the two-square graph: the one-area path to itself, [1, 2] from 1 to 2, and nothing else. */
  function TwoSquaresAStar(g: Graph, s: nat, e: nat): (r: Option<(real, seq<nat>)>)
    ensures r.Some? ==> |r.value.1| >= 1 && r.value.1[0] == s && r.value.1[|r.value.1| - 1] == e
  {
    if s == e then Some((0.0, [s]))
    else if s == 1 && e == 2 then Some((2.0, [1, 2]))
    else None
  }

  /** The oracle can be met: `TwoSquaresAStar` is a least-cost search on the two-square graph. */
  lemma TwoSquaresAStarIsAStar(sqrt: real -> real, nav: Nav)
    requires IsSqrt(sqrt) && ValidNav(sqrt, nav) && TwoSquares(nav.areas, nav.order)
    ensures IsAStar(TwoSquaresAStar, nav.graph)
  {
    var g := nav.graph;
    TwoSquaresPaths(sqrt, nav);
    GraphWeightsNonNegative(sqrt, nav);
    forall a, c | (a, c) in g.weights ensures a == 1 && c == 2 {
      assert a in nav.areas && c in nav.areas[a].connections;
    }
    forall s: nat, e: nat
      ensures match TwoSquaresAStar(g, s, e)
              case None => forall p :: !IsPath(g, p, s, e)
              case Some(r) =>
                && IsPath(g, r.1, s, e)
                && r.0 == PathCost(g, r.1)
                && forall p :: IsPath(g, p, s, e) ==> r.0 <= PathCost(g, p)
    {
      forall p | IsPath(g, p, s, e) ensures PathCost(g, p) >= 0.0 && (s != e ==> s == 1 && e == 2 && p == [1, 2]) {
        PathCostNonNegative(g, p);
        OnlyEdge(g, p);
      }
      if s == 1 && e == 2 {
        assert IsPath(g, [1, 2], 1, 2);
      }
    }
  }

  /**
   * The bindings test: from id 1 to id 2 the path is both areas at
   * distance 2; from id 2 to id 1 there is no path.
   */
  lemma TwoSquaresFindPath(sqrt: real -> real, contains: (seq<(real, real)>, real, real) -> bool,
                           astar: (Graph, nat, nat) -> Option<(real, seq<nat>)>, nav: Nav)
    requires IsSqrt(sqrt) && IsAStar(astar, nav.graph) && ValidNav(sqrt, nav) && TwoSquares(nav.areas, nav.order)
    ensures FindPath(sqrt, contains, astar, nav, Id(1), Id(2)) == PathResult([nav.areas[1], nav.areas[2]], 2.0)
    ensures FindPath(sqrt, contains, astar, nav, Id(2), Id(1)).path == []
  {
    TwoSquaresPaths(sqrt, nav);
    var r := astar(nav.graph, 1, 2);
    assert IsPath(nav.graph, [1, 2], 1, 2);
    assert r.Some?;
    assert r.value.1 == [1, 2];
    assert AreasOnPath(nav.areas, [1, 2]) == [nav.areas[1], nav.areas[2]];
    FindPathUnreachable(sqrt, contains, astar, nav, 2, 1);
  }

  // ---------------------------------------------------------------------
  // Visibility.

  /** A centroid raised to eye level. */
  function EyeLevel(c: Position): Position {
    Position(c.x, c.y, c.z + PLAYER_EYE_LEVEL)
  }

  /**
   * `areas_visible`: the cached answer for the pair of ids when a cache is
   * given (it must hold the pair), otherwise whether the segment between
   * the eye-level centroids is unobstructed.
   */
  function AreasVisible(sqrt: real -> real, checker: Collisions.CollisionChecker,
                        cache: Option<map<(nat, nat), bool>>, a1: NavArea, a2: NavArea): bool
    requires IsSqrt(sqrt)
    requires cache.Some? ==> (a1.areaId, a2.areaId) in cache.value
  {
    if cache.Some? then cache.value[(a1.areaId, a2.areaId)]
    else Collisions.ConnectionUnobstructed(sqrt, checker, EyeLevel(a1.centroid), EyeLevel(a2.centroid))
  }

  /** A cache filled from the checker for every pair of areas of the map. */
  ghost predicate CacheOf(sqrt: real -> real, checker: Collisions.CollisionChecker, areas: map<nat, NavArea>,
                          cache: map<(nat, nat), bool>)
    requires IsSqrt(sqrt)
  {
    forall i, j :: i in areas && j in areas ==>
      (i, j) in cache && cache[(i, j)] == AreasVisible(sqrt, checker, None, areas[i], areas[j])
  }

  /**
   * With a cache built from the checker, the cached answer is the checked
   * one; and areas whose centroids are less than 1e-6 apart always see
   * each other.
   */
  lemma AreasVisibleLaws(sqrt: real -> real, checker: Collisions.CollisionChecker, areas: map<nat, NavArea>,
                         cache: map<(nat, nat), bool>, i: nat, j: nat)
    requires IsSqrt(sqrt) && CacheOf(sqrt, checker, areas, cache) && i in areas && j in areas
    requires areas[i].areaId == i && areas[j].areaId == j
    ensures AreasVisible(sqrt, checker, Some(cache), areas[i], areas[j]) == AreasVisible(sqrt, checker, None, areas[i], areas[j])
    ensures Length(sqrt, Sub(areas[j].centroid, areas[i].centroid)) < Collisions.EPSILON ==>
              AreasVisible(sqrt, checker, None, areas[i], areas[j])
  {
    var c1, c2 := areas[i].centroid, areas[j].centroid;
    assert Sub(EyeLevel(c2), EyeLevel(c1)) == Sub(c2, c1);
  }
}
