/**
 * The spread simulator of `src/spread.rs`: for every area of the map the
 * distance from the nearest spawn of each side, and the state machine that
 * merges the two sorted distance lists, marking areas, detecting areas
 * that can see each other and emitting one record per plotted frame.
 *
 * Visibility between two areas is a total oracle `visible`; it stands for
 * `areas_visible` (modelled as `Nav.AreasVisible`) with the collision
 * checker fixed.
 */
module Spread {
  import opened Wrappers
  import opened Geometry
  import Nav
  import Sorting

  // ---------------------------------------------------------------------
  // Distances and records.

  /** A distance from spawn: a finite value, or `f64::INFINITY`. */
  datatype Dist = Fin(value: real) | Inf

  /** `<` on distances: every finite value is below infinity. */
  predicate Less(a: Dist, b: Dist) {
    match a
    case Inf => false
    case Fin(x) => b.Inf? || x < b.value
  }

  /** `<=` on distances. */
  predicate AtMost(a: Dist, b: Dist) {
    !Less(b, a)
  }

  /** `SpawnDistance`: an area, its distance from the nearest spawn and the ids of the path there. */
  datatype SpawnDistance = SpawnDistance(area: Nav.NavArea, distance: Dist, path: seq<nat>)

  /** `Spawns`: the spawn points of each side. */
  datatype Spawns = Spawns(ct: seq<Position>, t: seq<Position>)

  /** `SpawnDistances`: one list per side. */
  datatype SpawnDistances = SpawnDistances(ct: seq<SpawnDistance>, t: seq<SpawnDistance>)

  /** `SpreadResult`: one frame of the spread. */
  datatype SpreadResult = SpreadResult(
    newMarkedCt: set<nat>,
    newMarkedT: set<nat>,
    oldMarkedCt: set<nat>,
    oldMarkedT: set<nat>,
    visibilityConnections: seq<(SpawnDistance, SpawnDistance)>,
    containsNewConnections: bool)

  datatype SpreadStyle = Fine | Rough

  /** The comparison both sorts use: by distance. */
  predicate ByDistance(a: SpawnDistance, b: SpawnDistance) {
    AtMost(a.distance, b.distance)
  }

  lemma ByDistanceIsTotalPreorder()
    ensures Sorting.TotalPreorder(ByDistance)
  {
    forall a, b, c | ByDistance(a, b) && ByDistance(b, c) ensures ByDistance(a, c) {
      if a.distance.Fin? && b.distance.Fin? && c.distance.Fin? {
        assert a.distance.value <= b.distance.value <= c.distance.value;
      }
    }
  }

  // ---------------------------------------------------------------------
  // Lists as the iterator adaptors build them.

  /** `filter(..).collect()`: the elements that pass, in order. */
  function Filter<T(!new)>(s: seq<T>, keep: T -> bool): (r: seq<T>)
    ensures |r| <= |s|
  {
    if s == [] then [] else Filter(s[..|s| - 1], keep) + (if keep(s[|s| - 1]) then [s[|s| - 1]] else [])
  }

  /** An element is kept iff it is in the list and passes. */
  lemma {:induction false} FilterMembers<T(!new)>(s: seq<T>, keep: T -> bool)
    ensures forall x :: x in Filter(s, keep) <==> x in s && keep(x)
  {
    if s != [] {
      var n := |s|;
      assert s == s[..n - 1] + [s[n - 1]];
      FilterMembers(s[..n - 1], keep);
    }
  }

  /** Filtering one element more of a list. */
  lemma FilterSnoc<T(!new)>(s: seq<T>, k: nat, keep: T -> bool)
    requires k < |s|
    ensures Filter(s[..k + 1], keep) == Filter(s[..k], keep) + (if keep(s[k]) then [s[k]] else [])
  {
    assert s[..k + 1][..k] == s[..k];
  }

  /** Filtering a concatenation filters each part: the order of the input is kept. */
  lemma {:induction false} FilterAppend<T(!new)>(a: seq<T>, b: seq<T>, keep: T -> bool)
    ensures Filter(a + b, keep) == Filter(a, keep) + Filter(b, keep)
    decreases |b|
  {
    if b == [] {
      assert a + b == a;
    } else {
      var n := |b|;
      var b0 := b[..n - 1];
      assert (a + b)[..|a + b| - 1] == a + b0;
      assert (a + b)[|a + b| - 1] == b[n - 1];
      FilterAppend(a, b0, keep);
    }
  }

  /** A filtered sorted list is sorted. */
  lemma {:induction false} FilterSorted<T(!new)>(s: seq<T>, keep: T -> bool, le: (T, T) -> bool)
    requires Sorting.SortedBy(s, le)
    ensures Sorting.SortedBy(Filter(s, keep), le)
    decreases |s|
  {
    if s != [] {
      var n := |s|;
      var prefix := s[..n - 1];
      assert Sorting.SortedBy(prefix, le);
      FilterSorted(prefix, keep, le);
      var f := Filter(prefix, keep);
      FilterMembers(prefix, keep);
      forall x | x in f ensures le(x, s[n - 1]) {
        var k :| 0 <= k < |prefix| && prefix[k] == x;
        assert s[k] == x;
      }
      assert forall i :: 0 <= i < |f| ==> f[i] in f;
    }
  }

  /** The area ids of a list of entries. */
  function IdsOf(s: seq<SpawnDistance>): set<nat> {
    if s == [] then {} else IdsOf(s[..|s| - 1]) + {s[|s| - 1].area.areaId}
  }

  lemma IdsOfSnoc(s: seq<SpawnDistance>, x: SpawnDistance)
    ensures IdsOf(s + [x]) == IdsOf(s) + {x.area.areaId}
  {
    assert (s + [x])[..|s|] == s;
  }

  /** An id is among `IdsOf(s)` iff some entry of `s` has it. */
  lemma {:induction false} IdsOfMembers(s: seq<SpawnDistance>)
    ensures forall x :: x in s ==> x.area.areaId in IdsOf(s)
    ensures forall id :: id in IdsOf(s) ==> exists x :: x in s && x.area.areaId == id
  {
    if s != [] {
      var n := |s|;
      assert s == s[..n - 1] + [s[n - 1]];
      IdsOfMembers(s[..n - 1]);
    }
  }

  /** The connections `(current, o)` for every `o` of `s`, in order. */
  function ConnectionsTo(current: SpawnDistance, s: seq<SpawnDistance>): (r: seq<(SpawnDistance, SpawnDistance)>)
    ensures |r| == |s| && forall i :: 0 <= i < |s| ==> r[i] == (current, s[i])
  {
    seq(|s|, i requires 0 <= i < |s| => (current, s[i]))
  }

  // ---------------------------------------------------------------------
  // `get_distances_from_spawns`.

  /** What `find_path` needs of its inputs. */
  ghost predicate NavReady(sqrt: real -> real, astar: (Nav.Graph, nat, nat) -> Option<(real, seq<nat>)>, nav: Nav.Nav) {
    IsSqrt(sqrt) && Nav.IsAStar(astar, nav.graph) && Nav.ValidNav(sqrt, nav) && Nav.KeysAreIds(nav.areas)
  }

  /** The two-square mesh of the bindings test, with its search, meets what `find_path` needs. */
  lemma TwoSquaresNavReady(sqrt: real -> real, nav: Nav.Nav)
    requires IsSqrt(sqrt) && Nav.ValidNav(sqrt, nav) && Nav.TwoSquares(nav.areas, nav.order)
    ensures NavReady(sqrt, Nav.TwoSquaresAStar, nav)
  {
    Nav.TwoSquaresAStarIsAStar(sqrt, nav);
  }

  /** The path `find_path` reports from a spawn point to the area of id `id`. */
  function PathFrom(sqrt: real -> real, contains: (seq<(real, real)>, real, real) -> bool,
                    astar: (Nav.Graph, nat, nat) -> Option<(real, seq<nat>)>, nav: Nav.Nav,
                    spawn: Position, id: nat): Nav.PathResult
    requires NavReady(sqrt, astar, nav) && |nav.order| > 0
    requires id in nav.areas
  {
    Nav.FindPath(sqrt, contains, astar, nav, Nav.Pos(spawn), Nav.Id(id))
  }

  /**
   * `min_by` on the distance: nothing for an empty list, otherwise the
   * first path of least distance.
   */
  function FirstNearest(ps: seq<Nav.PathResult>): (r: Option<Nav.PathResult>)
    ensures r.None? <==> ps == []
    ensures r.Some? ==> forall i :: 0 <= i < |ps| ==> r.value.distance <= ps[i].distance
    ensures r.Some? ==> exists i :: (0 <= i < |ps| && r.value == ps[i] &&
              forall j :: 0 <= j < i ==> ps[j].distance > r.value.distance)
  {
    if ps == [] then None
    else
      var n := |ps|;
      var prefix := ps[..n - 1];
      assert forall i :: 0 <= i < n - 1 ==> prefix[i] == ps[i];
      var best := FirstNearest(prefix);
      if best.Some? && best.value.distance <= ps[n - 1].distance then best else Some(ps[n - 1])
  }

  /** The path from each spawn point to the area of id `id`. */
  function PathsFrom(sqrt: real -> real, contains: (seq<(real, real)>, real, real) -> bool,
                     astar: (Nav.Graph, nat, nat) -> Option<(real, seq<nat>)>, nav: Nav.Nav,
                     spawns: seq<Position>, id: nat): (ps: seq<Nav.PathResult>)
    requires NavReady(sqrt, astar, nav) && |nav.order| > 0
    requires id in nav.areas
    ensures |ps| == |spawns| && forall i :: 0 <= i < |spawns| ==> ps[i] == PathFrom(sqrt, contains, astar, nav, spawns[i], id)
  {
    seq(|spawns|, i requires 0 <= i < |spawns| => PathFrom(sqrt, contains, astar, nav, spawns[i], id))
  }

  /** The ids of the areas of a path. */
  function Ids(path: seq<Nav.NavArea>): (r: seq<nat>)
    ensures |r| == |path| && forall i :: 0 <= i < |path| ==> r[i] == path[i].areaId
  {
    seq(|path|, i requires 0 <= i < |path| => path[i].areaId)
  }

  /**
   * The entry of `area` for one side: infinitely far with an empty path
   * when the side has no spawn, otherwise the distance and path of the
   * nearest spawn.
   */
  function Entry(sqrt: real -> real, contains: (seq<(real, real)>, real, real) -> bool,
                 astar: (Nav.Graph, nat, nat) -> Option<(real, seq<nat>)>, nav: Nav.Nav,
                 spawns: seq<Position>, area: Nav.NavArea): (e: SpawnDistance)
    requires NavReady(sqrt, astar, nav) && |nav.order| > 0
    requires area.areaId in nav.areas
    ensures e.area == area
  {
    match FirstNearest(PathsFrom(sqrt, contains, astar, nav, spawns, area.areaId))
    case None => SpawnDistance(area, Inf, [])
    case Some(p) => SpawnDistance(area, Fin(p.distance), Ids(p.path))
  }

  /**
   * An entry is infinitely far, with an empty path, iff the side has no
   * spawn; otherwise its distance is the least over the spawns and its
   * path is the path of a spawn at that distance.
   */
  lemma EntryLaws(sqrt: real -> real, contains: (seq<(real, real)>, real, real) -> bool,
                  astar: (Nav.Graph, nat, nat) -> Option<(real, seq<nat>)>, nav: Nav.Nav,
                  spawns: seq<Position>, area: Nav.NavArea)
    requires NavReady(sqrt, astar, nav) && |nav.order| > 0
    requires area.areaId in nav.areas
    ensures var e := Entry(sqrt, contains, astar, nav, spawns, area);
            && (e.distance.Inf? <==> spawns == [])
            && (e.distance.Inf? ==> e.path == [])
            && (e.distance.Fin? ==>
                  (forall i :: 0 <= i < |spawns| ==>
                     e.distance.value <= PathFrom(sqrt, contains, astar, nav, spawns[i], area.areaId).distance) &&
                  (exists i :: 0 <= i < |spawns| &&
                     var p := PathFrom(sqrt, contains, astar, nav, spawns[i], area.areaId);
                     e.distance.value == p.distance && e.path == Ids(p.path)))
  {
    var ps := PathsFrom(sqrt, contains, astar, nav, spawns, area.areaId);
    var r := FirstNearest(ps);
    if r.Some? {
      var i :| 0 <= i < |ps| && r.value == ps[i] && forall j :: 0 <= j < i ==> ps[j].distance > r.value.distance;
      assert ps[i] == PathFrom(sqrt, contains, astar, nav, spawns[i], area.areaId);
    }
  }

  /**
   * The `par_iter().map(..).collect()` of `get_distances_from_spawns`: for
   * each area in map order, its CT entry and its T entry.
   */
  function Distances(sqrt: real -> real, contains: (seq<(real, real)>, real, real) -> bool,
                     astar: (Nav.Graph, nat, nat) -> Option<(real, seq<nat>)>, nav: Nav.Nav,
                     spawns: Spawns): (ds: seq<(SpawnDistance, SpawnDistance)>)
    requires NavReady(sqrt, astar, nav)
    ensures |ds| == |nav.order|
    ensures forall i :: 0 <= i < |ds| ==>
              ds[i].0.area == nav.areas[nav.order[i]] && ds[i].1.area == nav.areas[nav.order[i]]
  {
    seq(|nav.order|, i requires 0 <= i < |nav.order| =>
      var area := nav.areas[nav.order[i]];
      (Entry(sqrt, contains, astar, nav, spawns.ct, area), Entry(sqrt, contains, astar, nav, spawns.t, area)))
  }

  function Firsts<A, B>(ps: seq<(A, B)>): (r: seq<A>)
    ensures |r| == |ps| && forall i :: 0 <= i < |ps| ==> r[i] == ps[i].0
  {
    seq(|ps|, i requires 0 <= i < |ps| => ps[i].0)
  }

  function Seconds<A, B>(ps: seq<(A, B)>): (r: seq<B>)
    ensures |r| == |ps| && forall i :: 0 <= i < |ps| ==> r[i] == ps[i].1
  {
    seq(|ps|, i requires 0 <= i < |ps| => ps[i].1)
  }

  /** Each side's list holds one entry per area of the map. */
  lemma DistancesPerArea(sqrt: real -> real, contains: (seq<(real, real)>, real, real) -> bool,
                         astar: (Nav.Graph, nat, nat) -> Option<(real, seq<nat>)>, nav: Nav.Nav,
                         spawns: Spawns)
    requires NavReady(sqrt, astar, nav)
    ensures var ds := Distances(sqrt, contains, astar, nav, spawns);
            && OneEntryPerArea(nav.areas, Firsts(ds))
            && OneEntryPerArea(nav.areas, Seconds(ds))
  {
    var ds := Distances(sqrt, contains, astar, nav, spawns);
    ListedOncePerArea(nav.areas, nav.order, Firsts(ds));
    ListedOncePerArea(nav.areas, nav.order, Seconds(ds));
  }

  /** Every area has an entry, every entry is an area's, and no area has two. */
  ghost predicate OneEntryPerArea(areas: map<nat, Nav.NavArea>, es: seq<SpawnDistance>) {
    && (forall k :: k in areas ==> exists i :: 0 <= i < |es| && es[i].area == areas[k])
    && (forall i :: 0 <= i < |es| ==> es[i].area.areaId in areas && es[i].area == areas[es[i].area.areaId])
    && (forall i, j :: 0 <= i < j < |es| ==> es[i].area != es[j].area)
  }

  /** Listing the areas in map order gives one entry per area. */
  lemma ListedOncePerArea(areas: map<nat, Nav.NavArea>, order: seq<nat>, es: seq<SpawnDistance>)
    requires Nav.Listing(areas, order) && Nav.KeysAreIds(areas)
    requires |es| == |order| && forall i :: 0 <= i < |es| ==> es[i].area == areas[order[i]]
    ensures OneEntryPerArea(areas, es)
  {
    forall k | k in areas ensures exists i :: 0 <= i < |es| && es[i].area == areas[k] {
      var i :| 0 <= i < |order| && order[i] == k;
      assert es[i].area == areas[k];
    }
  }

  /** The loop that splits the pairs into the two lists. */
  method Unzip<A, B>(ps: seq<(A, B)>) returns (xs: seq<A>, ys: seq<B>)
    ensures xs == Firsts(ps) && ys == Seconds(ps)
  {
    xs, ys := [], [];
    for i := 0 to |ps|
      invariant xs == Firsts(ps[..i]) && ys == Seconds(ps[..i])
    {
      assert Firsts(ps[..i + 1]) == Firsts(ps[..i]) + [ps[i].0];
      assert Seconds(ps[..i + 1]) == Seconds(ps[..i]) + [ps[i].1];
      xs := xs + [ps[i].0];
      ys := ys + [ps[i].1];
    }
    assert ps[..|ps|] == ps;
  }

  /**
   * `get_distances_from_spawns`: the entries of each side for every area,
   * each list sorted by distance (stably, as `sort_by` is).
   */
  method GetDistancesFromSpawns(sqrt: real -> real, contains: (seq<(real, real)>, real, real) -> bool,
                                astar: (Nav.Graph, nat, nat) -> Option<(real, seq<nat>)>, nav: Nav.Nav,
                                spawns: Spawns) returns (d: SpawnDistances)
    requires NavReady(sqrt, astar, nav)
    ensures multiset(d.ct) == multiset(Firsts(Distances(sqrt, contains, astar, nav, spawns)))
    ensures multiset(d.t) == multiset(Seconds(Distances(sqrt, contains, astar, nav, spawns)))
    ensures Sorting.SortedBy(d.ct, ByDistance) && Sorting.SortedBy(d.t, ByDistance)
    ensures HasInf(d.ct) <==> spawns.ct == [] && |nav.order| > 0
    ensures HasInf(d.t) <==> spawns.t == [] && |nav.order| > 0
  {
    var distances := Distances(sqrt, contains, astar, nav, spawns);
    var cts, ts := Unzip(distances);
    ByDistanceIsTotalPreorder();
    d := SpawnDistances(Sorting.SortBy(cts, ByDistance), Sorting.SortBy(ts, ByDistance));
    DistancesInfinite(sqrt, contains, astar, nav, spawns);
    HasInfIff(cts, spawns.ct == []);
    HasInfIff(ts, spawns.t == []);
    HasInfPermutation(d.ct, cts);
    HasInfPermutation(d.t, ts);
  }

  /** An entry of the distance lists is infinitely far exactly when its side has no spawn. */
  lemma DistancesInfinite(sqrt: real -> real, contains: (seq<(real, real)>, real, real) -> bool,
                          astar: (Nav.Graph, nat, nat) -> Option<(real, seq<nat>)>, nav: Nav.Nav,
                          spawns: Spawns)
    requires NavReady(sqrt, astar, nav)
    ensures var ds := Distances(sqrt, contains, astar, nav, spawns);
            forall i :: 0 <= i < |ds| ==>
              && (ds[i].0.distance.Inf? <==> spawns.ct == [])
              && (ds[i].1.distance.Inf? <==> spawns.t == [])
  {
    var ds := Distances(sqrt, contains, astar, nav, spawns);
    forall i | 0 <= i < |ds|
      ensures (ds[i].0.distance.Inf? <==> spawns.ct == []) && (ds[i].1.distance.Inf? <==> spawns.t == [])
    {
      var area := nav.areas[nav.order[i]];
      EntryLaws(sqrt, contains, astar, nav, spawns.ct, area);
      EntryLaws(sqrt, contains, astar, nav, spawns.t, area);
    }
  }

  /** A list all of whose entries are infinite exactly when `b` has one iff it is non-empty and `b` holds. */
  lemma HasInfIff(list: seq<SpawnDistance>, b: bool)
    requires forall i :: 0 <= i < |list| ==> (list[i].distance.Inf? <==> b)
    ensures HasInf(list) <==> b && |list| > 0
  {
    if b && |list| > 0 {
      assert list[0] in list;
    }
  }

  /** Reordering a list does not change whether it has an infinite entry. */
  lemma HasInfPermutation(a: seq<SpawnDistance>, b: seq<SpawnDistance>)
    requires multiset(a) == multiset(b)
    ensures HasInf(a) <==> HasInf(b)
  {
    forall e ensures e in a <==> e in b {
      assert e in a <==> e in multiset(a);
      assert e in b <==> e in multiset(b);
    }
  }

  /**
   * An area no spawn of a non-empty side can reach is reported at the
   * finite distance `f64::MAX`, not at infinity.
   */
  lemma UnreachableIsFinite(sqrt: real -> real, contains: (seq<(real, real)>, real, real) -> bool,
                            astar: (Nav.Graph, nat, nat) -> Option<(real, seq<nat>)>, nav: Nav.Nav,
                            spawns: seq<Position>, area: Nav.NavArea)
    requires NavReady(sqrt, astar, nav) && |nav.order| > 0 && spawns != []
    requires area.areaId in nav.areas
    requires forall i, p :: 0 <= i < |spawns| ==>
               !Nav.IsPath(nav.graph, p, Nav.Resolve(sqrt, contains, nav, Nav.Pos(spawns[i])), area.areaId)
    ensures Entry(sqrt, contains, astar, nav, spawns, area) == SpawnDistance(area, Fin(Nav.F64_MAX), [])
  {
    forall i | 0 <= i < |spawns|
      ensures PathFrom(sqrt, contains, astar, nav, spawns[i], area.areaId) == Nav.PathResult([], Nav.F64_MAX)
    {
      var s := Nav.Resolve(sqrt, contains, nav, Nav.Pos(spawns[i]));
      var r := astar(nav.graph, s, area.areaId);
      assert r.Some? ==> Nav.IsPath(nav.graph, r.value.1, s, area.areaId);
    }
  }

  // ---------------------------------------------------------------------
  // `newly_visible_fine` and `newly_visible_rough`.

  /** The test `newly_visible_fine` applies to each previous opposing area. */
  predicate FineKeeps(current: SpawnDistance, o: SpawnDistance, visible: (Nav.NavArea, Nav.NavArea) -> bool,
                      ownSpotted: set<nat>, oppSpotted: set<nat>) {
    !(current.area.areaId in ownSpotted && o.area.areaId in oppSpotted) && visible(current.area, o.area)
  }

  function FineTest(current: SpawnDistance, visible: (Nav.NavArea, Nav.NavArea) -> bool,
                    ownSpotted: set<nat>, oppSpotted: set<nat>): (f: SpawnDistance -> bool)
    ensures forall o :: f(o) == FineKeeps(current, o, visible, ownSpotted, oppSpotted)
  {
    o => FineKeeps(current, o, visible, ownSpotted, oppSpotted)
  }

  /**
   * `newly_visible_fine`: the previous opposing areas, in order, that are
   * visible and not already accounted for by both spotted sets.
   */
  function NewlyVisibleFine(current: SpawnDistance, prev: seq<SpawnDistance>,
                            visible: (Nav.NavArea, Nav.NavArea) -> bool,
                            ownSpotted: set<nat>, oppSpotted: set<nat>): (r: seq<SpawnDistance>)
    ensures |r| <= |prev|
    ensures forall o :: o in r <==> o in prev && FineKeeps(current, o, visible, ownSpotted, oppSpotted)
  {
    FilterMembers(prev, FineTest(current, visible, ownSpotted, oppSpotted));
    Filter(prev, FineTest(current, visible, ownSpotted, oppSpotted))
  }

  /** `newly_visible_fine` keeps the input order: on a concatenation it works part by part. */
  lemma FineKeepsOrder(current: SpawnDistance, a: seq<SpawnDistance>, b: seq<SpawnDistance>,
                       visible: (Nav.NavArea, Nav.NavArea) -> bool, ownSpotted: set<nat>, oppSpotted: set<nat>)
    ensures NewlyVisibleFine(current, a + b, visible, ownSpotted, oppSpotted) ==
            NewlyVisibleFine(current, a, visible, ownSpotted, oppSpotted) +
            NewlyVisibleFine(current, b, visible, ownSpotted, oppSpotted)
  {
    FilterAppend(a, b, FineTest(current, visible, ownSpotted, oppSpotted));
  }

  /** Some area of the current path is own-spotted. */
  predicate PathSpotted(current: SpawnDistance, ownSpotted: set<nat>) {
    exists i :: 0 <= i < |current.path| && current.path[i] in ownSpotted
  }

  /** The test `newly_visible_rough` applies to each sorted opposing area. */
  function SeenFrom(current: SpawnDistance, visible: (Nav.NavArea, Nav.NavArea) -> bool): (f: SpawnDistance -> bool)
    ensures forall o :: f(o) == visible(current.area, o.area)
  {
    (o: SpawnDistance) => visible(current.area, o.area)
  }

  /**
   * What `newly_visible_rough` returns: nothing when some area of the current
   * path is own-spotted, otherwise the visible previous opposing areas in
   * order of distance.
   */
  function RoughVisible(current: SpawnDistance, prev: seq<SpawnDistance>,
                        visible: (Nav.NavArea, Nav.NavArea) -> bool, ownSpotted: set<nat>): (r: seq<SpawnDistance>)
    ensures PathSpotted(current, ownSpotted) ==> r == []
    ensures !PathSpotted(current, ownSpotted) ==>
              forall o :: o in r <==> o in prev && visible(current.area, o.area)
    ensures Sorting.SortedBy(r, ByDistance)
  {
    if PathSpotted(current, ownSpotted) then []
    else
      ByDistanceIsTotalPreorder();
      var sorted := Sorting.SortBy(prev, ByDistance);
      assert forall o :: o in sorted <==> o in multiset(sorted);
      assert forall o :: o in prev <==> o in multiset(prev);
      FilterSorted(sorted, SeenFrom(current, visible), ByDistance);
      FilterMembers(sorted, SeenFrom(current, visible));
      Filter(sorted, SeenFrom(current, visible))
  }

  /**
   * `newly_visible_rough`: the areas of `RoughVisible`, marking the current
   * area own-spotted and each returned area opposing-spotted.
   */
  method NewlyVisibleRough(current: SpawnDistance, prev: seq<SpawnDistance>,
                           visible: (Nav.NavArea, Nav.NavArea) -> bool,
                           ownSpotted: set<nat>, oppSpotted: set<nat>)
    returns (results: seq<SpawnDistance>, own: set<nat>, opp: set<nat>)
    ensures results == RoughVisible(current, prev, visible, ownSpotted)
    ensures own == ownSpotted + (if results == [] then {} else {current.area.areaId})
    ensures opp == oppSpotted + IdsOf(results)
  {
    results, own, opp := [], ownSpotted, oppSpotted;
    if exists i :: 0 <= i < |current.path| && current.path[i] in ownSpotted {
      return;
    }
    ByDistanceIsTotalPreorder();
    var sorted := Sorting.SortBy(prev, ByDistance);
    results, own, opp := SpotVisible(current, sorted, visible, ownSpotted, oppSpotted);
  }

  /** The loop of `newly_visible_rough` over the sorted opposing areas. */
  method SpotVisible(current: SpawnDistance, sorted: seq<SpawnDistance>,
                     visible: (Nav.NavArea, Nav.NavArea) -> bool,
                     ownSpotted: set<nat>, oppSpotted: set<nat>)
    returns (results: seq<SpawnDistance>, own: set<nat>, opp: set<nat>)
    ensures results == Filter(sorted, SeenFrom(current, visible))
    ensures own == ownSpotted + (if results == [] then {} else {current.area.areaId})
    ensures opp == oppSpotted + IdsOf(results)
  {
    results, own, opp := [], ownSpotted, oppSpotted;
    ghost var keep := SeenFrom(current, visible);
    for k := 0 to |sorted|
      invariant results == Filter(sorted[..k], keep)
      invariant own == ownSpotted + (if results == [] then {} else {current.area.areaId})
      invariant opp == oppSpotted + IdsOf(results)
    {
      FilterSnoc(sorted, k, keep);
      if visible(current.area, sorted[k].area) {
        assert keep(sorted[k]);
        IdsOfSnoc(results, sorted[k]);
        own := own + {current.area.areaId};
        opp := opp + {sorted[k].area.areaId};
        results := results + [sorted[k]];
      } else {
        assert !keep(sorted[k]);
      }
    }
    assert sorted[..|sorted|] == sorted;
  }

  /** `newly_visible`: the style picks the rule. */
  function NewlyVisible(style: SpreadStyle, current: SpawnDistance, prev: seq<SpawnDistance>,
                        visible: (Nav.NavArea, Nav.NavArea) -> bool,
                        ownSpotted: set<nat>, oppSpotted: set<nat>): (r: seq<SpawnDistance>)
    ensures forall o :: o in r ==> o in prev && visible(current.area, o.area)
  {
    match style
    case Fine => NewlyVisibleFine(current, prev, visible, ownSpotted, oppSpotted)
    case Rough => RoughVisible(current, prev, visible, ownSpotted)
  }

  // ---------------------------------------------------------------------
  // `round_up_to_next_100`.

  /** The least integer not below `x` (`ceil`). */
  function Ceil(x: real): (c: int)
    ensures x <= c as real < x + 1.0
  {
    -((-x).Floor)
  }

  predicate MultipleOf100(r: real) {
    (r / 100.0).Floor as real * 100.0 == r
  }

  /** `round_up_to_next_100`: a multiple of 100 at most 100 above `v`, and not below it. */
  function RoundUpToNext100(v: real): (r: real)
    ensures MultipleOf100(r)
    ensures v <= r < v + 100.0
  {
    Ceil(v / 100.0) as real * 100.0
  }

  /** No multiple of 100 between `v` and `RoundUpToNext100(v)` is smaller. */
  lemma RoundUpIsLeast(v: real, m: real)
    requires MultipleOf100(m) && v <= m
    ensures RoundUpToNext100(v) <= m
  {
    var k := (m / 100.0).Floor;
    assert k as real * 100.0 == m;
    assert m / 100.0 == k as real;
    assert v / 100.0 <= m / 100.0;
    var c := Ceil(v / 100.0);
    assert (c - 1) as real < v / 100.0;
    assert c <= k;
    assert c as real * 100.0 <= k as real * 100.0;
  }

  // ---------------------------------------------------------------------
  // `generate_spreads`.

  /**
   * The loop's state: the index into each list, the marked, newly marked
   * and spotted ids of each side, the connections kept, the last plotted
   * distance (`None` for `f64::NEG_INFINITY`) and the records emitted.
   */
  datatype SpreadState = SpreadState(
    ctIndex: nat,
    tIndex: nat,
    markedCt: set<nat>,
    markedT: set<nat>,
    newMarkedCt: set<nat>,
    newMarkedT: set<nat>,
    spottedCt: set<nat>,
    spottedT: set<nat>,
    connections: seq<(SpawnDistance, SpawnDistance)>,
    lastPlotted: Option<real>,
    result: seq<SpreadResult>)

  const Start := SpreadState(0, 0, {}, {}, {}, {}, {}, {}, [], None, [])

  /** Both heads exist. */
  predicate InRange(ct: seq<SpawnDistance>, t: seq<SpawnDistance>, s: SpreadState) {
    s.ctIndex < |ct| && s.tIndex < |t|
  }

  /** The CT head is taken iff its distance is strictly less than the T head's. */
  predicate CtTurn(ct: seq<SpawnDistance>, t: seq<SpawnDistance>, s: SpreadState)
    requires InRange(ct, t, s)
  {
    Less(ct[s.ctIndex].distance, t[s.tIndex].distance)
  }

  function Current(ct: seq<SpawnDistance>, t: seq<SpawnDistance>, s: SpreadState): SpawnDistance
    requires InRange(ct, t, s)
  {
    if CtTurn(ct, t, s) then ct[s.ctIndex] else t[s.tIndex]
  }

  /** `opposing_prev`: the entries of the opposing list whose area is marked or newly marked. */
  function OpposingPrevious(list: seq<SpawnDistance>, marked: set<nat>, newMarked: set<nat>): (r: seq<SpawnDistance>)
    ensures forall o :: o in r <==> o in list && (o.area.areaId in marked || o.area.areaId in newMarked)
  {
    FilterMembers(list, MarkedTest(marked, newMarked));
    Filter(list, MarkedTest(marked, newMarked))
  }

  function MarkedTest(marked: set<nat>, newMarked: set<nat>): (f: SpawnDistance -> bool)
    ensures forall o :: f(o) == (o.area.areaId in marked || o.area.areaId in newMarked)
  {
    (o: SpawnDistance) => o.area.areaId in marked || o.area.areaId in newMarked
  }

  function Opposing(ct: seq<SpawnDistance>, t: seq<SpawnDistance>, s: SpreadState): seq<SpawnDistance>
    requires InRange(ct, t, s)
  {
    if CtTurn(ct, t, s) then OpposingPrevious(t, s.markedT, s.newMarkedT)
    else OpposingPrevious(ct, s.markedCt, s.newMarkedCt)
  }

  /** The current area becomes own-spotted when its predecessor on the path is. */
  function AfterPredecessor(current: SpawnDistance, own: set<nat>): (r: set<nat>)
    ensures own <= r <= own + {current.area.areaId}
    ensures |current.path| >= 2 && current.path[|current.path| - 2] in own ==> current.area.areaId in r
  {
    if |current.path| >= 2 && current.path[|current.path| - 2] in own then own + {current.area.areaId} else own
  }

  /** The own-spotted set of the side that moves, once its predecessor rule has applied. */
  function OwnSpotted(ct: seq<SpawnDistance>, t: seq<SpawnDistance>, s: SpreadState): set<nat>
    requires InRange(ct, t, s)
  {
    AfterPredecessor(Current(ct, t, s), if CtTurn(ct, t, s) then s.spottedCt else s.spottedT)
  }

  function OppSpotted(ct: seq<SpawnDistance>, t: seq<SpawnDistance>, s: SpreadState): set<nat>
    requires InRange(ct, t, s)
  {
    if CtTurn(ct, t, s) then s.spottedT else s.spottedCt
  }

  /** The areas newly visible from the current one. */
  function VisibleNow(ct: seq<SpawnDistance>, t: seq<SpawnDistance>, visible: (Nav.NavArea, Nav.NavArea) -> bool,
                      style: SpreadStyle, s: SpreadState): seq<SpawnDistance>
    requires InRange(ct, t, s)
  {
    NewlyVisible(style, Current(ct, t, s), Opposing(ct, t, s), visible, OwnSpotted(ct, t, s), OppSpotted(ct, t, s))
  }

  /** The step is not plotted: nothing became visible and the distance is within 100 of the last plotted frame. */
  predicate Skipped(d: real, vis: seq<SpawnDistance>, lastPlotted: Option<real>) {
    vis == [] && lastPlotted.Some? && d <= lastPlotted.value + 100.0
  }

  /**
   * One pass of the `loop` of `generate_spreads`: the next state, and
   * whether the loop breaks.
   */
  function Next(ct: seq<SpawnDistance>, t: seq<SpawnDistance>, visible: (Nav.NavArea, Nav.NavArea) -> bool,
                style: SpreadStyle, s: SpreadState): (SpreadState, bool)
    requires InRange(ct, t, s)
  {
    var ctTurn := CtTurn(ct, t, s);
    var current := Current(ct, t, s);
    var id := current.area.areaId;
    var newCt := if ctTurn then s.newMarkedCt + {id} else s.newMarkedCt;
    var newT := if ctTurn then s.newMarkedT else s.newMarkedT + {id};
    var ci := if ctTurn then s.ctIndex + 1 else s.ctIndex;
    var ti := if ctTurn then s.tIndex else s.tIndex + 1;
    if current.distance.Inf? then
      var last := SpreadResult(newCt, newT, s.markedCt, s.markedT, s.connections, false);
      (s.(ctIndex := ci, tIndex := ti, newMarkedCt := newCt, newMarkedT := newT, result := s.result + [last]), true)
    else
      var vis := VisibleNow(ct, t, visible, style, s);
      var own := OwnSpotted(ct, t, s) + (if vis == [] then {} else {id});
      var opp := OppSpotted(ct, t, s) + IdsOf(vis);
      var spottedCt := if ctTurn then own else opp;
      var spottedT := if ctTurn then opp else own;
      var conns := s.connections + ConnectionsTo(current, vis);
      (Plotted(style, s, ci, ti, newCt, newT, spottedCt, spottedT, conns, vis, current.distance.value), false)
  }

  /**
   * The end of a pass that does not break, at distance `d`: the pass is
   * skipped, or a record is emitted and the new marks move into the marks.
   */
  function Plotted(style: SpreadStyle, s: SpreadState, ci: nat, ti: nat, newCt: set<nat>, newT: set<nat>,
                   spottedCt: set<nat>, spottedT: set<nat>, conns: seq<(SpawnDistance, SpawnDistance)>,
                   vis: seq<SpawnDistance>, d: real): SpreadState
  {
    if Skipped(d, vis, s.lastPlotted) then
      SpreadState(ci, ti, s.markedCt, s.markedT, newCt, newT, spottedCt, spottedT, conns, s.lastPlotted, s.result)
    else
      var frame := SpreadResult(newCt, newT, s.markedCt, s.markedT, conns, vis != []);
      SpreadState(ci, ti, s.markedCt + newCt, s.markedT + newT, {}, {}, spottedCt, spottedT,
                  if style == Fine then [] else conns, Some(RoundUpToNext100(d)), s.result + [frame])
  }

  /** One pass of the loop body, in the source's own steps. */
  method Advance(ct: seq<SpawnDistance>, t: seq<SpawnDistance>, visible: (Nav.NavArea, Nav.NavArea) -> bool,
                 style: SpreadStyle, s: SpreadState) returns (next: SpreadState, stop: bool)
    requires InRange(ct, t, s)
    ensures (next, stop) == Next(ct, t, visible, style, s)
  {
    var ctTurn, current, newCt, newT, ci, ti, opposing, own, opp := TakeHead(ct, t, s);
    if current.distance.Inf? {
      var last := SpreadResult(newCt, newT, s.markedCt, s.markedT, s.connections, false);
      next := s.(ctIndex := ci, tIndex := ti, newMarkedCt := newCt, newMarkedT := newT, result := s.result + [last]);
      stop := true;
      return;
    }
    stop := false;
    assert AfterPredecessor(current, own) == OwnSpotted(ct, t, s) && opp == OppSpotted(ct, t, s);
    var vis, conns;
    vis, own, opp, conns := Visit(style, visible, current, opposing, own, opp, s.connections);
    assert vis == VisibleNow(ct, t, visible, style, s);
    var spottedCt := if ctTurn then own else opp;
    var spottedT := if ctTurn then opp else own;
    next := Plot(style, s, ci, ti, newCt, newT, spottedCt, spottedT, conns, vis, current.distance.value);
  }

  /**
   * Taking the head: which side moves, its entry, the new marks and
   * indices, the opposing areas and the two spotted sets.
   */
  method TakeHead(ct: seq<SpawnDistance>, t: seq<SpawnDistance>, s: SpreadState)
    returns (ctTurn: bool, current: SpawnDistance, newCt: set<nat>, newT: set<nat>, ci: nat, ti: nat,
             opposing: seq<SpawnDistance>, own: set<nat>, opp: set<nat>)
    requires InRange(ct, t, s)
    ensures ctTurn == CtTurn(ct, t, s) && current == Current(ct, t, s)
    ensures newCt == (if ctTurn then s.newMarkedCt + {current.area.areaId} else s.newMarkedCt)
    ensures newT == (if ctTurn then s.newMarkedT else s.newMarkedT + {current.area.areaId})
    ensures ci == (if ctTurn then s.ctIndex + 1 else s.ctIndex) && ti == (if ctTurn then s.tIndex else s.tIndex + 1)
    ensures opposing == Opposing(ct, t, s)
    ensures own == (if ctTurn then s.spottedCt else s.spottedT) && opp == OppSpotted(ct, t, s)
  {
    ci, ti := s.ctIndex, s.tIndex;
    newCt, newT := s.newMarkedCt, s.newMarkedT;
    ctTurn := Less(ct[ci].distance, t[ti].distance);
    if ctTurn {
      current := ct[ci];
      newCt := newCt + {current.area.areaId};
      opposing := OpposingPrevious(t, s.markedT, s.newMarkedT);
      ci := ci + 1;
      own, opp := s.spottedCt, s.spottedT;
    } else {
      current := t[ti];
      newT := newT + {current.area.areaId};
      opposing := OpposingPrevious(ct, s.markedCt, s.newMarkedCt);
      ti := ti + 1;
      own, opp := s.spottedT, s.spottedCt;
    }
  }

  /** The end of a pass that does not break: skip the plot, or emit a record. */
  method Plot(style: SpreadStyle, s: SpreadState, ci: nat, ti: nat, newCt: set<nat>, newT: set<nat>,
              spottedCt: set<nat>, spottedT: set<nat>, conns0: seq<(SpawnDistance, SpawnDistance)>,
              vis: seq<SpawnDistance>, d: real)
    returns (next: SpreadState)
    ensures next == Plotted(style, s, ci, ti, newCt, newT, spottedCt, spottedT, conns0, vis, d)
  {
    if vis == [] && s.lastPlotted.Some? && d <= s.lastPlotted.value + 100.0 {
      next := SpreadState(ci, ti, s.markedCt, s.markedT, newCt, newT, spottedCt, spottedT, conns0, s.lastPlotted, s.result);
      return;
    }
    var conns := conns0;
    var frame := SpreadResult(newCt, newT, s.markedCt, s.markedT, conns, vis != []);
    var lastPlotted := Some(RoundUpToNext100(d));
    var markedCt, markedT := s.markedCt + newCt, s.markedT + newT;
    if style == Fine {
      conns := [];
    }
    next := SpreadState(ci, ti, markedCt, markedT, {}, {}, spottedCt, spottedT, conns, lastPlotted, s.result + [frame]);
  }

  /**
   * The part of a pass between taking the head and plotting: the
   * predecessor rule, `newly_visible`, and the marking of what became
   * visible.
   */
  method Visit(style: SpreadStyle, visible: (Nav.NavArea, Nav.NavArea) -> bool, current: SpawnDistance,
               opposing: seq<SpawnDistance>, own0: set<nat>, opp0: set<nat>,
               conns0: seq<(SpawnDistance, SpawnDistance)>)
    returns (vis: seq<SpawnDistance>, own: set<nat>, opp: set<nat>, conns: seq<(SpawnDistance, SpawnDistance)>)
    ensures vis == NewlyVisible(style, current, opposing, visible, AfterPredecessor(current, own0), opp0)
    ensures own == AfterPredecessor(current, own0) + (if vis == [] then {} else {current.area.areaId})
    ensures opp == opp0 + IdsOf(vis)
    ensures conns == conns0 + ConnectionsTo(current, vis)
  {
    own, opp, conns := own0, opp0, conns0;
    var id := current.area.areaId;
    if |current.path| >= 2 && current.path[|current.path| - 2] in own {
      own := own + {id};
    }
    match style {
      case Fine =>
        vis := NewlyVisibleFine(current, opposing, visible, own, opp);
      case Rough =>
        vis, own, opp := NewlyVisibleRough(current, opposing, visible, own, opp);
    }
    if vis != [] {
      own := own + {id};
      opp, conns := RecordSpotted(current, vis, opp, conns);
    }
  }

  /** The loop over the visible areas: each becomes opposing-spotted and gets a connection. */
  method RecordSpotted(current: SpawnDistance, vis: seq<SpawnDistance>, opp0: set<nat>,
                       conns0: seq<(SpawnDistance, SpawnDistance)>)
    returns (opp: set<nat>, conns: seq<(SpawnDistance, SpawnDistance)>)
    ensures opp == opp0 + IdsOf(vis)
    ensures conns == conns0 + ConnectionsTo(current, vis)
  {
    opp, conns := opp0, conns0;
    for k := 0 to |vis|
      invariant opp == opp0 + IdsOf(vis[..k])
      invariant conns == conns0 + ConnectionsTo(current, vis[..k])
    {
      assert vis[..k + 1] == vis[..k] + [vis[k]];
      IdsOfSnoc(vis[..k], vis[k]);
      opp := opp + {vis[k].area.areaId};
      conns := conns + [(current, vis[k])];
    }
    assert vis[..|vis|] == vis;
  }

  // ---------------------------------------------------------------------
  // What the emitted records promise.

  /**
   * The records of a run: the first starts with nothing marked; each
   * record's old marks are the previous record's old and new marks; every
   * record marks some area; in the fine style a record has connections
   * exactly when it says it has new ones; in the rough style connections
   * only accumulate.
   */
  ghost predicate Chained(style: SpreadStyle, rs: seq<SpreadResult>) {
    && MarksChained(rs)
    && (forall i :: 0 <= i < |rs| ==> rs[i].newMarkedCt + rs[i].newMarkedT != {})
    && (style == Fine ==> forall i :: 0 <= i < |rs| ==>
          (rs[i].containsNewConnections <==> rs[i].visibilityConnections != []))
    && (style == Rough ==> ConnectionsAccumulate(rs))
  }

  ghost predicate MarksChained(rs: seq<SpreadResult>) {
    && (|rs| > 0 ==> rs[0].oldMarkedCt == {} && rs[0].oldMarkedT == {})
    && (forall i :: 0 < i < |rs| ==>
          rs[i].oldMarkedCt == rs[i - 1].oldMarkedCt + rs[i - 1].newMarkedCt &&
          rs[i].oldMarkedT == rs[i - 1].oldMarkedT + rs[i - 1].newMarkedT)
  }

  ghost predicate ConnectionsAccumulate(rs: seq<SpreadResult>) {
    forall i :: 0 < i < |rs| ==> rs[i - 1].visibilityConnections <= rs[i].visibilityConnections
  }

  lemma MarksChainedSnoc(rs: seq<SpreadResult>, r: SpreadResult)
    requires MarksChained(rs)
    requires rs == [] ==> r.oldMarkedCt == {} && r.oldMarkedT == {}
    requires rs != [] ==> r.oldMarkedCt == rs[|rs| - 1].oldMarkedCt + rs[|rs| - 1].newMarkedCt &&
                          r.oldMarkedT == rs[|rs| - 1].oldMarkedT + rs[|rs| - 1].newMarkedT
    ensures MarksChained(rs + [r])
  {
    var rs' := rs + [r];
    assert forall i :: 0 <= i < |rs| ==> rs'[i] == rs[i];
  }

  lemma ConnectionsAccumulateSnoc(rs: seq<SpreadResult>, r: SpreadResult)
    requires ConnectionsAccumulate(rs)
    requires rs != [] ==> rs[|rs| - 1].visibilityConnections <= r.visibilityConnections
    ensures ConnectionsAccumulate(rs + [r])
  {
    var rs' := rs + [r];
    assert forall i :: 0 <= i < |rs| ==> rs'[i] == rs[i];
  }

  /** The state between passes: the records so far are chained, and the state continues them. */
  ghost predicate Consistent(style: SpreadStyle, s: SpreadState) {
    && Chained(style, s.result)
    && (s.result == [] ==> s.markedCt == {} && s.markedT == {})
    && (s.result != [] ==>
          var last := s.result[|s.result| - 1];
          && s.markedCt == last.oldMarkedCt + last.newMarkedCt
          && s.markedT == last.oldMarkedT + last.newMarkedT
          && (style == Rough ==> last.visibilityConnections <= s.connections))
    && (style == Fine ==> s.connections == [])
  }

  /** Appending a record that continues the chain keeps it chained. */
  lemma ChainedSnoc(style: SpreadStyle, rs: seq<SpreadResult>, r: SpreadResult)
    requires Chained(style, rs)
    requires rs == [] ==> r.oldMarkedCt == {} && r.oldMarkedT == {}
    requires rs != [] ==> r.oldMarkedCt == rs[|rs| - 1].oldMarkedCt + rs[|rs| - 1].newMarkedCt &&
                          r.oldMarkedT == rs[|rs| - 1].oldMarkedT + rs[|rs| - 1].newMarkedT
    requires r.newMarkedCt + r.newMarkedT != {}
    requires style == Fine ==> (r.containsNewConnections <==> r.visibilityConnections != [])
    requires style == Rough && rs != [] ==> rs[|rs| - 1].visibilityConnections <= r.visibilityConnections
    ensures Chained(style, rs + [r])
  {
    var rs' := rs + [r];
    assert forall i :: 0 <= i < |rs| ==> rs'[i] == rs[i];
    MarksChainedSnoc(rs, r);
    if style == Rough {
      ConnectionsAccumulateSnoc(rs, r);
    }
  }

  /** A pass that emits `frame` and continues keeps the state consistent. */
  lemma EmitKeepsConsistent(style: SpreadStyle, s: SpreadState, frame: SpreadResult, s': SpreadState)
    requires Consistent(style, s)
    requires frame.oldMarkedCt == s.markedCt && frame.oldMarkedT == s.markedT
    requires frame.newMarkedCt + frame.newMarkedT != {}
    requires s.connections <= frame.visibilityConnections
    requires style == Fine ==> (frame.containsNewConnections <==> frame.visibilityConnections != [])
    requires s'.result == s.result + [frame]
    requires s'.markedCt == s.markedCt + frame.newMarkedCt && s'.markedT == s.markedT + frame.newMarkedT
    requires style == Fine ==> s'.connections == []
    requires style == Rough ==> s'.connections == frame.visibilityConnections
    ensures Consistent(style, s')
  {
    ChainedSnoc(style, s.result, frame);
  }

  /** A pass that emits nothing and keeps marks and connections keeps the state consistent. */
  lemma SkipKeepsConsistent(style: SpreadStyle, s: SpreadState, s': SpreadState)
    requires Consistent(style, s)
    requires s'.result == s.result && s'.markedCt == s.markedCt && s'.markedT == s.markedT
    requires s'.connections == s.connections
    ensures Consistent(style, s')
  {
  }

  /** Every pass keeps the state consistent, or breaks with a chained, final record. */
  lemma NextConsistent(ct: seq<SpawnDistance>, t: seq<SpawnDistance>, visible: (Nav.NavArea, Nav.NavArea) -> bool,
                       style: SpreadStyle, s: SpreadState)
    requires InRange(ct, t, s) && Consistent(style, s)
    ensures var (s', stop) := Next(ct, t, visible, style, s);
            && (!stop ==> Consistent(style, s'))
            && (stop ==> Chained(style, s'.result) && |s'.result| > 0 &&
                         !s'.result[|s'.result| - 1].containsNewConnections)
  {
    var current := Current(ct, t, s);
    if current.distance.Inf? {
      BreakConsistent(ct, t, visible, style, s);
    } else if Skipped(current.distance.value, VisibleNow(ct, t, visible, style, s), s.lastPlotted) {
      SkipConsistent(ct, t, visible, style, s);
    } else {
      EmitConsistent(ct, t, visible, style, s);
    }
  }

  /** The breaking pass appends a final record that keeps the chain. */
  lemma BreakConsistent(ct: seq<SpawnDistance>, t: seq<SpawnDistance>, visible: (Nav.NavArea, Nav.NavArea) -> bool,
                        style: SpreadStyle, s: SpreadState)
    requires InRange(ct, t, s) && Consistent(style, s) && Current(ct, t, s).distance.Inf?
    ensures var (s', stop) := Next(ct, t, visible, style, s);
            stop && Chained(style, s'.result) && |s'.result| > 0 && !s'.result[|s'.result| - 1].containsNewConnections
  {
    var (s', stop) := Next(ct, t, visible, style, s);
    var last := s'.result[|s'.result| - 1];
    assert s'.result == s.result + [last];
    ChainedSnoc(style, s.result, last);
  }

  /** A skipped pass keeps the state consistent. */
  lemma SkipConsistent(ct: seq<SpawnDistance>, t: seq<SpawnDistance>, visible: (Nav.NavArea, Nav.NavArea) -> bool,
                       style: SpreadStyle, s: SpreadState)
    requires InRange(ct, t, s) && Consistent(style, s) && Current(ct, t, s).distance.Fin?
    requires Skipped(Current(ct, t, s).distance.value, VisibleNow(ct, t, visible, style, s), s.lastPlotted)
    ensures var (s', stop) := Next(ct, t, visible, style, s);
            !stop && Consistent(style, s')
  {
    var (s', stop) := Next(ct, t, visible, style, s);
    assert ConnectionsTo(Current(ct, t, s), VisibleNow(ct, t, visible, style, s)) == [];
    SkipKeepsConsistent(style, s, s');
  }

  /** A plotted pass that goes on keeps the state consistent. */
  lemma EmitConsistent(ct: seq<SpawnDistance>, t: seq<SpawnDistance>, visible: (Nav.NavArea, Nav.NavArea) -> bool,
                       style: SpreadStyle, s: SpreadState)
    requires InRange(ct, t, s) && Consistent(style, s) && Current(ct, t, s).distance.Fin?
    requires !Skipped(Current(ct, t, s).distance.value, VisibleNow(ct, t, visible, style, s), s.lastPlotted)
    ensures var (s', stop) := Next(ct, t, visible, style, s);
            !stop && Consistent(style, s')
  {
    var (s', stop) := Next(ct, t, visible, style, s);
    var frame := s'.result[|s'.result| - 1];
    assert s'.result == s.result + [frame];
    assert frame.visibilityConnections == s.connections + ConnectionsTo(Current(ct, t, s), VisibleNow(ct, t, visible, style, s));
    EmitKeepsConsistent(style, s, frame, s');
  }

  /** A list with an infinitely distant entry. */
  ghost predicate HasInf(list: seq<SpawnDistance>) {
    exists e :: e in list && e.distance.Inf?
  }

  /** The position of the first infinitely distant entry. */
  function FirstInf(list: seq<SpawnDistance>): (k: nat)
    requires HasInf(list)
    ensures k < |list| && list[k].distance.Inf?
    ensures forall j :: 0 <= j < k ==> list[j].distance.Fin?
  {
    if list[0].distance.Inf? then 0
    else
      assert list == [list[0]] + list[1..];
      1 + FirstInf(list[1..])
  }

  /** A pass that does not break takes a finite head, so it stays before the first infinite entry. */
  lemma NextStaysInRange(ct: seq<SpawnDistance>, t: seq<SpawnDistance>, visible: (Nav.NavArea, Nav.NavArea) -> bool,
                         style: SpreadStyle, s: SpreadState)
    requires HasInf(ct) && HasInf(t) && s.ctIndex <= FirstInf(ct) && s.tIndex <= FirstInf(t)
    ensures InRange(ct, t, s)
    ensures var (s', stop) := Next(ct, t, visible, style, s);
            && (CtTurn(ct, t, s) ==> s'.ctIndex == s.ctIndex + 1 && s'.tIndex == s.tIndex)
            && (!CtTurn(ct, t, s) ==> s'.ctIndex == s.ctIndex && s'.tIndex == s.tIndex + 1)
            && (stop <==> Current(ct, t, s).distance.Inf?)
            && (!stop ==> s'.ctIndex <= FirstInf(ct) && s'.tIndex <= FirstInf(t))
  {
    var fc, ft := FirstInf(ct), FirstInf(t);
    NextIndices(ct, t, visible, style, s);
    if CtTurn(ct, t, s) {
      assert s.ctIndex != fc;
    } else if Current(ct, t, s).distance.Fin? {
      assert s.tIndex != ft;
    }
  }

  /** A pass advances the index of the side that moves, and breaks exactly on an infinite head. */
  lemma NextIndices(ct: seq<SpawnDistance>, t: seq<SpawnDistance>, visible: (Nav.NavArea, Nav.NavArea) -> bool,
                    style: SpreadStyle, s: SpreadState)
    requires InRange(ct, t, s)
    ensures var (s', stop) := Next(ct, t, visible, style, s);
            && s'.ctIndex == (if CtTurn(ct, t, s) then s.ctIndex + 1 else s.ctIndex)
            && s'.tIndex == (if CtTurn(ct, t, s) then s.tIndex else s.tIndex + 1)
            && (stop <==> Current(ct, t, s).distance.Inf?)
  {
  }

  /**
   * The state at which the passes of `generate_spreads` break, starting
   * from `s`: `Next` applied until it stops. Each run ends with a record
   * pushed on top of those already there.
   */
  function Run(ct: seq<SpawnDistance>, t: seq<SpawnDistance>, visible: (Nav.NavArea, Nav.NavArea) -> bool,
               style: SpreadStyle, s: SpreadState): (r: SpreadState)
    requires HasInf(ct) && HasInf(t) && s.ctIndex <= FirstInf(ct) && s.tIndex <= FirstInf(t)
    ensures |r.result| > |s.result| && r.result[..|s.result|] == s.result
    decreases FirstInf(ct) - s.ctIndex + FirstInf(t) - s.tIndex
  {
    NextStaysInRange(ct, t, visible, style, s);
    NextExtendsResult(ct, t, visible, style, s);
    var (s', stop) := Next(ct, t, visible, style, s);
    if stop then s'
    else
      var r := Run(ct, t, visible, style, s');
      PrefixOfPrefix(r.result, |s.result|, |s'.result|);
      r
  }

  lemma PrefixOfPrefix<T>(a: seq<T>, m: nat, n: nat)
    requires m <= n <= |a|
    ensures a[..n][..m] == a[..m]
  {
  }

  /** A pass keeps the records already emitted and, when it breaks, adds one. */
  lemma NextExtendsResult(ct: seq<SpawnDistance>, t: seq<SpawnDistance>, visible: (Nav.NavArea, Nav.NavArea) -> bool,
                          style: SpreadStyle, s: SpreadState)
    requires InRange(ct, t, s)
    ensures var (s', stop) := Next(ct, t, visible, style, s);
            && |s'.result| >= |s.result| && s'.result[..|s.result|] == s.result
            && (stop ==> |s'.result| > |s.result|)
  {
  }

  /**
   * `generate_spreads`: merge the two lists by distance until an infinitely
   * distant entry is taken. Both lists are sorted and each holds such an
   * entry, as the source's unchecked indexing needs.
   */
  method GenerateSpreads(ct: seq<SpawnDistance>, t: seq<SpawnDistance>,
                         visible: (Nav.NavArea, Nav.NavArea) -> bool, style: SpreadStyle)
    returns (result: seq<SpreadResult>)
    requires Sorting.SortedBy(ct, ByDistance) && Sorting.SortedBy(t, ByDistance)
    requires HasInf(ct) && HasInf(t)
    ensures result == Run(ct, t, visible, style, Start).result
    ensures Chained(style, result)
    ensures |result| > 0 && !result[|result| - 1].containsNewConnections
  {
    var s := Start;
    var stop := false;
    while !stop
      invariant Spreading(ct, t, visible, style, s, stop)
      decreases if stop then 0 else FirstInf(ct) - s.ctIndex + FirstInf(t) - s.tIndex + 1
    {
      s, stop := SpreadStep(ct, t, visible, style, s);
    }
    result := s.result;
  }

  /**
   * The invariant of the loop of `generate_spreads`: while it runs, the
   * indices are in range, the state is consistent and running on from it
   * gives what running from the start gives; once it breaks, the state is
   * that run's end, with its records chained and the last one without new
   * connections.
   */
  ghost predicate Spreading(ct: seq<SpawnDistance>, t: seq<SpawnDistance>, visible: (Nav.NavArea, Nav.NavArea) -> bool,
                            style: SpreadStyle, s: SpreadState, stop: bool)
    requires HasInf(ct) && HasInf(t)
  {
    && (!stop ==>
          && s.ctIndex <= FirstInf(ct) && s.tIndex <= FirstInf(t) && Consistent(style, s)
          && Run(ct, t, visible, style, s) == Run(ct, t, visible, style, Start))
    && (stop ==>
          && s == Run(ct, t, visible, style, Start)
          && Chained(style, s.result) && |s.result| > 0 && !s.result[|s.result| - 1].containsNewConnections)
  }

  /** One pass of the loop of `generate_spreads`, keeping its invariant and moving one index on. */
  method SpreadStep(ct: seq<SpawnDistance>, t: seq<SpawnDistance>, visible: (Nav.NavArea, Nav.NavArea) -> bool,
                    style: SpreadStyle, s: SpreadState) returns (next: SpreadState, stop: bool)
    requires HasInf(ct) && HasInf(t) && Spreading(ct, t, visible, style, s, false)
    ensures Spreading(ct, t, visible, style, next, stop)
    ensures !stop ==> FirstInf(ct) - next.ctIndex + FirstInf(t) - next.tIndex
                      < FirstInf(ct) - s.ctIndex + FirstInf(t) - s.tIndex
  {
    NextStaysInRange(ct, t, visible, style, s);
    NextConsistent(ct, t, visible, style, s);
    next, stop := Advance(ct, t, visible, style, s);
  }

  // ---------------------------------------------------------------------
  // Properties of one pass.

  /**
   * A pass marks the current area as newly marked on its own side and
   * leaves the other side's new marks alone; when it breaks it emits one
   * final record without new connections.
   */
  lemma NextMarksCurrent(ct: seq<SpawnDistance>, t: seq<SpawnDistance>, visible: (Nav.NavArea, Nav.NavArea) -> bool,
                         style: SpreadStyle, s: SpreadState)
    requires InRange(ct, t, s)
    ensures var (s', stop) := Next(ct, t, visible, style, s);
            var id := Current(ct, t, s).area.areaId;
            var emitted := |s'.result| == |s.result| + 1;
            && (stop ==> (emitted && s'.result[|s.result|] ==
                  SpreadResult(s'.newMarkedCt, s'.newMarkedT, s.markedCt, s.markedT, s.connections, false)))
            && (emitted ==> var r := s'.result[|s.result|];
                  && r.oldMarkedCt == s.markedCt && r.oldMarkedT == s.markedT
                  && (CtTurn(ct, t, s) ==> r.newMarkedCt == s.newMarkedCt + {id} && r.newMarkedT == s.newMarkedT)
                  && (!CtTurn(ct, t, s) ==> r.newMarkedT == s.newMarkedT + {id} && r.newMarkedCt == s.newMarkedCt))
            && (!emitted ==> s'.result == s.result && s'.markedCt == s.markedCt && s'.markedT == s.markedT)
  {
    if Current(ct, t, s).distance.Fin? {
      var vis := VisibleNow(ct, t, visible, style, s);
      if Skipped(Current(ct, t, s).distance.value, vis, s.lastPlotted) {
      } else {
      }
    }
  }

  /**
   * After a non-final pass: marks only grow; an emitted record moves the
   * new marks into the marks and clears them (and, in the fine style, the
   * connections); a pass that emits nothing is skipped exactly when
   * nothing became visible within 100 of the last plotted distance.
   */
  lemma NextPlotting(ct: seq<SpawnDistance>, t: seq<SpawnDistance>, visible: (Nav.NavArea, Nav.NavArea) -> bool,
                     style: SpreadStyle, s: SpreadState)
    requires InRange(ct, t, s) && Current(ct, t, s).distance.Fin?
    ensures var (s', stop) := Next(ct, t, visible, style, s);
            var current := Current(ct, t, s);
            var vis := VisibleNow(ct, t, visible, style, s);
            && !stop
            && s.markedCt <= s'.markedCt && s.markedT <= s'.markedT
            && (s'.result == s.result <==> Skipped(current.distance.value, vis, s.lastPlotted))
            && (s'.result != s.result ==>
                  && s'.markedCt == s.markedCt + s'.result[|s.result|].newMarkedCt
                  && s'.markedT == s.markedT + s'.result[|s.result|].newMarkedT
                  && s'.newMarkedCt == {} && s'.newMarkedT == {}
                  && s'.result[|s.result|].containsNewConnections == (vis != [])
                  && s'.lastPlotted == Some(RoundUpToNext100(current.distance.value))
                  && (style == Fine ==> s'.connections == []))
  {
    var (s', stop) := Next(ct, t, visible, style, s);
    assert s'.result != s.result ==> |s'.result| == |s.result| + 1;
  }

  /**
   * After a non-final pass the spotted sets grow as the source says: the
   * current area is own-spotted if its predecessor was or if something
   * became visible, every visible area is opposing-spotted, and one
   * connection per visible area is appended.
   */
  lemma NextSpotting(ct: seq<SpawnDistance>, t: seq<SpawnDistance>, visible: (Nav.NavArea, Nav.NavArea) -> bool,
                     style: SpreadStyle, s: SpreadState)
    requires InRange(ct, t, s) && Current(ct, t, s).distance.Fin?
    ensures var (s', _) := Next(ct, t, visible, style, s);
            var current := Current(ct, t, s);
            var id := current.area.areaId;
            var vis := VisibleNow(ct, t, visible, style, s);
            var own := if CtTurn(ct, t, s) then s'.spottedCt else s'.spottedT;
            var opp := if CtTurn(ct, t, s) then s'.spottedT else s'.spottedCt;
            var own0 := if CtTurn(ct, t, s) then s.spottedCt else s.spottedT;
            var opp0 := if CtTurn(ct, t, s) then s.spottedT else s.spottedCt;
            && own0 <= own && opp0 <= opp
            && (|current.path| >= 2 && current.path[|current.path| - 2] in own0 ==> id in own)
            && (vis != [] ==> id in own)
            && (forall o :: o in vis ==> o.area.areaId in opp && o in Opposing(ct, t, s) && visible(current.area, o.area))
            && (forall x :: x in opp ==> x in opp0 || exists o :: o in vis && o.area.areaId == x)
            && (Skipped(current.distance.value, vis, s.lastPlotted) || style == Rough ==>
                  s'.connections == s.connections + ConnectionsTo(current, vis))
  {
    var (s', _) := Next(ct, t, visible, style, s);
    var current := Current(ct, t, s);
    var vis := VisibleNow(ct, t, visible, style, s);
    IdsOfMembers(vis);
    var own := OwnSpotted(ct, t, s) + (if vis == [] then {} else {current.area.areaId});
    var opp := OppSpotted(ct, t, s) + IdsOf(vis);
    assert CtTurn(ct, t, s) ==> s'.spottedCt == own && s'.spottedT == opp;
    assert !CtTurn(ct, t, s) ==> s'.spottedT == own && s'.spottedCt == opp;
  }

  /** The opposing areas a pass looks at are exactly the marked or newly marked ones of the other side. */
  lemma OpposingAreMarked(ct: seq<SpawnDistance>, t: seq<SpawnDistance>, s: SpreadState)
    requires InRange(ct, t, s)
    ensures CtTurn(ct, t, s) ==> forall o :: o in Opposing(ct, t, s) <==>
              o in t && (o.area.areaId in s.markedT || o.area.areaId in s.newMarkedT)
    ensures !CtTurn(ct, t, s) ==> forall o :: o in Opposing(ct, t, s) <==>
              o in ct && (o.area.areaId in s.markedCt || o.area.areaId in s.newMarkedCt)
  {
  }

  /** Ties go to T: CT moves only when its head is strictly nearer. */
  lemma TiesGoToT(ct: seq<SpawnDistance>, t: seq<SpawnDistance>, s: SpreadState)
    requires InRange(ct, t, s) && ct[s.ctIndex].distance == t[s.tIndex].distance
    ensures !CtTurn(ct, t, s)
    ensures Current(ct, t, s) == t[s.tIndex]
  {
  }
}
