/**
 * The computations of `scripts/plot_spread.py` that decide what is drawn:
 * the level of a height among a map's vertical sections, the centroid of
 * an area as the script computes it, the grouping of areas into per-block,
 * per-height clusters whose bounding rectangles are drawn, and the marked
 * sets accumulated over the spread records.
 *
 * Drawing, file and JSON I/O are not modelled. Python's `round` (halves to
 * even) and `//` (floor division) are written out; floats are reals.
 */
module PlotSpread {
  import opened Wrappers
  import Geometry
  import Nav
  import Sorting
  import Spread

  type Vector3 = Geometry.Position

  /** The script's `JUMP_HEIGHT`: jump height with crouch jumping. */
  const JUMP_HEIGHT: real := 66.02

  /** The script's `NavArea` record; `dynamic_attribute_flags` is `flags`. */
  datatype NavArea = NavArea(
    corners: seq<Vector3>,
    areaId: int,
    hullIndex: int,
    flags: int,
    connections: seq<int>,
    laddersAbove: seq<int>,
    laddersBelow: seq<int>)

  // ---------------------------------------------------------------------
  // Centroid.

  function Xs(cs: seq<Vector3>): (r: seq<real>)
    ensures |r| == |cs| && forall i :: 0 <= i < |cs| ==> r[i] == cs[i].x
  {
    seq(|cs|, i requires 0 <= i < |cs| => cs[i].x)
  }

  function Ys(cs: seq<Vector3>): (r: seq<real>)
    ensures |r| == |cs| && forall i :: 0 <= i < |cs| ==> r[i] == cs[i].y
  {
    seq(|cs|, i requires 0 <= i < |cs| => cs[i].y)
  }

  function Zs(cs: seq<Vector3>): (r: seq<real>)
    ensures |r| == |cs| && forall i :: 0 <= i < |cs| ==> r[i] == cs[i].z
  {
    seq(|cs|, i requires 0 <= i < |cs| => cs[i].z)
  }

  /**
   * `NavArea.centroid`: the origin for an area without corners, otherwise
   * the mean of the corners, coordinate by coordinate.
   */
  function Centroid(a: NavArea): (c: Vector3)
    ensures a.corners == [] ==> c == Geometry.Origin
    ensures a.corners != [] ==>
              && |a.corners| as real * c.x == Geometry.Sum(Xs(a.corners))
              && |a.corners| as real * c.y == Geometry.Sum(Ys(a.corners))
              && |a.corners| as real * c.z == Geometry.Sum(Zs(a.corners))
  {
    if a.corners == [] then Geometry.Origin
    else
      var n := |a.corners| as real;
      Geometry.Position(Geometry.Sum(Xs(a.corners)) / n, Geometry.Sum(Ys(a.corners)) / n,
                        Geometry.Sum(Zs(a.corners)) / n)
  }

  lemma {:induction false} SumsAgree(cs: seq<Vector3>)
    ensures Geometry.Sum(Xs(cs)) == Nav.SumX(cs)
    ensures Geometry.Sum(Ys(cs)) == Nav.SumY(cs)
    ensures Geometry.Sum(Zs(cs)) == Nav.SumZ(cs)
  {
    if cs != [] {
      var init := cs[..|cs| - 1];
      SumsAgree(init);
      assert Xs(cs)[..|cs| - 1] == Xs(init);
      assert Ys(cs)[..|cs| - 1] == Ys(init);
      assert Zs(cs)[..|cs| - 1] == Zs(init);
    }
  }

  /** The script's centroid is the one the Rust mesh computes for the same corners. */
  lemma CentroidAgreesWithMesh(a: NavArea)
    ensures Centroid(a) == Nav.CentroidOf(a.corners)
  {
    SumsAgree(a.corners);
  }

  // ---------------------------------------------------------------------
  // Levels.

  /** A vertical section of a map: the altitudes it spans. */
  datatype VerticalSection = VerticalSection(altitudeMin: real, altitudeMax: real)

  /** The `sorted(.., reverse=True)` key order: higher `altitude_max` first. */
  predicate HigherFirst(a: (string, VerticalSection), b: (string, VerticalSection)) {
    a.1.altitudeMax >= b.1.altitudeMax
  }

  lemma HigherFirstIsTotalPreorder()
    ensures Sorting.TotalPreorder(HigherFirst)
  {
  }

  predicate Spans(s: (string, VerticalSection), z: real) {
    s.1.altitudeMin <= z <= s.1.altitudeMax
  }

  /** The position of the first section that spans `z`, or `|ss|` if none does. */
  function FirstSpanning(ss: seq<(string, VerticalSection)>, z: real): (i: nat)
    ensures i <= |ss|
    ensures i < |ss| ==> Spans(ss[i], z)
    ensures forall j :: 0 <= j < i ==> !Spans(ss[j], z)
  {
    if ss == [] then 0
    else if Spans(ss[0], z) then 0
    else 1 + FirstSpanning(ss[1..], z)
  }

  /** The sections by descending `altitude_max`, ties in dictionary order. */
  function Levels(sections: seq<(string, VerticalSection)>): (ls: seq<(string, VerticalSection)>)
    ensures multiset(ls) == multiset(sections) && |ls| == |sections|
    ensures Sorting.SortedBy(ls, HigherFirst)
  {
    HigherFirstIsTotalPreorder();
    Sorting.SortBy(sections, HigherFirst)
  }

  /**
   * `find_level`: `(0, "default")` for a map without sections; otherwise
   * the level index and name of the first section, highest first, whose
   * altitudes span `z`, and the lowest level when none does.
   */
  function FindLevel(z: real, sections: seq<(string, VerticalSection)>): (r: (nat, string))
    ensures sections == [] ==> r == (0, "default")
    ensures sections != [] ==>
              var ls := Levels(sections);
              && r.0 < |ls| && r.1 == ls[r.0].0
              && ((exists j :: 0 <= j < |ls| && Spans(ls[j], z)) ==>
                    Spans(ls[r.0], z) && forall j :: 0 <= j < r.0 ==> !Spans(ls[j], z))
              && ((forall j :: 0 <= j < |ls| ==> !Spans(ls[j], z)) ==> r.0 == |ls| - 1)
  {
    if sections == [] then (0, "default")
    else
      var ls := Levels(sections);
      var i := FirstSpanning(ls, z);
      if i < |ls| then (i, ls[i].0) else (|ls| - 1, ls[|ls| - 1].0)
  }

  /** The level found for a map with sections is one of its sections' names. */
  lemma FindLevelNamesASection(z: real, sections: seq<(string, VerticalSection)>)
    requires sections != []
    ensures exists i :: 0 <= i < |sections| && sections[i].0 == FindLevel(z, sections).1
  {
    var ls := Levels(sections);
    var r := FindLevel(z, sections);
    assert ls[r.0] in multiset(sections);
    var i :| 0 <= i < |sections| && sections[i] == ls[r.0];
  }

  // ---------------------------------------------------------------------
  // Python arithmetic.

  /** Python's `round` of a float: the nearest integer, halves to the even one. */
  function RoundHalfEven(v: real): (n: int)
    ensures -0.5 <= n as real - v <= 0.5
    ensures (n as real - v == 0.5 || v - n as real == 0.5) ==> n % 2 == 0
  {
    var f := v.Floor;
    var d := v - f as real;
    if d < 0.5 then f
    else if d > 0.5 then f + 1
    else if f % 2 == 0 then f
    else f + 1
  }

  lemma RoundIsNearest(v: real, m: int)
    ensures Geometry.Abs(RoundHalfEven(v) as real - v) <= Geometry.Abs(m as real - v)
  {
    var n := RoundHalfEven(v);
    if m < n {
      assert m as real <= n as real - 1.0;
    } else if m > n {
      assert m as real >= n as real + 1.0;
    }
  }

  /** Python's `//` on integers: the floor of the quotient. */
  function FloorDiv(a: int, b: int): (q: int)
    requires b != 0
    ensures b > 0 ==> b * q <= a < b * q + b
    ensures b < 0 ==> b * q >= a > b * q + b
  {
    if b > 0 then a / b else (-a) / (-b)
  }

  // ---------------------------------------------------------------------
  // Grouping areas into clusters.

  /** The grid the cells are rounded on: an origin and the first area's tile size. */
  datatype Grid = Grid(minX: real, minY: real, deltaX: real, deltaY: real)

  predicate ValidGrid(g: Grid) {
    g.deltaX != 0.0 && g.deltaY != 0.0
  }

  /** The rounded (x, y) cell coordinate of an area's centroid. */
  function CellOf(a: NavArea, g: Grid): (int, int)
    requires ValidGrid(g)
  {
    var c := Centroid(a);
    (RoundHalfEven((c.x - g.minX) / g.deltaX), RoundHalfEven((c.y - g.minY) / g.deltaY))
  }

  /** The block an area is filed under: its cell divided by the group size. */
  function BlockKey(a: NavArea, g: Grid, size: int): (int, int)
    requires ValidGrid(g) && size != 0
  {
    var cell := CellOf(a, g);
    (FloorDiv(cell.0, size), FloorDiv(cell.1, size))
  }

  /** The first test of the placement loop: some member of `group` has `a`'s cell. */
  predicate SharesCell(group: seq<NavArea>, a: NavArea, g: Grid)
    requires ValidGrid(g)
  {
    exists i :: 0 <= i < |group| && CellOf(group[i], g) == CellOf(a, g)
  }

  /** The second test: every member of `group` is within a jump of `a` in height. */
  predicate WithinJump(group: seq<NavArea>, a: NavArea) {
    forall i :: 0 <= i < |group| ==> Geometry.Abs(Centroid(group[i]).z - Centroid(a).z) <= JUMP_HEIGHT
  }

  predicate Fits(group: seq<NavArea>, a: NavArea, g: Grid)
    requires ValidGrid(g)
  {
    !SharesCell(group, a, g) && WithinJump(group, a)
  }

  /** The index of the first group `a` fits, or `|groups|` if it fits none. */
  function FirstFit(groups: seq<seq<NavArea>>, a: NavArea, g: Grid): (j: nat)
    requires ValidGrid(g)
    ensures j <= |groups|
    ensures j < |groups| ==> Fits(groups[j], a, g)
    ensures forall k :: 0 <= k < j ==> !Fits(groups[k], a, g)
  {
    if groups == [] then 0
    else if Fits(groups[0], a, g) then 0
    else 1 + FirstFit(groups[1..], a, g)
  }

  /** The z-groups after placing `a`: appended to the first group it fits, else alone in a new one. */
  function Place(groups: seq<seq<NavArea>>, a: NavArea, g: Grid): seq<seq<NavArea>>
    requires ValidGrid(g)
  {
    var j := FirstFit(groups, a, g);
    if j < |groups| then groups[j := groups[j] + [a]] else groups + [[a]]
  }

  /** The z-groups of one block, placing its areas in order. */
  function ZGroups(block: seq<NavArea>, g: Grid): seq<seq<NavArea>>
    requires ValidGrid(g)
  {
    if block == [] then [] else Place(ZGroups(block[..|block| - 1], g), block[|block| - 1], g)
  }

  /** The placement loop: the first group without `a`'s cell whose members are all within a jump. */
  method PlaceArea(groups: seq<seq<NavArea>>, a: NavArea, g: Grid) returns (r: seq<seq<NavArea>>)
    requires ValidGrid(g)
    ensures r == Place(groups, a, g)
  {
    var found := false;
    r := groups;
    for i := 0 to |groups|
      invariant !found && r == groups
      invariant forall k :: 0 <= k < i ==> !Fits(groups[k], a, g)
    {
      if SharesCell(groups[i], a, g) {
        continue;
      }
      if WithinJump(groups[i], a) {
        FirstFitIs(groups, a, g, i);
        r := groups[i := groups[i] + [a]];
        found := true;
        break;
      }
    }
    if !found {
      FirstFitIs(groups, a, g, |groups|);
      r := groups + [[a]];
    }
  }

  /** `FirstFit` is the index before which nothing fits and at which `a` fits (or the end). */
  lemma FirstFitIs(groups: seq<seq<NavArea>>, a: NavArea, g: Grid, i: nat)
    requires ValidGrid(g) && i <= |groups|
    requires forall k :: 0 <= k < i ==> !Fits(groups[k], a, g)
    requires i < |groups| ==> Fits(groups[i], a, g)
    ensures FirstFit(groups, a, g) == i
  {
  }

  /** The loop over one block's areas. */
  method ZGroupsOf(block: seq<NavArea>, g: Grid) returns (groups: seq<seq<NavArea>>)
    requires ValidGrid(g)
    ensures groups == ZGroups(block, g)
  {
    groups := [];
    for i := 0 to |block|
      invariant groups == ZGroups(block[..i], g)
    {
      assert block[..i + 1][..i] == block[..i];
      groups := PlaceArea(groups, block[i], g);
    }
    assert block[..|block|] == block;
  }

  /** Every area counted once per occurrence across the groups. */
  function Members(groups: seq<seq<NavArea>>): multiset<NavArea> {
    if groups == [] then multiset{} else Members(groups[..|groups| - 1]) + multiset(groups[|groups| - 1])
  }

  lemma {:induction false} MembersAppend(gs: seq<seq<NavArea>>, hs: seq<seq<NavArea>>)
    ensures Members(gs + hs) == Members(gs) + Members(hs)
  {
    if hs != [] {
      var init := hs[..|hs| - 1];
      MembersAppend(gs, init);
      assert (gs + hs)[..|gs + hs| - 1] == gs + init;
    } else {
      assert gs + hs == gs;
    }
  }

  lemma {:induction false} MembersGrow(groups: seq<seq<NavArea>>, j: nat, a: NavArea)
    requires j < |groups|
    ensures Members(groups[j := groups[j] + [a]]) == Members(groups) + multiset{a}
  {
    var n := |groups|;
    var updated := groups[j := groups[j] + [a]];
    if j == n - 1 {
      assert updated[..n - 1] == groups[..n - 1];
    } else {
      MembersGrow(groups[..n - 1], j, a);
      assert updated[..n - 1] == groups[..n - 1][j := groups[j] + [a]];
    }
  }

  /** Placing an area adds it to the groups' members exactly once. */
  lemma PlaceAddsOnce(groups: seq<seq<NavArea>>, a: NavArea, g: Grid)
    requires ValidGrid(g)
    ensures Members(Place(groups, a, g)) == Members(groups) + multiset{a}
  {
    var j := FirstFit(groups, a, g);
    if j < |groups| {
      MembersGrow(groups, j, a);
    } else {
      assert (groups + [[a]])[..|groups|] == groups;
    }
  }

  /** A z-group as the script promises: non-empty, within a jump pairwise, no shared cell. */
  ghost predicate WellFormed(group: seq<NavArea>, g: Grid)
    requires ValidGrid(g)
  {
    && group != []
    && (forall i, j :: 0 <= i < j < |group| ==>
          Geometry.Abs(Centroid(group[i]).z - Centroid(group[j]).z) <= JUMP_HEIGHT)
    && (forall i, j :: 0 <= i < j < |group| ==> CellOf(group[i], g) != CellOf(group[j], g))
  }

  lemma ExtendWellFormed(group: seq<NavArea>, a: NavArea, g: Grid)
    requires ValidGrid(g) && WellFormed(group, g) && Fits(group, a, g)
    ensures WellFormed(group + [a], g)
  {
    var ext := group + [a];
    forall i, j | 0 <= i < j < |ext|
      ensures Geometry.Abs(Centroid(ext[i]).z - Centroid(ext[j]).z) <= JUMP_HEIGHT
      ensures CellOf(ext[i], g) != CellOf(ext[j], g)
    {
      if j == |group| {
        assert ext[i] == group[i];
      }
    }
  }

  lemma PlaceKeepsWellFormed(groups: seq<seq<NavArea>>, a: NavArea, g: Grid)
    requires ValidGrid(g)
    requires forall k :: 0 <= k < |groups| ==> WellFormed(groups[k], g)
    ensures var r := Place(groups, a, g);
            forall k :: 0 <= k < |r| ==> WellFormed(r[k], g)
  {
    var j := FirstFit(groups, a, g);
    if j < |groups| {
      ExtendWellFormed(groups[j], a, g);
    }
  }

  /** Every area of a block lands in exactly one of its z-groups. */
  lemma {:induction false} ZGroupsPartition(block: seq<NavArea>, g: Grid)
    requires ValidGrid(g)
    ensures Members(ZGroups(block, g)) == multiset(block)
  {
    if block != [] {
      var init := block[..|block| - 1];
      ZGroupsPartition(init, g);
      PlaceAddsOnce(ZGroups(init, g), block[|block| - 1], g);
      MultisetSnoc(block);
    }
  }

  /** Every z-group of a block is well formed. */
  lemma {:induction false} ZGroupsWellFormed(block: seq<NavArea>, g: Grid)
    requires ValidGrid(g)
    ensures forall k :: 0 <= k < |ZGroups(block, g)| ==> WellFormed(ZGroups(block, g)[k], g)
  {
    if block != [] {
      var init := block[..|block| - 1];
      ZGroupsWellFormed(init, g);
      PlaceKeepsWellFormed(ZGroups(init, g), block[|block| - 1], g);
    }
  }

  /**
   * Every area of a block lands in exactly one of its z-groups, and every
   * z-group is well formed.
   */
  lemma ZGroupsLaws(block: seq<NavArea>, g: Grid)
    requires ValidGrid(g)
    ensures Members(ZGroups(block, g)) == multiset(block)
    ensures forall k :: 0 <= k < |ZGroups(block, g)| ==> WellFormed(ZGroups(block, g)[k], g)
  {
    ZGroupsPartition(block, g);
    ZGroupsWellFormed(block, g);
  }

  // ---------------------------------------------------------------------
  // Filing areas under blocks.

  /** The `block_map` defaultdict: keys in insertion order and the areas filed under each. */
  datatype BlockMap = BlockMap(keys: seq<(int, int)>, blocks: map<(int, int), seq<NavArea>>)

  /** The key each area is filed under, as a function of the area alone. */
  function KeyOn(g: Grid, size: int): (key: NavArea -> (int, int))
    requires ValidGrid(g) && size != 0
    ensures forall a :: key(a) == BlockKey(a, g, size)
  {
    a => BlockKey(a, g, size)
  }

  /** `block_map[key(a)].append(a)`. */
  function File(b: BlockMap, a: NavArea, key: NavArea -> (int, int)): BlockMap {
    var k := key(a);
    if k in b.blocks then BlockMap(b.keys, b.blocks[k := b.blocks[k] + [a]])
    else BlockMap(b.keys + [k], b.blocks[k := [a]])
  }

  /** The blocks after filing `areas` in order under `key`. */
  function Bucket(areas: seq<NavArea>, key: NavArea -> (int, int)): BlockMap {
    if areas == [] then BlockMap([], map[])
    else File(Bucket(areas[..|areas| - 1], key), areas[|areas| - 1], key)
  }

  /** The areas filed under the listed keys, each occurrence counted. */
  function Gathered(keys: seq<(int, int)>, m: map<(int, int), seq<NavArea>>): multiset<NavArea> {
    if keys == [] then multiset{}
    else
      var k := keys[|keys| - 1];
      Gathered(keys[..|keys| - 1], m) + (if k in m then multiset(m[k]) else multiset{})
  }

  /** The block map lists each key once, and only keys that have a non-empty block. */
  ghost predicate Filed(b: BlockMap, key: NavArea -> (int, int)) {
    Distinct(b.keys) && Listed(b) && FiledUnder(b.blocks, key)
  }

  ghost predicate Distinct<T>(s: seq<T>) {
    forall i, j :: 0 <= i < j < |s| ==> s[i] != s[j]
  }

  ghost predicate Listed(b: BlockMap) {
    forall k :: k in b.blocks <==> k in b.keys
  }

  ghost predicate FiledUnder(m: map<(int, int), seq<NavArea>>, key: NavArea -> (int, int)) {
    forall k | k in m :: m[k] != [] && forall i :: 0 <= i < |m[k]| ==> key(m[k][i]) == k
  }

  lemma {:induction false} GatheredAppend(ks: seq<(int, int)>, ls: seq<(int, int)>, m: map<(int, int), seq<NavArea>>)
    ensures Gathered(ks + ls, m) == Gathered(ks, m) + Gathered(ls, m)
  {
    if ls == [] {
      assert ks + ls == ks;
    } else {
      GatheredAppend(ks, ls[..|ls| - 1], m);
      assert (ks + ls)[..|ks + ls| - 1] == ks + ls[..|ls| - 1];
    }
  }

  /** Changing the block of a key that is not listed changes nothing gathered. */
  lemma {:induction false} GatheredElsewhere(ks: seq<(int, int)>, m: map<(int, int), seq<NavArea>>,
                                             k: (int, int), v: seq<NavArea>)
    requires k !in ks
    ensures Gathered(ks, m[k := v]) == Gathered(ks, m)
  {
    if ks != [] {
      GatheredElsewhere(ks[..|ks| - 1], m, k, v);
    }
  }

  /** Appending to the block of a key listed once adds that one area. */
  lemma {:induction false} GatheredGrow(ks: seq<(int, int)>, m: map<(int, int), seq<NavArea>>,
                                        k: (int, int), a: NavArea)
    requires k in m && k in ks
    requires forall i, j :: 0 <= i < j < |ks| ==> ks[i] != ks[j]
    ensures Gathered(ks, m[k := m[k] + [a]]) == Gathered(ks, m) + multiset{a}
  {
    var init := ks[..|ks| - 1];
    if ks[|ks| - 1] == k {
      assert k !in init;
      GatheredElsewhere(init, m, k, m[k] + [a]);
    } else {
      assert k in init;
      GatheredGrow(init, m, k, a);
    }
  }

  lemma FileKeepsDistinct(b: BlockMap, a: NavArea, key: NavArea -> (int, int))
    requires Distinct(b.keys) && Listed(b)
    ensures Distinct(File(b, a, key).keys)
  {
  }

  lemma FileKeepsListed(b: BlockMap, a: NavArea, key: NavArea -> (int, int))
    requires Listed(b)
    ensures Listed(File(b, a, key))
  {
  }

  lemma FileKeepsFiledUnder(b: BlockMap, a: NavArea, key: NavArea -> (int, int))
    requires FiledUnder(b.blocks, key)
    ensures FiledUnder(File(b, a, key).blocks, key)
  {
  }

  /** Filing one area keeps the map well formed and gathers that area once more. */
  lemma FileStep(b: BlockMap, a: NavArea, key: NavArea -> (int, int))
    requires Filed(b, key)
    ensures Filed(File(b, a, key), key)
    ensures Gathered(File(b, a, key).keys, File(b, a, key).blocks) == Gathered(b.keys, b.blocks) + multiset{a}
  {
    FileKeepsDistinct(b, a, key);
    FileKeepsListed(b, a, key);
    FileKeepsFiledUnder(b, a, key);
    var k := key(a);
    if k in b.blocks {
      GatheredGrow(b.keys, b.blocks, k, a);
    } else {
      GatheredElsewhere(b.keys, b.blocks, k, [a]);
    }
  }

  lemma MultisetSnoc<T>(s: seq<T>)
    requires s != []
    ensures multiset(s) == multiset(s[..|s| - 1]) + multiset{s[|s| - 1]}
  {
    assert s == s[..|s| - 1] + [s[|s| - 1]];
  }

  /** Filing keeps the map well formed and gathers every area exactly once. */
  lemma {:induction false} BucketLaws(areas: seq<NavArea>, key: NavArea -> (int, int))
    ensures Filed(Bucket(areas, key), key)
    ensures Gathered(Bucket(areas, key).keys, Bucket(areas, key).blocks) == multiset(areas)
  {
    if areas != [] {
      var init := areas[..|areas| - 1];
      BucketLaws(init, key);
      FileStep(Bucket(init, key), areas[|areas| - 1], key);
      MultisetSnoc(areas);
    }
  }

  /** Gathering depends only on which keys are listed, not on their order. */
  lemma {:induction false} GatheredPermutation(ks: seq<(int, int)>, ls: seq<(int, int)>,
                                               m: map<(int, int), seq<NavArea>>)
    requires multiset(ks) == multiset(ls)
    ensures Gathered(ks, m) == Gathered(ls, m)
    decreases |ks|
  {
    if ks == [] {
      assert ls == [] by {
        assert |ls| == |multiset(ls)|;
      }
    } else {
      var init := ks[..|ks| - 1];
      var x := ks[|ks| - 1];
      var j := PickOut(ks, ls);
      var rest := ls[..j] + ls[j + 1..];
      GatheredPermutation(init, rest, m);
      GatheredAppend(ls[..j], ls[j + 1..], m);
      GatheredAppend(ls[..j] + [x], ls[j + 1..], m);
      GatheredAppend(ls[..j], [x], m);
      GatheredAppend(init, [x], m);
      UnionSwap(Gathered(ls[..j], m), Gathered([x], m), Gathered(ls[j + 1..], m));
    }
  }

  /** Where the last of `ks` sits in a permutation `ls` of it, and what is left of both. */
  lemma PickOut<T>(ks: seq<T>, ls: seq<T>) returns (j: nat)
    requires ks != [] && multiset(ks) == multiset(ls)
    ensures j < |ls| && ls[j] == ks[|ks| - 1]
    ensures ks == ks[..|ks| - 1] + [ks[|ks| - 1]]
    ensures ls == ls[..j] + [ls[j]] + ls[j + 1..]
    ensures multiset(ks[..|ks| - 1]) == multiset(ls[..j] + ls[j + 1..])
  {
    var init := ks[..|ks| - 1];
    var x := ks[|ks| - 1];
    assert ks == init + [x];
    assert x in multiset(ls);
    j :| 0 <= j < |ls| && ls[j] == x;
    var rest := ls[..j] + ls[j + 1..];
    assert ls == ls[..j] + [x] + ls[j + 1..];
    assert multiset(ks) == multiset(init) + multiset{x};
    assert multiset(ls) == multiset(ls[..j]) + multiset{x} + multiset(ls[j + 1..]);
    assert multiset(rest) == multiset(ls[..j]) + multiset(ls[j + 1..]);
    assert multiset(init) == multiset(ks) - multiset{x};
    assert multiset(rest) == multiset(ls) - multiset{x};
  }

  lemma UnionSwap<T>(a: multiset<T>, b: multiset<T>, c: multiset<T>)
    ensures a + c + b == a + b + c
  {
  }

  /** `sorted(block_map.items())`: tuples compare lexicographically. */
  predicate KeyLe(a: (int, int), b: (int, int)) {
    a.0 < b.0 || (a.0 == b.0 && a.1 <= b.1)
  }

  lemma KeyLeIsTotalPreorder()
    ensures Sorting.TotalPreorder(KeyLe)
  {
  }

  function SortedKeys(keys: seq<(int, int)>): (r: seq<(int, int)>)
    ensures multiset(r) == multiset(keys) && Sorting.SortedBy(r, KeyLe)
  {
    KeyLeIsTotalPreorder();
    Sorting.SortBy(keys, KeyLe)
  }

  // ---------------------------------------------------------------------
  // Bounding rectangles.

  /** Every corner of every area of the group, area by area. */
  function CornersOf(group: seq<NavArea>): seq<Vector3> {
    if group == [] then [] else CornersOf(group[..|group| - 1]) + group[|group| - 1].corners
  }

  /** Python's `min` of a non-empty sequence of reals: the running minimum. */
  function MinOf(xs: seq<real>): real
    requires xs != []
  {
    if |xs| == 1 then xs[0]
    else
      var m := MinOf(xs[..|xs| - 1]);
      if xs[|xs| - 1] < m then xs[|xs| - 1] else m
  }

  /** Python's `max` of a non-empty sequence of reals: the running maximum. */
  function MaxOf(xs: seq<real>): real
    requires xs != []
  {
    if |xs| == 1 then xs[0]
    else
      var m := MaxOf(xs[..|xs| - 1]);
      if xs[|xs| - 1] > m then xs[|xs| - 1] else m
  }

  /** The minimum is at most every element and is one of them. */
  lemma {:induction false} MinOfIsLeast(xs: seq<real>)
    requires xs != []
    ensures forall i :: 0 <= i < |xs| ==> MinOf(xs) <= xs[i]
    ensures exists i :: 0 <= i < |xs| && MinOf(xs) == xs[i]
  {
    if |xs| > 1 {
      var init := xs[..|xs| - 1];
      MinOfIsLeast(init);
      assert forall i :: 0 <= i < |init| ==> init[i] == xs[i];
      if MinOf(xs) != xs[|xs| - 1] {
        var i :| 0 <= i < |init| && MinOf(init) == init[i];
        assert MinOf(xs) == xs[i];
      }
    } else {
      assert MinOf(xs) == xs[0];
    }
  }

  /** The maximum is at least every element and is one of them. */
  lemma {:induction false} MaxOfIsGreatest(xs: seq<real>)
    requires xs != []
    ensures forall i :: 0 <= i < |xs| ==> xs[i] <= MaxOf(xs)
    ensures exists i :: 0 <= i < |xs| && MaxOf(xs) == xs[i]
  {
    if |xs| > 1 {
      var init := xs[..|xs| - 1];
      MaxOfIsGreatest(init);
      assert forall i :: 0 <= i < |init| ==> init[i] == xs[i];
      if MaxOf(xs) != xs[|xs| - 1] {
        var i :| 0 <= i < |init| && MaxOf(init) == init[i];
        assert MaxOf(xs) == xs[i];
      }
    } else {
      assert MaxOf(xs) == xs[0];
    }
  }

  /** The mean of a non-empty sequence, as `sum(..) / len(..)` computes it. */
  function Mean(xs: seq<real>): (m: real)
    requires xs != []
    ensures |xs| as real * m == Geometry.Sum(xs)
  {
    Geometry.Sum(xs) / |xs| as real
  }

  /**
   * The four boundary positions of a z-group: the bounding rectangle of all
   * its corners at their average height, clockwise (with y pointing up) from the lowest
   * x and y. `None` stands for the `ValueError` that `min` raises when the
   * group has no corners at all.
   */
  function Rectangle(group: seq<NavArea>): (r: Option<seq<Vector3>>)
    ensures r.None? <==> CornersOf(group) == []
    ensures r.Some? ==>
              var b := r.value;
              && |b| == 4
              && b[1] == Geometry.Position(b[0].x, b[2].y, b[0].z)
              && b[3] == Geometry.Position(b[2].x, b[0].y, b[0].z)
              && b[2].z == b[0].z
  {
    var cs := CornersOf(group);
    if cs == [] then None
    else
      var minX := MinOf(Xs(cs));
      var minY := MinOf(Ys(cs));
      var maxX := MaxOf(Xs(cs));
      var maxY := MaxOf(Ys(cs));
      var avgZ := Mean(Zs(cs));
      Some([Geometry.Position(minX, minY, avgZ), Geometry.Position(minX, maxY, avgZ),
            Geometry.Position(maxX, maxY, avgZ), Geometry.Position(maxX, minY, avgZ)])
  }

  /**
   * The rectangle is the tightest box around the group's corners, at the
   * mean corner height.
   */
  lemma RectangleBounds(group: seq<NavArea>)
    requires CornersOf(group) != []
    ensures var cs := CornersOf(group);
            var b := Rectangle(group).value;
            && b[0].z == Mean(Zs(cs))
            && (forall i :: 0 <= i < |cs| ==> b[0].x <= cs[i].x <= b[2].x && b[0].y <= cs[i].y <= b[2].y)
            && (exists i :: 0 <= i < |cs| && cs[i].x == b[0].x)
            && (exists i :: 0 <= i < |cs| && cs[i].y == b[0].y)
            && (exists i :: 0 <= i < |cs| && cs[i].x == b[2].x)
            && (exists i :: 0 <= i < |cs| && cs[i].y == b[2].y)
  {
    var cs := CornersOf(group);
    MinOfIsLeast(Xs(cs));
    MinOfIsLeast(Ys(cs));
    MaxOfIsGreatest(Xs(cs));
    MaxOfIsGreatest(Ys(cs));
  }

  // ---------------------------------------------------------------------
  // The loop over blocks.

  /**
   * The state of the loop over the sorted blocks: the z-groups bounded so
   * far with their rectangles, the origin each group's cells were rounded
   * from, and the current `min_x`/`min_y`, which the bounds loop rebinds.
   */
  datatype Sweep = Sweep(
    groups: seq<seq<NavArea>>,
    boundaries: seq<seq<Vector3>>,
    origins: seq<(real, real)>,
    minX: real,
    minY: real)

  /** One pass of the bounds loop: record the group, its rectangle and origin, rebind `min_x`/`min_y`. */
  function Bound(s: Sweep, group: seq<NavArea>, r: seq<Vector3>, origin: (real, real)): Sweep
    requires r != []
  {
    Sweep(s.groups + [group], s.boundaries + [r], s.origins + [origin], r[0].x, r[0].y)
  }

  /**
   * The bounds loop over one block's z-groups, whose cells were rounded
   * from `origin`; `None` when a group has no corners.
   */
  function BoundGroups(zs: seq<seq<NavArea>>, s: Sweep, origin: (real, real)): Option<Sweep> {
    if zs == [] then Some(s)
    else
      match BoundGroups(zs[..|zs| - 1], s, origin)
      case None => None
      case Some(s') =>
        match Rectangle(zs[|zs| - 1])
        case None => None
        case Some(r) => Some(Bound(s', zs[|zs| - 1], r, origin))
  }

  /** The grouping of one block given the origin its cells are rounded from. */
  type Grouping = (seq<NavArea>, (real, real)) -> seq<seq<NavArea>>

  /** The script's grouping: the z-groups on the tile grid rounded from the origin. */
  function GroupingOn(dx: real, dy: real): (zg: Grouping)
    requires dx != 0.0 && dy != 0.0
    ensures forall b, o :: zg(b, o) == ZGroups(b, Grid(o.0, o.1, dx, dy))
  {
    (b: seq<NavArea>, o: (real, real)) => ZGroups(b, Grid(o.0, o.1, dx, dy))
  }

  /**
   * The loop over the blocks of `keys`, in that order, each grouped with
   * `zg` from the current `min_x`/`min_y`.
   */
  function SweepBlocks(keys: seq<(int, int)>, m: map<(int, int), seq<NavArea>>, zg: Grouping, s0: Sweep)
    : Option<Sweep>
    requires forall k :: k in keys ==> k in m
  {
    if keys == [] then Some(s0)
    else
      match SweepBlocks(keys[..|keys| - 1], m, zg, s0)
      case None => None
      case Some(s) => BoundGroups(zg(m[keys[|keys| - 1]], (s.minX, s.minY)), s, (s.minX, s.minY))
  }

  function CentroidXs(areas: seq<NavArea>): (r: seq<real>)
    ensures |r| == |areas| && forall i :: 0 <= i < |areas| ==> r[i] == Centroid(areas[i]).x
  {
    seq(|areas|, i requires 0 <= i < |areas| => Centroid(areas[i]).x)
  }

  function CentroidYs(areas: seq<NavArea>): (r: seq<real>)
    ensures |r| == |areas| && forall i :: 0 <= i < |areas| ==> r[i] == Centroid(areas[i]).y
  {
    seq(|areas|, i requires 0 <= i < |areas| => Centroid(areas[i]).y)
  }

  /**
   * The grid `group_nav_areas` starts from: the least centroid x and y as
   * origin, the extent of the first area's corners as tile size.
   */
  function StartGrid(areas: seq<NavArea>): (g: Grid)
    requires areas != [] && areas[0].corners != []
    ensures forall i :: 0 <= i < |areas| ==> g.minX <= Centroid(areas[i]).x && g.minY <= Centroid(areas[i]).y
    ensures g.deltaX >= 0.0 && g.deltaY >= 0.0
  {
    var cs := areas[0].corners;
    MinOfIsLeast(CentroidXs(areas));
    MinOfIsLeast(CentroidYs(areas));
    MinOfIsLeast(Xs(cs));
    MinOfIsLeast(Ys(cs));
    MaxOfIsGreatest(Xs(cs));
    MaxOfIsGreatest(Ys(cs));
    Grid(MinOf(CentroidXs(areas)), MinOf(CentroidYs(areas)),
         MaxOf(Xs(cs)) - MinOf(Xs(cs)), MaxOf(Ys(cs)) - MinOf(Ys(cs)))
  }

  /**
   * What `group_nav_areas` needs not to raise before the bounds loop: some
   * area, a first area with corners whose tile has a non-zero extent in x
   * and y, and a non-zero group size.
   */
  predicate Groupable(areas: seq<NavArea>, size: int) {
    areas != [] && areas[0].corners != [] && ValidGrid(StartGrid(areas)) && size != 0
  }

  /** The z-groups of all blocks, in sorted block-key order, with their rectangles. */
  function Clusters(areas: seq<NavArea>, size: int): Option<Sweep>
    requires Groupable(areas, size)
  {
    var g := StartGrid(areas);
    var b := Bucket(areas, KeyOn(g, size));
    BucketLaws(areas, KeyOn(g, size));
    var sorted := SortedKeys(b.keys);
    assert forall k :: k in sorted ==> k in b.blocks by {
      assert forall k :: k in sorted ==> k in multiset(b.keys);
    }
    SweepBlocks(sorted, b.blocks, GroupingOn(g.deltaX, g.deltaY), Sweep([], [], [], g.minX, g.minY))
  }

  /**
   * `group_nav_areas`: the boundary rectangles of the z-groups; `None`
   * stands for the `ValueError` or `ZeroDivisionError` the script raises
   * on no areas, a first area without corners, a flat first tile, a zero
   * group size or a z-group without corners.
   */
  function GroupedBoundaries(areas: seq<NavArea>, size: int): Option<seq<seq<Vector3>>> {
    if !Groupable(areas, size) then None
    else
      match Clusters(areas, size)
      case None => None
      case Some(s) => Some(s.boundaries)
  }

  /** Every group's rectangle is the boundary beside it, and every group has an origin. */
  ghost predicate Aligned(s: Sweep) {
    && |s.boundaries| == |s.groups| && |s.origins| == |s.groups|
    && forall i :: 0 <= i < |s.groups| ==> Rectangle(s.groups[i]) == Some(s.boundaries[i])
  }

  lemma BoundKeepsAligned(s: Sweep, group: seq<NavArea>, r: seq<Vector3>, origin: (real, real))
    requires Aligned(s) && Rectangle(group) == Some(r)
    ensures Aligned(Bound(s, group, r, origin))
  {
    var s' := Bound(s, group, r, origin);
    assert forall i :: 0 <= i < |s.groups| ==> s'.groups[i] == s.groups[i] && s'.boundaries[i] == s.boundaries[i];
  }

  /** The bounds loop fails exactly on a group without corners. */
  lemma {:induction false} BoundGroupsFails(zs: seq<seq<NavArea>>, s: Sweep, origin: (real, real))
    ensures BoundGroups(zs, s, origin).None? <==> exists i :: 0 <= i < |zs| && CornersOf(zs[i]) == []
  {
    if zs != [] {
      var init := zs[..|zs| - 1];
      BoundGroupsFails(init, s, origin);
      assert forall i :: 0 <= i < |init| ==> zs[i] == init[i];
    }
  }

  /**
   * When the bounds loop succeeds it appends the groups with their
   * rectangles and origin, and leaves `min_x`/`min_y` at the lowest corner
   * of the last rectangle.
   */
  lemma {:induction false} BoundGroupsLaws(zs: seq<seq<NavArea>>, s: Sweep, origin: (real, real))
    requires Aligned(s) && BoundGroups(zs, s, origin).Some?
    ensures var s' := BoundGroups(zs, s, origin).value;
            && Aligned(s')
            && s'.groups == s.groups + zs
            && s'.origins[..|s.origins|] == s.origins
            && s'.boundaries[..|s.boundaries|] == s.boundaries
            && (forall i :: |s.origins| <= i < |s'.origins| ==> s'.origins[i] == origin)
            && (zs == [] ==> s'.minX == s.minX && s'.minY == s.minY)
            && (zs != [] ==>
                  s'.minX == s'.boundaries[|zs| + |s.groups| - 1][0].x &&
                  s'.minY == s'.boundaries[|zs| + |s.groups| - 1][0].y)
  {
    if zs != [] {
      var init := zs[..|zs| - 1];
      var last := zs[|zs| - 1];
      var r := BoundGroups(init, s, origin).value;
      BoundGroupsLaws(init, s, origin);
      var box := Rectangle(last).value;
      BoundKeepsAligned(r, last, box, origin);
      var s' := Bound(r, last, box, origin);
      assert s'.origins[..|r.origins|] == r.origins;
      assert s'.boundaries[..|r.boundaries|] == r.boundaries;
      assert init + [last] == zs;
    }
  }

  lemma {:induction false} MemberOfGroup(groups: seq<seq<NavArea>>, i: nat, x: NavArea)
    requires i < |groups| && x in groups[i]
    ensures x in Members(groups)
  {
    var n := |groups|;
    if i < n - 1 {
      MemberOfGroup(groups[..n - 1], i, x);
    }
  }

  /** A grouping that puts every area of a block in exactly one non-empty group. */
  ghost predicate Partitions(zg: Grouping) {
    forall b, o :: Members(zg(b, o)) == multiset(b) && forall t :: 0 <= t < |zg(b, o)| ==> zg(b, o)[t] != []
  }

  /** A grouping whose groups are well formed on the grid rounded from the origin. */
  ghost predicate PlacesWell(zg: Grouping, dx: real, dy: real)
    requires dx != 0.0 && dy != 0.0
  {
    forall b, o, t :: 0 <= t < |zg(b, o)| ==> WellFormed(zg(b, o)[t], Grid(o.0, o.1, dx, dy))
  }

  lemma GroupingOnLaws(dx: real, dy: real)
    requires dx != 0.0 && dy != 0.0
    ensures Partitions(GroupingOn(dx, dy)) && PlacesWell(GroupingOn(dx, dy), dx, dy)
  {
    var zg := GroupingOn(dx, dy);
    forall b, o ensures Members(zg(b, o)) == multiset(b)
      ensures forall t :: 0 <= t < |zg(b, o)| ==> WellFormed(zg(b, o)[t], Grid(o.0, o.1, dx, dy))
    {
      ZGroupsLaws(b, Grid(o.0, o.1, dx, dy));
    }
  }

  /** The groups of a block whose areas all have key `k` hold only such areas. */
  lemma GroupsKeyed(zs: seq<seq<NavArea>>, block: seq<NavArea>, key: NavArea -> (int, int), k: (int, int))
    requires Members(zs) == multiset(block) && forall t :: 0 <= t < |zs| ==> zs[t] != []
    requires forall x :: 0 <= x < |block| ==> key(block[x]) == k
    ensures forall t :: 0 <= t < |zs| ==> zs[t] != [] && forall x :: 0 <= x < |zs[t]| ==> key(zs[t][x]) == k
  {
    forall t, x | 0 <= t < |zs| && 0 <= x < |zs[t]| ensures key(zs[t][x]) == k {
      MemberOfGroup(zs, t, zs[t][x]);
      assert zs[t][x] in multiset(block);
    }
  }

  /** Every group is well formed on the grid rounded from its recorded origin. */
  ghost predicate PlacedWell(s: Sweep, dx: real, dy: real) {
    && dx != 0.0 && dy != 0.0 && |s.origins| == |s.groups|
    && forall i :: 0 <= i < |s.groups| ==> WellFormed(s.groups[i], Grid(s.origins[i].0, s.origins[i].1, dx, dy))
  }

  /** The groups of one more block keep every group well placed. */
  lemma BlockPlacedWell(s: Sweep, s': Sweep, zs: seq<seq<NavArea>>, dx: real, dy: real)
    requires PlacedWell(s, dx, dy)
    requires forall t :: 0 <= t < |zs| ==> WellFormed(zs[t], Grid(s.minX, s.minY, dx, dy))
    requires s'.groups == s.groups + zs && |s'.origins| == |s'.groups| && s'.origins[..|s.origins|] == s.origins
    requires forall i :: |s.origins| <= i < |s'.origins| ==> s'.origins[i] == (s.minX, s.minY)
    ensures PlacedWell(s', dx, dy)
  {
    forall i | 0 <= i < |s'.groups|
      ensures WellFormed(s'.groups[i], Grid(s'.origins[i].0, s'.origins[i].1, dx, dy))
    {
      if i < |s.groups| {
        assert s'.origins[i] == s.origins[i];
      } else {
        assert s'.groups[i] == zs[i - |s.groups|];
      }
    }
  }

  /**
   * The loop over blocks, when it succeeds, keeps the rectangles aligned,
   * collects every area of the listed blocks once, and places every group
   * well on the grid its block was rounded on.
   */
  lemma {:induction false} SweepLaws(keys: seq<(int, int)>, m: map<(int, int), seq<NavArea>>, zg: Grouping,
                                     dx: real, dy: real, s0: Sweep)
    requires dx != 0.0 && dy != 0.0 && (forall k :: k in keys ==> k in m)
    requires Partitions(zg) && PlacesWell(zg, dx, dy)
    requires Aligned(s0) && PlacedWell(s0, dx, dy)
    requires SweepBlocks(keys, m, zg, s0).Some?
    ensures var s := SweepBlocks(keys, m, zg, s0).value;
            && Aligned(s)
            && Members(s.groups) == Members(s0.groups) + Gathered(keys, m)
            && PlacedWell(s, dx, dy)
  {
    if keys != [] {
      var init := keys[..|keys| - 1];
      var k := keys[|keys| - 1];
      SweepLaws(init, m, zg, dx, dy, s0);
      var s := SweepBlocks(init, m, zg, s0).value;
      BlockLaws(s, m[k], zg, dx, dy);
      assert Gathered(keys, m) == Gathered(init, m) + multiset(m[k]);
    }
  }

  /** One block grouped with `zg` and bounded keeps the sweep's laws and adds the block's areas. */
  lemma BlockLaws(s: Sweep, block: seq<NavArea>, zg: Grouping, dx: real, dy: real)
    requires dx != 0.0 && dy != 0.0 && Partitions(zg) && PlacesWell(zg, dx, dy)
    requires Aligned(s) && PlacedWell(s, dx, dy)
    requires BoundGroups(zg(block, (s.minX, s.minY)), s, (s.minX, s.minY)).Some?
    ensures var s' := BoundGroups(zg(block, (s.minX, s.minY)), s, (s.minX, s.minY)).value;
            && Aligned(s')
            && Members(s'.groups) == Members(s.groups) + multiset(block)
            && PlacedWell(s', dx, dy)
  {
    var zs := zg(block, (s.minX, s.minY));
    BoundGroupsLaws(zs, s, (s.minX, s.minY));
    var s' := BoundGroups(zs, s, (s.minX, s.minY)).value;
    MembersAppend(s.groups, zs);
    BlockPlacedWell(s, s', zs, dx, dy);
  }

  /** Every group is non-empty and its areas share one block key. */
  ghost predicate KeyedBy(groups: seq<seq<NavArea>>, key: NavArea -> (int, int)) {
    forall i :: 0 <= i < |groups| ==>
      groups[i] != [] && forall x :: 0 <= x < |groups[i]| ==> key(groups[i][x]) == key(groups[i][0])
  }

  /** The groups come in ascending block-key order. */
  ghost predicate KeysAscend(groups: seq<seq<NavArea>>, key: NavArea -> (int, int))
    requires KeyedBy(groups, key)
  {
    forall i, j :: 0 <= i < j < |groups| ==> KeyLe(key(groups[i][0]), key(groups[j][0]))
  }

  /** Every group's key is one of `keys`. */
  ghost predicate KeysFrom(groups: seq<seq<NavArea>>, key: NavArea -> (int, int), keys: seq<(int, int)>)
    requires KeyedBy(groups, key)
  {
    forall i :: 0 <= i < |groups| ==> key(groups[i][0]) in keys
  }

  /** The lowest corner of a rectangle. */
  function Low(b: seq<Vector3>): (real, real) {
    if b == [] then (0.0, 0.0) else (b[0].x, b[0].y)
  }

  /**
   * The rebinding of `min_x`/`min_y`: the first group's cells are rounded
   * from the start origin; a group of the same block as the one before it
   * shares its origin; the first group of a later block uses the lowest
   * corner of the previous group's rectangle.
   */
  ghost predicate Rebinds(s: Sweep, key: NavArea -> (int, int), x0: real, y0: real)
    requires KeyedBy(s.groups, key) && |s.origins| == |s.groups| && |s.boundaries| == |s.groups|
  {
    && (|s.groups| > 0 ==> s.origins[0] == (x0, y0))
    && forall i :: 0 <= i < |s.groups| - 1 ==>
         if key(s.groups[i + 1][0]) == key(s.groups[i][0]) then s.origins[i + 1] == s.origins[i]
         else s.origins[i + 1] == Low(s.boundaries[i])
  }

  /** The current `min_x`/`min_y`: the start origin, or the last rectangle's lowest corner. */
  ghost predicate Current(s: Sweep, x0: real, y0: real)
    requires |s.boundaries| == |s.groups|
  {
    if s.groups == [] then (s.minX, s.minY) == (x0, y0)
    else (s.minX, s.minY) == Low(s.boundaries[|s.groups| - 1])
  }

  /** How one block's groups extend the sweep, as `BoundGroupsLaws` states it. */
  ghost predicate Extends(s: Sweep, s': Sweep, zs: seq<seq<NavArea>>)
  {
    && s'.groups == s.groups + zs
    && |s.origins| == |s.groups| && |s.boundaries| == |s.groups|
    && |s'.origins| == |s'.groups| && |s'.boundaries| == |s'.groups|
    && s'.origins[..|s.origins|] == s.origins && s'.boundaries[..|s.boundaries|] == s.boundaries
    && (forall i :: |s.origins| <= i < |s'.origins| ==> s'.origins[i] == (s.minX, s.minY))
  }

  /** Bounding a block's groups extends the sweep, as `OrderedStep` takes it. */
  lemma BoundGroupsExtends(zs: seq<seq<NavArea>>, s: Sweep)
    requires Aligned(s) && BoundGroups(zs, s, (s.minX, s.minY)).Some?
    ensures var s' := BoundGroups(zs, s, (s.minX, s.minY)).value;
            && Extends(s, s', zs) && Aligned(s')
            && (zs == [] ==> s'.minX == s.minX && s'.minY == s.minY)
            && (zs != [] ==>
                  s'.minX == s'.boundaries[|s'.groups| - 1][0].x &&
                  s'.minY == s'.boundaries[|s'.groups| - 1][0].y)
  {
    BoundGroupsLaws(zs, s, (s.minX, s.minY));
  }

  lemma BlockKeyed(s: Sweep, s': Sweep, zs: seq<seq<NavArea>>, key: NavArea -> (int, int), k: (int, int),
                   keys: seq<(int, int)>)
    requires Extends(s, s', zs) && KeyedBy(s.groups, key) && KeysFrom(s.groups, key, keys)
    requires forall t :: 0 <= t < |zs| ==> zs[t] != [] && forall x :: 0 <= x < |zs[t]| ==> key(zs[t][x]) == k
    ensures KeyedBy(s'.groups, key) && KeysFrom(s'.groups, key, keys + [k])
  {
    forall i | 0 <= i < |s'.groups|
      ensures s'.groups[i] != [] && forall x :: 0 <= x < |s'.groups[i]| ==> key(s'.groups[i][x]) == key(s'.groups[i][0])
      ensures key(s'.groups[i][0]) in keys + [k]
    {
      if i < |s.groups| {
        assert s'.groups[i] == s.groups[i];
      } else {
        assert s'.groups[i] == zs[i - |s.groups|];
      }
    }
  }

  lemma BlockAscends(s: Sweep, s': Sweep, zs: seq<seq<NavArea>>, key: NavArea -> (int, int), k: (int, int),
                     keys: seq<(int, int)>)
    requires Extends(s, s', zs) && KeyedBy(s.groups, key) && KeysFrom(s.groups, key, keys)
    requires KeysAscend(s.groups, key) && KeyedBy(s'.groups, key)
    requires forall j :: j in keys ==> KeyLe(j, k)
    requires forall t :: 0 <= t < |zs| ==> zs[t] != [] && key(zs[t][0]) == k
    ensures KeysAscend(s'.groups, key)
  {
    forall i, j | 0 <= i < j < |s'.groups| ensures KeyLe(key(s'.groups[i][0]), key(s'.groups[j][0])) {
      if j < |s.groups| {
        assert s'.groups[i] == s.groups[i] && s'.groups[j] == s.groups[j];
      } else if i < |s.groups| {
        assert s'.groups[i] == s.groups[i] && s'.groups[j] == zs[j - |s.groups|];
      } else {
        assert s'.groups[i] == zs[i - |s.groups|] && s'.groups[j] == zs[j - |s.groups|];
      }
    }
  }

  lemma BlockRebinds(s: Sweep, s': Sweep, zs: seq<seq<NavArea>>, key: NavArea -> (int, int), k: (int, int),
                     keys: seq<(int, int)>, x0: real, y0: real)
    requires Extends(s, s', zs)
    requires KeyedBy(s.groups, key) && KeysFrom(s.groups, key, keys) && KeyedBy(s'.groups, key)
    requires Rebinds(s, key, x0, y0) && Current(s, x0, y0)
    requires forall j :: j in keys ==> j != k
    requires forall t :: 0 <= t < |zs| ==> zs[t] != [] && key(zs[t][0]) == k
    ensures Rebinds(s', key, x0, y0)
  {
    assert forall i :: 0 <= i < |s.groups| ==>
      s'.groups[i] == s.groups[i] && s'.boundaries[i] == s.boundaries[i] && s'.origins[i] == s.origins[i];
    forall i | 0 <= i < |s'.groups| - 1
      ensures if key(s'.groups[i + 1][0]) == key(s'.groups[i][0]) then s'.origins[i + 1] == s'.origins[i]
              else s'.origins[i + 1] == Low(s'.boundaries[i])
    {
      if i + 1 < |s.groups| {
      } else if i + 1 == |s.groups| {
        assert s'.groups[i + 1] == zs[0];
        assert key(s.groups[i][0]) in keys;
      } else {
        assert s'.groups[i] == zs[i - |s.groups|] && s'.groups[i + 1] == zs[i + 1 - |s.groups|];
      }
    }
  }

  /** Sorted distinct keys: each is strictly after every key before it. */
  lemma SortedKeysBefore(keys: seq<(int, int)>)
    requires keys != [] && Sorting.SortedBy(keys, KeyLe) && Distinct(keys)
    ensures var init := keys[..|keys| - 1];
            && keys == init + [keys[|keys| - 1]]
            && Sorting.SortedBy(init, KeyLe) && Distinct(init)
            && forall j :: j in init ==> KeyLe(j, keys[|keys| - 1]) && j != keys[|keys| - 1]
  {
  }

  /** The sweep invariant of `SweepOrder`. */
  ghost predicate Ordered(s: Sweep, key: NavArea -> (int, int), keys: seq<(int, int)>, x0: real, y0: real) {
    && Aligned(s) && KeyedBy(s.groups, key) && KeysFrom(s.groups, key, keys)
    && KeysAscend(s.groups, key) && Rebinds(s, key, x0, y0) && Current(s, x0, y0)
  }

  /** One more block, all of whose groups have a key after every key so far, keeps the sweep ordered. */
  lemma OrderedStep(s: Sweep, s': Sweep, zs: seq<seq<NavArea>>, key: NavArea -> (int, int), k: (int, int),
                    init: seq<(int, int)>, keys: seq<(int, int)>, x0: real, y0: real)
    requires keys == init + [k]
    requires Ordered(s, key, init, x0, y0) && Extends(s, s', zs) && Aligned(s')
    requires forall t :: 0 <= t < |zs| ==> zs[t] != [] && forall x :: 0 <= x < |zs[t]| ==> key(zs[t][x]) == k
    requires forall j :: j in init ==> KeyLe(j, k) && j != k
    requires zs == [] ==> s'.minX == s.minX && s'.minY == s.minY
    requires zs != [] ==> s'.minX == s'.boundaries[|s'.groups| - 1][0].x && s'.minY == s'.boundaries[|s'.groups| - 1][0].y
    ensures Ordered(s', key, keys, x0, y0)
  {
    BlockKeyed(s, s', zs, key, k, init);
    BlockAscends(s, s', zs, key, k, init);
    BlockRebinds(s, s', zs, key, k, init, x0, y0);
    if zs == [] {
      assert s'.groups == s.groups && s'.boundaries == s.boundaries;
    }
  }

  /**
   * The loop over sorted blocks, when it succeeds: the groups come in
   * ascending block-key order, every group holds areas of one block only,
   * and each block's cells are rounded from the origin left by the block
   * before it.
   */
  lemma {:induction false} SweepOrder(keys: seq<(int, int)>, m: map<(int, int), seq<NavArea>>, zg: Grouping,
                                      key: NavArea -> (int, int), x0: real, y0: real)
    requires (forall k :: k in keys ==> k in m) && Partitions(zg)
    requires FiledUnder(m, key) && Sorting.SortedBy(keys, KeyLe) && Distinct(keys)
    requires SweepBlocks(keys, m, zg, Sweep([], [], [], x0, y0)).Some?
    ensures Ordered(SweepBlocks(keys, m, zg, Sweep([], [], [], x0, y0)).value, key, keys, x0, y0)
  {
    if keys != [] {
      var init := keys[..|keys| - 1];
      SortedKeysBefore(keys);
      SweepOrder(init, m, zg, key, x0, y0);
      SweepStep(keys, m, zg, key, x0, y0, SweepBlocks(init, m, zg, Sweep([], [], [], x0, y0)).value);
    }
  }

  /** The last block of `keys`, grouped and bounded after an ordered sweep of the others. */
  lemma SweepStep(keys: seq<(int, int)>, m: map<(int, int), seq<NavArea>>, zg: Grouping,
                  key: NavArea -> (int, int), x0: real, y0: real, s: Sweep)
    requires keys != [] && (forall k :: k in keys ==> k in m) && Partitions(zg)
    requires FiledUnder(m, key) && Sorting.SortedBy(keys, KeyLe) && Distinct(keys)
    requires Ordered(s, key, keys[..|keys| - 1], x0, y0)
    requires BoundGroups(zg(m[keys[|keys| - 1]], (s.minX, s.minY)), s, (s.minX, s.minY)).Some?
    ensures Ordered(BoundGroups(zg(m[keys[|keys| - 1]], (s.minX, s.minY)), s, (s.minX, s.minY)).value,
                    key, keys, x0, y0)
  {
    var init := keys[..|keys| - 1];
    var k := keys[|keys| - 1];
    SortedKeysBefore(keys);
    var zs := zg(m[k], (s.minX, s.minY));
    BoundGroupsExtends(zs, s);
    var s' := BoundGroups(zs, s, (s.minX, s.minY)).value;
    GroupsKeyed(zs, m[k], key, k);
    OrderedStep(s, s', zs, key, k, init, keys, x0, y0);
  }

  /** A permutation of a sequence without repeats has none either. */
  lemma {:induction false} DistinctByCount<T>(s: seq<T>)
    ensures Distinct(s) <==> forall x :: multiset(s)[x] <= 1
  {
    if s != [] {
      var init := s[..|s| - 1];
      var y := s[|s| - 1];
      DistinctByCount(init);
      MultisetSnoc(s);
      if Distinct(s) {
        assert Distinct(init) && y !in init;
      } else {
        var i, j :| 0 <= i < j < |s| && s[i] == s[j];
        if j < |s| - 1 {
          assert init[i] == init[j];
          assert !Distinct(init);
          var x :| multiset(init)[x] > 1;
          assert multiset(s)[x] >= multiset(init)[x];
        } else {
          assert init[i] == y;
          assert multiset(s)[y] == multiset(init)[y] + 1;
        }
      }
    }
  }

  lemma DistinctPermutation<T>(ks: seq<T>, ls: seq<T>)
    requires multiset(ks) == multiset(ls) && Distinct(ks)
    ensures Distinct(ls)
  {
    DistinctByCount(ks);
    DistinctByCount(ls);
  }

  /**
   * What `group_nav_areas` promises when it returns: every area in exactly
   * one z-group; each z-group's rectangle beside it; within a z-group, all
   * areas within a jump of each other and no two in one cell of the grid
   * rounded from the z-group's origin; all areas of a z-group in one block;
   * blocks in ascending key order; and each block's cells rounded from the
   * lowest corner of the rectangle before it (the start origin for the
   * first block).
   */
  lemma ClustersLaws(areas: seq<NavArea>, size: int)
    requires Groupable(areas, size) && Clusters(areas, size).Some?
    ensures var s := Clusters(areas, size).value;
            var g := StartGrid(areas);
            var key := KeyOn(g, size);
            && Members(s.groups) == multiset(areas)
            && Aligned(s)
            && PlacedWell(s, g.deltaX, g.deltaY)
            && KeyedBy(s.groups, key) && KeysAscend(s.groups, key)
            && Rebinds(s, key, g.minX, g.minY)
  {
    var g := StartGrid(areas);
    var key := KeyOn(g, size);
    var b := Bucket(areas, key);
    BucketLaws(areas, key);
    var sorted := SortedKeys(b.keys);
    assert forall k :: k in sorted ==> k in b.blocks by {
      assert forall k :: k in sorted ==> k in multiset(b.keys);
    }
    var zg := GroupingOn(g.deltaX, g.deltaY);
    var s0 := Sweep([], [], [], g.minX, g.minY);
    assert Clusters(areas, size) == SweepBlocks(sorted, b.blocks, zg, s0);
    GroupingOnLaws(g.deltaX, g.deltaY);
    SweepLaws(sorted, b.blocks, zg, g.deltaX, g.deltaY, s0);
    GatheredPermutation(sorted, b.keys, b.blocks);
    DistinctPermutation(b.keys, sorted);
    SweepOrder(sorted, b.blocks, zg, key, g.minX, g.minY);
  }

  /** Once a prefix of a block's groups has no rectangle, neither has the block. */
  lemma {:induction false} BoundGroupsFailsOn(zs: seq<seq<NavArea>>, s: Sweep, origin: (real, real), t: nat)
    requires t <= |zs| && BoundGroups(zs[..t], s, origin).None?
    ensures BoundGroups(zs, s, origin).None?
    decreases |zs| - t
  {
    if t < |zs| {
      assert zs[..t + 1][..t] == zs[..t];
      BoundGroupsFailsOn(zs, s, origin, t + 1);
    } else {
      assert zs[..t] == zs;
    }
  }

  /** Once a prefix of the blocks fails, the whole sweep fails. */
  lemma {:induction false} SweepFailsOn(keys: seq<(int, int)>, m: map<(int, int), seq<NavArea>>, zg: Grouping,
                                        s0: Sweep, j: nat)
    requires (forall k :: k in keys ==> k in m) && j <= |keys|
    requires SweepBlocks(keys[..j], m, zg, s0).None?
    ensures SweepBlocks(keys, m, zg, s0).None?
    decreases |keys| - j
  {
    if j < |keys| {
      assert keys[..j + 1][..j] == keys[..j];
      SweepFailsOn(keys, m, zg, s0, j + 1);
    } else {
      assert keys[..j] == keys;
    }
  }

  /** The `block_map` loop: each area appended to the list of its block. */
  method BucketAreas(areas: seq<NavArea>, g: Grid, size: int)
    returns (keys: seq<(int, int)>, blocks: map<(int, int), seq<NavArea>>)
    requires ValidGrid(g) && size != 0
    ensures BlockMap(keys, blocks) == Bucket(areas, KeyOn(g, size))
  {
    keys, blocks := [], map[];
    for i := 0 to |areas|
      invariant BlockMap(keys, blocks) == Bucket(areas[..i], KeyOn(g, size))
    {
      var k := BlockKey(areas[i], g, size);
      if k in blocks {
        blocks := blocks[k := blocks[k] + [areas[i]]];
      } else {
        keys := keys + [k];
        blocks := blocks[k := [areas[i]]];
      }
      assert areas[..i + 1][..i] == areas[..i];
    }
    assert areas[..|areas|] == areas;
  }

  /** What the script keeps of a sweep: the rectangles and the current `min_x`/`min_y`. */
  function Kept(s: Sweep): (seq<seq<Vector3>>, real, real) {
    (s.boundaries, s.minX, s.minY)
  }

  /**
   * The bounds loop over one block's z-groups, extending the rectangles of
   * the sweep `s` and rebinding `min_x`/`min_y` to each rectangle's lowest
   * corner; `None` for a z-group without corners.
   */
  method BoundBlock(zs: seq<seq<NavArea>>, ghost s: Sweep, boundaries0: seq<seq<Vector3>>, x0: real, y0: real)
    returns (r: Option<(seq<seq<Vector3>>, real, real)>)
    requires Kept(s) == (boundaries0, x0, y0)
    ensures r == match BoundGroups(zs, s, (x0, y0)) case None => None case Some(s') => Some(Kept(s'))
  {
    var boundaries, minX, minY := boundaries0, x0, y0;
    ghost var cur := s;
    for t := 0 to |zs|
      invariant BoundGroups(zs[..t], s, (x0, y0)) == Some(cur)
      invariant Kept(cur) == (boundaries, minX, minY)
    {
      assert zs[..t + 1][..t] == zs[..t];
      var box := Rectangle(zs[t]);
      if box.None? {
        BoundGroupsFailsOn(zs, s, (x0, y0), t + 1);
        return None;
      }
      boundaries := boundaries + [box.value];
      minX, minY := box.value[0].x, box.value[0].y;
      cur := Bound(cur, zs[t], box.value, (x0, y0));
    }
    assert zs[..|zs|] == zs;
    r := Some((boundaries, minX, minY));
  }

  /** One more block of the sweep, after a prefix that succeeded with `cur`. */
  lemma SweepBlocksStep(keys: seq<(int, int)>, m: map<(int, int), seq<NavArea>>, zg: Grouping, s0: Sweep,
                        j: nat, cur: Sweep)
    requires (forall k :: k in keys ==> k in m) && j < |keys|
    requires SweepBlocks(keys[..j], m, zg, s0) == Some(cur)
    ensures SweepBlocks(keys[..j + 1], m, zg, s0)
            == BoundGroups(zg(m[keys[j]], (cur.minX, cur.minY)), cur, (cur.minX, cur.minY))
  {
    assert keys[..j + 1][..j] == keys[..j];
  }

  /** The loop over the sorted blocks: group each block, then bound its z-groups. */
  method SweepKeys(sorted: seq<(int, int)>, blocks: map<(int, int), seq<NavArea>>, dx: real, dy: real,
                   x0: real, y0: real)
    returns (r: Option<seq<seq<Vector3>>>)
    requires dx != 0.0 && dy != 0.0 && forall k :: k in sorted ==> k in blocks
    ensures r == match SweepBlocks(sorted, blocks, GroupingOn(dx, dy), Sweep([], [], [], x0, y0))
                 case None => None case Some(s) => Some(s.boundaries)
  {
    ghost var s0 := Sweep([], [], [], x0, y0);
    ghost var cur := s0;
    var boundaries: seq<seq<Vector3>>, minX, minY := [], x0, y0;
    for j := 0 to |sorted|
      invariant SweepBlocks(sorted[..j], blocks, GroupingOn(dx, dy), s0) == Some(cur)
      invariant Kept(cur) == (boundaries, minX, minY)
    {
      var zs := ZGroupsOf(blocks[sorted[j]], Grid(minX, minY, dx, dy));
      SweepBlocksStep(sorted, blocks, GroupingOn(dx, dy), s0, j, cur);
      var next := BoundBlock(zs, cur, boundaries, minX, minY);
      if next.None? {
        SweepFailsOn(sorted, blocks, GroupingOn(dx, dy), s0, j + 1);
        return None;
      }
      cur := BoundGroups(zs, cur, (minX, minY)).value;
      boundaries, minX, minY := next.value.0, next.value.1, next.value.2;
    }
    assert sorted[..|sorted|] == sorted;
    r := Some(boundaries);
  }

  /** `group_nav_areas`, step by step. */
  method GroupNavAreas(areas: seq<NavArea>, size: int) returns (r: Option<seq<seq<Vector3>>>)
    ensures r == GroupedBoundaries(areas, size)
  {
    if areas == [] || areas[0].corners == [] {
      return None;
    }
    var g := StartGrid(areas);
    if !ValidGrid(g) || size == 0 {
      return None;
    }
    var keys, blocks := BucketAreas(areas, g, size);
    BucketLaws(areas, KeyOn(g, size));
    var sorted := SortedKeys(keys);
    assert forall k :: k in sorted ==> k in blocks by {
      assert forall k :: k in sorted ==> k in multiset(keys);
    }
    r := SweepKeys(sorted, blocks, g.deltaX, g.deltaY, g.minX, g.minY);
    ClustersUnfold(areas, size);
  }

  lemma ClustersUnfold(areas: seq<NavArea>, size: int)
    requires Groupable(areas, size)
    ensures var g := StartGrid(areas);
            var b := Bucket(areas, KeyOn(g, size));
            && (forall k :: k in SortedKeys(b.keys) ==> k in b.blocks)
            && GroupedBoundaries(areas, size)
               == match SweepBlocks(SortedKeys(b.keys), b.blocks, GroupingOn(g.deltaX, g.deltaY),
                                    Sweep([], [], [], g.minX, g.minY))
                  case None => None case Some(s) => Some(s.boundaries)
  {
    var g := StartGrid(areas);
    var key := KeyOn(g, size);
    BucketLaws(areas, key);
    var b := Bucket(areas, key);
    var sorted := SortedKeys(b.keys);
    assert forall k :: k in sorted ==> k in b.blocks by {
      assert forall k :: k in sorted ==> k in multiset(b.keys);
    }
    assert Clusters(areas, size)
           == SweepBlocks(sorted, b.blocks, GroupingOn(g.deltaX, g.deltaY), Sweep([], [], [], g.minX, g.minY));
  }

  // ---------------------------------------------------------------------
  // The marked sets of the plot loop.

  /** The tiles one frame draws: olive, green and purple. */
  datatype Tiles = Tiles(olive: set<nat>, green: set<nat>, purple: set<nat>)

  /** The union of the CT areas newly marked by the records. */
  function MarkedCt(points: seq<Spread.SpreadResult>): set<nat> {
    if points == [] then {} else MarkedCt(points[..|points| - 1]) + points[|points| - 1].newMarkedCt
  }

  function MarkedT(points: seq<Spread.SpreadResult>): set<nat> {
    if points == [] then {} else MarkedT(points[..|points| - 1]) + points[|points| - 1].newMarkedT
  }

  /**
   * The tiles of a frame given what was marked before it: olive for all
   * earlier marks, green for this record's new marks, purple for the areas
   * that both sides have reached once this record is counted.
   */
  function TilesOf(ct: set<nat>, t: set<nat>, p: Spread.SpreadResult): (r: Tiles)
    ensures r.purple == (t + p.newMarkedT) * (ct + p.newMarkedCt)
    ensures r.purple <= r.olive + r.green
  {
    Tiles(ct + t, p.newMarkedCt + p.newMarkedT, (t + p.newMarkedT) * (ct + p.newMarkedCt))
  }

  /** The frames drawn for the records, each against the marks of the records before it. */
  function Frames(points: seq<Spread.SpreadResult>): seq<Tiles> {
    if points == [] then []
    else
      var init := points[..|points| - 1];
      Frames(init) + [TilesOf(MarkedCt(init), MarkedT(init), points[|points| - 1])]
  }

  /** Frame `i` is drawn against the marks of the first `i` records. */
  lemma {:induction false} FramesAt(points: seq<Spread.SpreadResult>)
    ensures |Frames(points)| == |points|
    ensures forall i :: 0 <= i < |points| ==>
              Frames(points)[i] == TilesOf(MarkedCt(points[..i]), MarkedT(points[..i]), points[i])
  {
    if points != [] {
      var init := points[..|points| - 1];
      FramesAt(init);
      var last := TilesOf(MarkedCt(init), MarkedT(init), points[|points| - 1]);
      assert Frames(points) == Frames(init) + [last];
      forall i | 0 <= i < |points|
        ensures Frames(points)[i] == TilesOf(MarkedCt(points[..i]), MarkedT(points[..i]), points[i])
      {
        if i < |init| {
          assert init[..i] == points[..i] && init[i] == points[i];
          assert Frames(points)[i] == Frames(init)[i];
        } else {
          assert points[..i] == init;
        }
      }
    }
  }

  /**
   * The loop of `plot_spread_from_input`: each record is drawn against the
   * marks accumulated before it, then its new marks are added (`|=`).
   */
  method AccumulateMarked(points: seq<Spread.SpreadResult>)
    returns (frames: seq<Tiles>, markedCt: set<nat>, markedT: set<nat>)
    ensures |frames| == |points|
    ensures forall i :: 0 <= i < |points| ==>
              frames[i] == TilesOf(MarkedCt(points[..i]), MarkedT(points[..i]), points[i])
    ensures markedCt == MarkedCt(points) && markedT == MarkedT(points)
  {
    frames, markedCt, markedT := [], {}, {};
    for i := 0 to |points|
      invariant frames == Frames(points[..i])
      invariant markedCt == MarkedCt(points[..i]) && markedT == MarkedT(points[..i])
    {
      frames := frames + [TilesOf(markedCt, markedT, points[i])];
      MarkedSnoc(points, i);
      markedCt := markedCt + points[i].newMarkedCt;
      markedT := markedT + points[i].newMarkedT;
    }
    assert points[..|points|] == points;
    FramesAt(points);
  }

  /** One more record adds exactly its new marks and its frame. */
  lemma MarkedSnoc(points: seq<Spread.SpreadResult>, i: nat)
    requires i < |points|
    ensures MarkedCt(points[..i + 1]) == MarkedCt(points[..i]) + points[i].newMarkedCt
    ensures MarkedT(points[..i + 1]) == MarkedT(points[..i]) + points[i].newMarkedT
    ensures Frames(points[..i + 1])
            == Frames(points[..i]) + [TilesOf(MarkedCt(points[..i]), MarkedT(points[..i]), points[i])]
  {
    assert points[..i + 1][..i] == points[..i];
  }

  /** The accumulated marks only grow from frame to frame. */
  lemma {:induction false} MarkedGrows(points: seq<Spread.SpreadResult>, i: nat, j: nat)
    requires i <= j <= |points|
    ensures MarkedCt(points[..i]) <= MarkedCt(points[..j])
    ensures MarkedT(points[..i]) <= MarkedT(points[..j])
  {
    if i < j {
      MarkedGrows(points, i, j - 1);
      assert points[..j][..j - 1] == points[..j - 1];
    }
  }

  /** Purple is exactly what both sides have reached once the frame's record is counted. */
  lemma PurpleIsReachedByBoth(points: seq<Spread.SpreadResult>, i: nat)
    requires i < |points|
    ensures TilesOf(MarkedCt(points[..i]), MarkedT(points[..i]), points[i]).purple
            == MarkedCt(points[..i + 1]) * MarkedT(points[..i + 1])
  {
    assert points[..i + 1][..i] == points[..i];
  }

  /**
   * On the records of a spread run, the marks the script accumulates before
   * a record are the old marks the simulator stored in it.
   */
  lemma {:induction false} MarkedIsOldMarked(points: seq<Spread.SpreadResult>, i: nat)
    requires Spread.MarksChained(points) && i < |points|
    ensures MarkedCt(points[..i]) == points[i].oldMarkedCt
    ensures MarkedT(points[..i]) == points[i].oldMarkedT
  {
    if i > 0 {
      MarkedIsOldMarked(points, i - 1);
      assert points[..i][..i - 1] == points[..i - 1];
    }
  }
}
