/**
 * The collision checker of `src/collisions.rs`: decoding a `.tri` file
 * into triangles, axis-aligned bounding boxes with the slab test, the
 * bounding-volume hierarchy (median split on the axis of largest
 * centroid spread) and its traversal, and the Moller-Trumbore
 * ray/triangle test.
 *
 * Decoding four bytes into a float is an oracle `decode`; the file is
 * the sequence of results of successive `read` calls.
 */
module Collisions {
  import opened Wrappers
  import opened Geometry
  import Sorting

  datatype Triangle = Triangle(p1: Position, p2: Position, p3: Position)

  /** The componentwise mean of the three vertices. */
  function Centroid(t: Triangle): (c: Position)
    ensures 3.0 * c.x == t.p1.x + t.p2.x + t.p3.x
    ensures 3.0 * c.y == t.p1.y + t.p2.y + t.p3.y
    ensures 3.0 * c.z == t.p1.z + t.p2.z + t.p3.z
  {
    Position((t.p1.x + t.p2.x + t.p3.x) / 3.0,
             (t.p1.y + t.p2.y + t.p3.y) / 3.0,
             (t.p1.z + t.p2.z + t.p3.z) / 3.0)
  }

  // ---------------------------------------------------------------------
  // Reading a `.tri` file.

  type Byte = b: int | 0 <= b < 256

  /** Bytes per triangle: nine 4-byte floats. */
  const TRIANGLE_BYTES: nat := 36
  /** The read buffer holds 1000 triangles. */
  const CHUNK_SIZE: nat := 1000 * TRIANGLE_BYTES

  /** The i-th float (0 <= i < 9) of a 36-byte group. */
  function Value(decode: seq<Byte> -> real, group: seq<Byte>, i: nat): real
    requires |group| == TRIANGLE_BYTES && i < 9
  {
    decode(group[4 * i .. 4 * i + 4])
  }

  /** A triangle from one 36-byte group: x, y, z of p1, then p2, then p3. */
  function DecodeTriangle(decode: seq<Byte> -> real, group: seq<Byte>): Triangle
    requires |group| == TRIANGLE_BYTES
  {
    Triangle(Position(Value(decode, group, 0), Value(decode, group, 1), Value(decode, group, 2)),
             Position(Value(decode, group, 3), Value(decode, group, 4), Value(decode, group, 5)),
             Position(Value(decode, group, 6), Value(decode, group, 7), Value(decode, group, 8)))
  }

  /** The k-th 36-byte group of a chunk. */
  function Group(chunk: seq<Byte>, k: nat): seq<Byte>
    requires k < |chunk| / TRIANGLE_BYTES
  {
    chunk[TRIANGLE_BYTES * k .. TRIANGLE_BYTES * k + TRIANGLE_BYTES]
  }

  /** The triangles of the complete 36-byte groups of one read; trailing bytes are dropped. */
  function ChunkTriangles(decode: seq<Byte> -> real, chunk: seq<Byte>): (ts: seq<Triangle>)
    ensures |ts| == |chunk| / TRIANGLE_BYTES
    ensures forall k :: 0 <= k < |ts| ==> ts[k] == DecodeTriangle(decode, Group(chunk, k))
  {
    seq(|chunk| / TRIANGLE_BYTES, k requires 0 <= k < |chunk| / TRIANGLE_BYTES =>
          DecodeTriangle(decode, Group(chunk, k)))
  }

  /** The chunks up to (not including) the first empty one. */
  function ReadsBeforeEof(chunks: seq<seq<Byte>>): (r: nat)
    ensures r <= |chunks|
    ensures forall k :: 0 <= k < r ==> chunks[k] != []
    ensures r < |chunks| ==> chunks[r] == []
  {
    if chunks == [] || chunks[0] == [] then 0 else 1 + ReadsBeforeEof(chunks[1..])
  }

  /** Triangles of the chunks `chunks[..n]`, in order. */
  function AllTriangles(decode: seq<Byte> -> real, chunks: seq<seq<Byte>>, n: nat): seq<Triangle>
    requires n <= |chunks|
  {
    if n == 0 then [] else AllTriangles(decode, chunks, n - 1) + ChunkTriangles(decode, chunks[n - 1])
  }

  /**
   * `read_tri_file`: `chunks` are the byte strings returned by successive
   * chunks of at most CHUNK_SIZE bytes; the loop stops at the first empty
   * read (end of file) and decodes the complete 36-byte groups of each read.
   */
  method ReadTriFile(decode: seq<Byte> -> real, chunks: seq<seq<Byte>>) returns (triangles: seq<Triangle>)
    requires forall k :: 0 <= k < |chunks| ==> |chunks[k]| <= CHUNK_SIZE
    ensures triangles == AllTriangles(decode, chunks, ReadsBeforeEof(chunks))
  {
    triangles := [];
    var k := 0;
    while k < |chunks|
      invariant k <= ReadsBeforeEof(chunks)
      invariant triangles == AllTriangles(decode, chunks, k)
      decreases |chunks| - k
    {
      var buffer := chunks[k];
      var n := |buffer|;
      if n == 0 {
        break;
      }
      var complete := n / TRIANGLE_BYTES;
      var i := 0;
      while i < complete
        invariant i <= complete
        invariant triangles == AllTriangles(decode, chunks, k) + ChunkTriangles(decode, buffer)[..i]
      {
        var offset := i * TRIANGLE_BYTES;
        var slice := buffer[offset .. offset + TRIANGLE_BYTES];
        assert slice == Group(buffer, i);
        assert ChunkTriangles(decode, buffer)[..i + 1]
               == ChunkTriangles(decode, buffer)[..i] + [DecodeTriangle(decode, slice)];
        triangles := triangles + [DecodeTriangle(decode, slice)];
        i := i + 1;
      }
      assert ChunkTriangles(decode, buffer)[..i] == ChunkTriangles(decode, buffer);
      k := k + 1;
    }
  }

  lemma {:induction false} AllTrianglesLength(decode: seq<Byte> -> real, chunks: seq<seq<Byte>>, n: nat)
    requires n <= |chunks|
    ensures |AllTriangles(decode, chunks, n)| == SumOfCounts(chunks, n)
  {
    if n > 0 {
      AllTrianglesLength(decode, chunks, n - 1);
    }
  }

  /** The number of complete triangles in each read, summed. */
  function SumOfCounts(chunks: seq<seq<Byte>>, n: nat): nat
    requires n <= |chunks|
  {
    if n == 0 then 0 else SumOfCounts(chunks, n - 1) + |chunks[n - 1]| / TRIANGLE_BYTES
  }

  /** A file delivered by one read yields one triangle per 36 bytes, the partial tail dropped. */
  lemma WholeFileCount(decode: seq<Byte> -> real, bytes: seq<Byte>)
    requires bytes != []
    ensures |AllTriangles(decode, [bytes, []], ReadsBeforeEof([bytes, []]))| == |bytes| / TRIANGLE_BYTES
  {
    assert ReadsBeforeEof([bytes, []]) == 1 by {
      assert [bytes, []][1..] == [[]];
    }
    AllTrianglesLength(decode, [bytes, []], 1);
  }

  /** An eight-triangle file (288 bytes) decodes to eight triangles. */
  lemma EightTriangles(decode: seq<Byte> -> real, bytes: seq<Byte>)
    requires |bytes| == 8 * TRIANGLE_BYTES
    ensures |AllTriangles(decode, [bytes, []], ReadsBeforeEof([bytes, []]))| == 8
  {
    WholeFileCount(decode, bytes);
  }

  /**
   * A triangle whose bytes straddle two chunks is lost: 72 bytes delivered
   * as chunks of 40 and 32 bytes decode to one triangle, not two.
   */
  lemma StraddlingTriangleLost(decode: seq<Byte> -> real, first: seq<Byte>, second: seq<Byte>)
    requires |first| == 40 && |second| == 32
    ensures |AllTriangles(decode, [first, second, []], ReadsBeforeEof([first, second, []]))| == 1
  {
    var chunks := [first, second, []];
    assert ReadsBeforeEof(chunks) == 2 by {
      assert chunks[0] != [];
      assert chunks[1..] == [second, []];
      assert chunks[1..][0] != [];
      assert chunks[1..][1..] == [[]];
      assert ReadsBeforeEof(chunks[1..][1..]) == 0;
      assert ReadsBeforeEof(chunks[1..]) == 1;
    }
    AllTrianglesLength(decode, chunks, 2);
    assert SumOfCounts(chunks, 2) == SumOfCounts(chunks, 1) + 32 / 36;
    assert SumOfCounts(chunks, 1) == 40 / 36;
  }

  // ---------------------------------------------------------------------
  // Axis-aligned bounding boxes and the slab test.

  /** A coordinate of a position: 0 = x, 1 = y, 2 = z. */
  function Coord(p: Position, axis: nat): real
    requires axis < 3
  {
    if axis == 0 then p.x else if axis == 1 then p.y else p.z
  }

  datatype Aabb = Aabb(minPoint: Position, maxPoint: Position)

  ghost predicate InBox(b: Aabb, p: Position) {
    && b.minPoint.x <= p.x <= b.maxPoint.x
    && b.minPoint.y <= p.y <= b.maxPoint.y
    && b.minPoint.z <= p.z <= b.maxPoint.z
  }

  /** Box `inner` lies inside box `outer`. */
  ghost predicate BoxWithin(inner: Aabb, outer: Aabb) {
    && outer.minPoint.x <= inner.minPoint.x && inner.maxPoint.x <= outer.maxPoint.x
    && outer.minPoint.y <= inner.minPoint.y && inner.maxPoint.y <= outer.maxPoint.y
    && outer.minPoint.z <= inner.minPoint.z && inner.maxPoint.z <= outer.maxPoint.z
  }

  function Min3(a: real, b: real, c: real): real { Min(Min(a, b), c) }

  function Max3(a: real, b: real, c: real): real { Max(Max(a, b), c) }

  /** `Aabb::from_triangle`: the smallest box holding the three vertices. */
  function FromTriangle(t: Triangle): (b: Aabb)
    ensures InBox(b, t.p1) && InBox(b, t.p2) && InBox(b, t.p3)
    ensures forall c: Aabb :: InBox(c, t.p1) && InBox(c, t.p2) && InBox(c, t.p3) ==> BoxWithin(b, c)
  {
    Aabb(Position(Min3(t.p1.x, t.p2.x, t.p3.x), Min3(t.p1.y, t.p2.y, t.p3.y), Min3(t.p1.z, t.p2.z, t.p3.z)),
         Position(Max3(t.p1.x, t.p2.x, t.p3.x), Max3(t.p1.y, t.p2.y, t.p3.y), Max3(t.p1.z, t.p2.z, t.p3.z)))
  }

  /** The centroid of a triangle lies in its box. */
  lemma CentroidInBox(t: Triangle)
    ensures InBox(FromTriangle(t), Centroid(t))
  {
  }

  /** The componentwise union of two boxes, as an internal BVH node builds it. */
  function Union(a: Aabb, b: Aabb): (u: Aabb)
    ensures BoxWithin(a, u) && BoxWithin(b, u)
    ensures forall c: Aabb :: BoxWithin(a, c) && BoxWithin(b, c) ==> BoxWithin(u, c)
  {
    Aabb(Position(Min(a.minPoint.x, b.minPoint.x), Min(a.minPoint.y, b.minPoint.y), Min(a.minPoint.z, b.minPoint.z)),
         Position(Max(a.maxPoint.x, b.maxPoint.x), Max(a.maxPoint.y, b.maxPoint.y), Max(a.maxPoint.z, b.maxPoint.z)))
  }

  /** A real extended with the two infinities, for the slab interval ends. */
  datatype Ext = NegInf | Fin(v: real) | PosInf

  predicate ExtLe(a: Ext, b: Ext) {
    a.NegInf? || b.PosInf? || (a.Fin? && b.Fin? && a.v <= b.v)
  }

  function ExtMin(a: Ext, b: Ext): (r: Ext)
    ensures ExtLe(r, a) && ExtLe(r, b) && (r == a || r == b)
  {
    if ExtLe(a, b) then a else b
  }

  function ExtMax(a: Ext, b: Ext): (r: Ext)
    ensures ExtLe(a, r) && ExtLe(b, r) && (r == a || r == b)
  {
    if ExtLe(a, b) then b else a
  }

  const EPSILON: real := 0.000001

  /** The ray parameter interval in which the ray lies between `minVal` and `maxVal` on one axis. */
  function CheckAxis(origin: real, direction: real, minVal: real, maxVal: real, epsilon: real): (r: (Ext, Ext))
    requires epsilon > 0.0
    ensures Abs(direction) < epsilon && (origin < minVal || origin > maxVal) ==> r == (PosInf, NegInf)
    ensures Abs(direction) < epsilon && minVal <= origin <= maxVal ==> r == (NegInf, PosInf)
    ensures Abs(direction) >= epsilon ==> r.0.Fin? && r.1.Fin? && r.0.v <= r.1.v
  {
    if Abs(direction) < epsilon then
      if origin < minVal || origin > maxVal then (PosInf, NegInf) else (NegInf, PosInf)
    else
      var t1 := (minVal - origin) / direction;
      var t2 := (maxVal - origin) / direction;
      (Fin(Min(t1, t2)), Fin(Max(t1, t2)))
  }

  ghost predicate InSlab(r: (Ext, Ext), t: real) {
    ExtLe(r.0, Fin(t)) && ExtLe(Fin(t), r.1)
  }

  lemma ScaledBetween(origin: real, direction: real, minVal: real, maxVal: real, t: real)
    requires direction > 0.0
    ensures (minVal - origin) / direction <= t <==> minVal <= origin + t * direction
    ensures t <= (maxVal - origin) / direction <==> origin + t * direction <= maxVal
  {
    assert ((minVal - origin) / direction) * direction == minVal - origin;
    assert ((maxVal - origin) / direction) * direction == maxVal - origin;
  }

  lemma ScaledBetweenNeg(origin: real, direction: real, minVal: real, maxVal: real, t: real)
    requires direction < 0.0
    ensures (maxVal - origin) / direction <= t <==> origin + t * direction <= maxVal
    ensures t <= (minVal - origin) / direction <==> minVal <= origin + t * direction
  {
    assert ((minVal - origin) / direction) * direction == minVal - origin;
    assert ((maxVal - origin) / direction) * direction == maxVal - origin;
  }

  /**
   * The slab test on one axis is exact: for a direction that is zero or
   * at least epsilon in size and a non-empty [minVal, maxVal], t lies in
   * the returned interval iff the ray point at t lies between the bounds.
   */
  lemma CheckAxisExact(origin: real, direction: real, minVal: real, maxVal: real, epsilon: real, t: real)
    requires minVal <= maxVal && epsilon > 0.0
    requires direction == 0.0 || Abs(direction) >= epsilon
    ensures InSlab(CheckAxis(origin, direction, minVal, maxVal, epsilon), t)
            <==> minVal <= origin + t * direction <= maxVal
  {
    if direction > 0.0 && Abs(direction) >= epsilon {
      ScaledBetween(origin, direction, minVal, maxVal, t);
    } else if direction < 0.0 && Abs(direction) >= epsilon {
      ScaledBetweenNeg(origin, direction, minVal, maxVal, t);
    }
  }

  /** The ray parameter interval of a box's slab along an axis. */
  function Slab(b: Aabb, o: Position, d: Position, axis: nat): (Ext, Ext)
    requires axis < 3
  {
    CheckAxis(Coord(o, axis), Coord(d, axis), Coord(b.minPoint, axis), Coord(b.maxPoint, axis), EPSILON)
  }

  /**
   * The overlap test of `Aabb::intersects_ray`: the latest entry into a
   * slab is no later than the earliest exit, and the exit is not behind
   * the origin.
   */
  function Overlap(sx: (Ext, Ext), sy: (Ext, Ext), sz: (Ext, Ext)): bool {
    var tEnter := ExtMax(ExtMax(sx.0, sy.0), sz.0);
    var tExit := ExtMin(ExtMin(sx.1, sy.1), sz.1);
    ExtLe(tEnter, tExit) && ExtLe(Fin(0.0), tExit)
  }

  /** An interval whose lower end is +infinity is the empty interval (+infinity, -infinity). */
  ghost predicate Shaped(s: (Ext, Ext)) {
    s.0.PosInf? ==> s.1.NegInf?
  }

  /** Three slab intervals overlap at or after 0 exactly when some t >= 0 lies in all three. */
  lemma OverlapIff(sx: (Ext, Ext), sy: (Ext, Ext), sz: (Ext, Ext))
    requires Shaped(sx) && Shaped(sy) && Shaped(sz)
    ensures Overlap(sx, sy, sz) <==> exists t: real :: 0.0 <= t && InSlab(sx, t) && InSlab(sy, t) && InSlab(sz, t)
  {
    var tEnter := ExtMax(ExtMax(sx.0, sy.0), sz.0);
    if Overlap(sx, sy, sz) {
      var t := if tEnter.Fin? && tEnter.v > 0.0 then tEnter.v else 0.0;
      assert InSlab(sx, t) && InSlab(sy, t) && InSlab(sz, t);
    }
  }

  /** `Aabb::intersects_ray`: the slab test on the three axes. */
  function IntersectsRay(b: Aabb, o: Position, d: Position): bool {
    Overlap(Slab(b, o, d, 0), Slab(b, o, d, 1), Slab(b, o, d, 2))
  }

  ghost predicate InAllSlabs(b: Aabb, o: Position, d: Position, t: real) {
    InSlab(Slab(b, o, d, 0), t) && InSlab(Slab(b, o, d, 1), t) && InSlab(Slab(b, o, d, 2), t)
  }

  /** The slab intervals meet at some t >= 0 exactly when IntersectsRay holds. */
  lemma IntersectsRayIff(b: Aabb, o: Position, d: Position)
    ensures IntersectsRay(b, o, d) <==> exists t: real :: 0.0 <= t && InAllSlabs(b, o, d, t)
  {
    SlabShaped(b, o, d, 0);
    SlabShaped(b, o, d, 1);
    SlabShaped(b, o, d, 2);
    var sx, sy, sz := Slab(b, o, d, 0), Slab(b, o, d, 1), Slab(b, o, d, 2);
    OverlapIff(sx, sy, sz);
    if IntersectsRay(b, o, d) {
      var t: real :| 0.0 <= t && InSlab(sx, t) && InSlab(sy, t) && InSlab(sz, t);
      assert InAllSlabs(b, o, d, t);
    }
    if exists t: real :: 0.0 <= t && InAllSlabs(b, o, d, t) {
      var t: real :| 0.0 <= t && InAllSlabs(b, o, d, t);
      assert InSlab(sx, t) && InSlab(sy, t) && InSlab(sz, t);
    }
  }

  lemma SlabShaped(b: Aabb, o: Position, d: Position, axis: nat)
    requires axis < 3
    ensures Shaped(Slab(b, o, d, axis))
  {
  }

  function PointAt(o: Position, d: Position, t: real): Position {
    Add(o, Scale(d, t))
  }

  /** A direction none of whose components is nonzero but below epsilon. */
  ghost predicate ClearDirection(d: Position) {
    forall axis :: 0 <= axis < 3 ==> Coord(d, axis) == 0.0 || Abs(Coord(d, axis)) >= EPSILON
  }

  ghost predicate NonEmptyBox(b: Aabb) {
    forall axis :: 0 <= axis < 3 ==> Coord(b.minPoint, axis) <= Coord(b.maxPoint, axis)
  }

  /**
   * For a non-empty box and a direction with no component that is
   * nonzero but below epsilon, IntersectsRay holds iff some point of the
   * ray at t >= 0 lies in the box.
   */
  lemma IntersectsRayExact(b: Aabb, o: Position, d: Position)
    requires NonEmptyBox(b) && ClearDirection(d)
    ensures IntersectsRay(b, o, d) <==> exists t: real :: 0.0 <= t && InBox(b, PointAt(o, d, t))
  {
    IntersectsRayIff(b, o, d);
    if IntersectsRay(b, o, d) {
      var t: real :| 0.0 <= t && InAllSlabs(b, o, d, t);
      InSlabsIffInBox(b, o, d, t);
    }
    if exists t: real :: 0.0 <= t && InBox(b, PointAt(o, d, t)) {
      var t: real :| 0.0 <= t && InBox(b, PointAt(o, d, t));
      InSlabsIffInBox(b, o, d, t);
    }
  }

  /** On the x axis, t is in the slab interval iff the ray point at t is between the box bounds. */
  lemma SlabExactX(b: Aabb, o: Position, d: Position, t: real)
    requires b.minPoint.x <= b.maxPoint.x && (d.x == 0.0 || Abs(d.x) >= EPSILON)
    ensures InSlab(Slab(b, o, d, 0), t) <==> b.minPoint.x <= PointAt(o, d, t).x <= b.maxPoint.x
  {
    assert Slab(b, o, d, 0) == CheckAxis(o.x, d.x, b.minPoint.x, b.maxPoint.x, EPSILON);
    CheckAxisExact(o.x, d.x, b.minPoint.x, b.maxPoint.x, EPSILON, t);
  }

  lemma SlabExactY(b: Aabb, o: Position, d: Position, t: real)
    requires b.minPoint.y <= b.maxPoint.y && (d.y == 0.0 || Abs(d.y) >= EPSILON)
    ensures InSlab(Slab(b, o, d, 1), t) <==> b.minPoint.y <= PointAt(o, d, t).y <= b.maxPoint.y
  {
    assert Slab(b, o, d, 1) == CheckAxis(o.y, d.y, b.minPoint.y, b.maxPoint.y, EPSILON);
    CheckAxisExact(o.y, d.y, b.minPoint.y, b.maxPoint.y, EPSILON, t);
  }

  lemma SlabExactZ(b: Aabb, o: Position, d: Position, t: real)
    requires b.minPoint.z <= b.maxPoint.z && (d.z == 0.0 || Abs(d.z) >= EPSILON)
    ensures InSlab(Slab(b, o, d, 2), t) <==> b.minPoint.z <= PointAt(o, d, t).z <= b.maxPoint.z
  {
    assert Slab(b, o, d, 2) == CheckAxis(o.z, d.z, b.minPoint.z, b.maxPoint.z, EPSILON);
    CheckAxisExact(o.z, d.z, b.minPoint.z, b.maxPoint.z, EPSILON, t);
  }

  /** t is in all three slab intervals iff the ray point at t is in the box. */
  lemma InSlabsIffInBox(b: Aabb, o: Position, d: Position, t: real)
    requires NonEmptyBox(b) && ClearDirection(d)
    ensures InAllSlabs(b, o, d, t) <==> InBox(b, PointAt(o, d, t))
  {
    assert Coord(b.minPoint, 0) <= Coord(b.maxPoint, 0) && (Coord(d, 0) == 0.0 || Abs(Coord(d, 0)) >= EPSILON);
    assert Coord(b.minPoint, 1) <= Coord(b.maxPoint, 1) && (Coord(d, 1) == 0.0 || Abs(Coord(d, 1)) >= EPSILON);
    assert Coord(b.minPoint, 2) <= Coord(b.maxPoint, 2) && (Coord(d, 2) == 0.0 || Abs(Coord(d, 2)) >= EPSILON);
    SlabExactX(b, o, d, t);
    SlabExactY(b, o, d, t);
    SlabExactZ(b, o, d, t);
  }

  /** A ray that meets a box meets every box around it. */
  lemma IntersectsRayMonotone(inner: Aabb, outer: Aabb, o: Position, d: Position)
    requires BoxWithin(inner, outer) && NonEmptyBox(inner)
    requires IntersectsRay(inner, o, d)
    ensures IntersectsRay(outer, o, d)
  {
    IntersectsRayIff(inner, o, d);
    var t: real :| 0.0 <= t && InAllSlabs(inner, o, d, t);
    SlabWithin(o.x, d.x, inner.minPoint.x, inner.maxPoint.x, outer.minPoint.x, outer.maxPoint.x, t);
    SlabWithin(o.y, d.y, inner.minPoint.y, inner.maxPoint.y, outer.minPoint.y, outer.maxPoint.y, t);
    SlabWithin(o.z, d.z, inner.minPoint.z, inner.maxPoint.z, outer.minPoint.z, outer.maxPoint.z, t);
    assert InAllSlabs(outer, o, d, t);
    IntersectsRayIff(outer, o, d);
  }

  /** Widening the bounds of an axis widens its slab interval. */
  lemma SlabWithin(o: real, d: real, lo: real, hi: real, lo': real, hi': real, t: real)
    requires lo' <= lo <= hi <= hi'
    requires InSlab(CheckAxis(o, d, lo, hi, EPSILON), t)
    ensures InSlab(CheckAxis(o, d, lo', hi', EPSILON), t)
  {
    if Abs(d) >= EPSILON {
      if d > 0.0 {
        ScaledBetween(o, d, lo, hi, t);
        ScaledBetween(o, d, lo', hi', t);
      } else {
        ScaledBetweenNeg(o, d, lo, hi, t);
        ScaledBetweenNeg(o, d, lo', hi', t);
      }
    }
  }

  // ---------------------------------------------------------------------
  // The Moller-Trumbore ray/triangle test.

  /** The determinant of the test: the first edge dotted with the direction crossed with the second edge. */
  function Determinant(d: Position, tri: Triangle): real {
    Dot(Sub(tri.p2, tri.p1), Cross(d, Sub(tri.p3, tri.p1)))
  }

  /**
   * `ray_triangle_intersection`: None when the ray is (nearly) parallel to
   * the triangle, when either barycentric coordinate falls outside the
   * triangle, or when the hit is not more than epsilon ahead of the
   * origin; otherwise Some(t) for the ray parameter t of the hit.
   */
  function RayTriangleIntersection(o: Position, d: Position, tri: Triangle): (r: Option<real>)
    ensures r.Some? ==> Abs(Determinant(d, tri)) >= EPSILON && r.value > EPSILON
  {
    if Abs(Determinant(d, tri)) < EPSILON then None
    else
      var u := BaryU(o, d, tri);
      if !(0.0 <= u <= 1.0) then None
      else
        var v := BaryV(o, d, tri);
        if v < 0.0 || u + v > 1.0 then None
        else
          var t := HitParameter(o, d, tri);
          if t > EPSILON then Some(t) else None
  }

  /** The first barycentric coordinate of the hit, along the first edge. */
  function BaryU(o: Position, d: Position, tri: Triangle): real
    requires Determinant(d, tri) != 0.0
  {
    (1.0 / Determinant(d, tri)) * Dot(Sub(o, tri.p1), Cross(d, Sub(tri.p3, tri.p1)))
  }

  /** The second barycentric coordinate of the hit, along the second edge. */
  function BaryV(o: Position, d: Position, tri: Triangle): real
    requires Determinant(d, tri) != 0.0
  {
    (1.0 / Determinant(d, tri)) * Dot(d, Cross(Sub(o, tri.p1), Sub(tri.p2, tri.p1)))
  }

  /** The ray parameter of the hit with the triangle's plane. */
  function HitParameter(o: Position, d: Position, tri: Triangle): real
    requires Determinant(d, tri) != 0.0
  {
    (1.0 / Determinant(d, tri)) * Dot(Sub(tri.p3, tri.p1), Cross(Sub(o, tri.p1), Sub(tri.p2, tri.p1)))
  }

  /** The determinant is the triple product of the direction with the two edges. */
  lemma DeterminantIsTripleProduct(d: Position, e1: Position, e2: Position)
    ensures Dot(e1, Cross(d, e2)) == -Dot(d, Cross(e1, e2))
  {
  }

  /** A ray parallel to the triangle's plane (orthogonal to its normal) never hits it. */
  lemma ParallelRayMisses(o: Position, d: Position, tri: Triangle)
    requires Dot(d, Cross(Sub(tri.p2, tri.p1), Sub(tri.p3, tri.p1))) == 0.0
    ensures RayTriangleIntersection(o, d, tri) == None
  {
    DeterminantIsTripleProduct(d, Sub(tri.p2, tri.p1), Sub(tri.p3, tri.p1));
  }

  /** The test in terms of its determinant, barycentric coordinates and ray parameter. */
  lemma RayTriangleSteps(o: Position, d: Position, tri: Triangle, det: real, u: real, v: real, t: real)
    requires Determinant(d, tri) == det
    requires det != 0.0 ==> BaryU(o, d, tri) == u && BaryV(o, d, tri) == v && HitParameter(o, d, tri) == t
    ensures Abs(det) < EPSILON ==> RayTriangleIntersection(o, d, tri) == None
    ensures Abs(det) >= EPSILON ==>
              RayTriangleIntersection(o, d, tri)
              == if 0.0 <= u <= 1.0 && 0.0 <= v && u + v <= 1.0 && t > EPSILON then Some(t) else None
  {
  }

  /** The point of the triangle's plane at barycentric coordinates (u, v) along its two edges. */
  function Barycentric(tri: Triangle, u: real, v: real): Position {
    Add(tri.p1, Add(Scale(Sub(tri.p2, tri.p1), u), Scale(Sub(tri.p3, tri.p1), v)))
  }

  /** Barycentric coordinates of a point of the closed triangle. */
  predicate InsideCoords(u: real, v: real) {
    0.0 <= u && 0.0 <= v && u + v <= 1.0
  }

  /** A point of the closed triangle. */
  ghost predicate OnTriangle(tri: Triangle, p: Position) {
    exists u, v :: InsideCoords(u, v) && p == Barycentric(tri, u, v)
  }

  /**
   * A hit means what it says: for Some(t), the ray point at t is the point
   * of the triangle at the computed barycentric coordinates, so it lies on
   * the triangle and in the triangle's box.
   */
  lemma RayTriangleHit(o: Position, d: Position, tri: Triangle)
    ensures var r := RayTriangleIntersection(o, d, tri);
            r.Some? ==>
              && Determinant(d, tri) != 0.0
              && r.value == HitParameter(o, d, tri)
              && InsideCoords(BaryU(o, d, tri), BaryV(o, d, tri))
              && PointAt(o, d, r.value) == Barycentric(tri, BaryU(o, d, tri), BaryV(o, d, tri))
              && OnTriangle(tri, PointAt(o, d, r.value))
              && InBox(FromTriangle(tri), PointAt(o, d, r.value))
  {
    var r := RayTriangleIntersection(o, d, tri);
    if r.Some? {
      var u, v, t := BaryU(o, d, tri), BaryV(o, d, tri), HitParameter(o, d, tri);
      SolvedByCramer(o, d, tri);
      ConvexInBox(tri, u, v);
    }
  }

  /**
   * Conversely, when the ray is not (nearly) parallel, a point of the
   * triangle that the ray reaches at some t > epsilon is reported, at
   * that t.
   */
  lemma RayTriangleFindsHit(o: Position, d: Position, tri: Triangle, u: real, v: real, t: real)
    requires Abs(Determinant(d, tri)) >= EPSILON && InsideCoords(u, v) && t > EPSILON
    requires PointAt(o, d, t) == Barycentric(tri, u, v)
    ensures RayTriangleIntersection(o, d, tri) == Some(t)
  {
    UniqueCoords(o, d, tri, u, v, t);
  }

  /** On a point of the triangle, the ray test succeeds exactly when it reports that point. */
  lemma RayTriangleIff(o: Position, d: Position, tri: Triangle, t: real)
    requires Abs(Determinant(d, tri)) >= EPSILON && t > EPSILON
    ensures RayTriangleIntersection(o, d, tri) == Some(t) <==> OnTriangle(tri, PointAt(o, d, t))
  {
    RayTriangleHit(o, d, tri);
    if OnTriangle(tri, PointAt(o, d, t)) {
      var u, v :| InsideCoords(u, v) && PointAt(o, d, t) == Barycentric(tri, u, v);
      RayTriangleFindsHit(o, d, tri, u, v, t);
    }
  }

  /** Cramer's rule on the x coordinate: det s.x = (s.h) e1.x + (d.q) e2.x - (e2.q) d.x, with h = d x e2 and q = s x e1. */
  lemma CramerX(d: Position, e1: Position, e2: Position, s: Position)
    ensures s.x * Dot(e1, Cross(d, e2))
            == e1.x * Dot(s, Cross(d, e2)) + e2.x * Dot(d, Cross(s, e1)) - d.x * Dot(e2, Cross(s, e1))
  {
    var h, q := Cross(d, e2), Cross(s, e1);
    Distribute3(s.x, e1.x * h.x, e1.y * h.y, e1.z * h.z);
    Distribute3(e1.x, s.x * h.x, s.y * h.y, s.z * h.z);
    Distribute3(e2.x, d.x * q.x, d.y * q.y, d.z * q.z);
    Distribute3(d.x, e2.x * q.x, e2.y * q.y, e2.z * q.z);
    Distribute2(h.y, s.x * e1.y, s.y * e1.x);
    Distribute2(h.z, s.z * e1.x, s.x * e1.z);
    var common := h.y * q.z - h.z * q.y;
    Distribute2(q.y, d.x * e2.y, d.y * e2.x);
    Distribute2(q.z, d.z * e2.x, d.x * e2.z);
    assert s.x * Dot(e1, h) - e1.x * Dot(s, h) == common;
    assert e2.x * Dot(d, q) - d.x * Dot(e2, q) == common;
  }

  /** Cramer's rule on the y coordinate: det s.y = (s.h) e1.y + (d.q) e2.y - (e2.q) d.y, with h = d x e2 and q = s x e1. */
  lemma CramerY(d: Position, e1: Position, e2: Position, s: Position)
    ensures s.y * Dot(e1, Cross(d, e2))
            == e1.y * Dot(s, Cross(d, e2)) + e2.y * Dot(d, Cross(s, e1)) - d.y * Dot(e2, Cross(s, e1))
  {
    var h, q := Cross(d, e2), Cross(s, e1);
    Distribute3(s.y, e1.x * h.x, e1.y * h.y, e1.z * h.z);
    Distribute3(e1.y, s.x * h.x, s.y * h.y, s.z * h.z);
    Distribute3(e2.y, d.x * q.x, d.y * q.y, d.z * q.z);
    Distribute3(d.y, e2.x * q.x, e2.y * q.y, e2.z * q.z);
    Distribute2(h.z, s.y * e1.z, s.z * e1.y);
    Distribute2(h.x, s.x * e1.y, s.y * e1.x);
    var common := h.z * q.x - h.x * q.z;
    Distribute2(q.z, d.y * e2.z, d.z * e2.y);
    Distribute2(q.x, d.x * e2.y, d.y * e2.x);
    assert s.y * Dot(e1, h) - e1.y * Dot(s, h) == common;
    assert e2.y * Dot(d, q) - d.y * Dot(e2, q) == common;
  }

  /** Cramer's rule on the z coordinate: det s.z = (s.h) e1.z + (d.q) e2.z - (e2.q) d.z, with h = d x e2 and q = s x e1. */
  lemma CramerZ(d: Position, e1: Position, e2: Position, s: Position)
    ensures s.z * Dot(e1, Cross(d, e2))
            == e1.z * Dot(s, Cross(d, e2)) + e2.z * Dot(d, Cross(s, e1)) - d.z * Dot(e2, Cross(s, e1))
  {
    var h, q := Cross(d, e2), Cross(s, e1);
    Distribute3(s.z, e1.x * h.x, e1.y * h.y, e1.z * h.z);
    Distribute3(e1.z, s.x * h.x, s.y * h.y, s.z * h.z);
    Distribute3(e2.z, d.x * q.x, d.y * q.y, d.z * q.z);
    Distribute3(d.z, e2.x * q.x, e2.y * q.y, e2.z * q.z);
    Distribute2(h.x, s.z * e1.x, s.x * e1.z);
    Distribute2(h.y, s.y * e1.z, s.z * e1.y);
    var common := h.x * q.y - h.y * q.x;
    Distribute2(q.x, d.z * e2.x, d.x * e2.z);
    Distribute2(q.y, d.y * e2.z, d.z * e2.y);
    assert s.z * Dot(e1, h) - e1.z * Dot(s, h) == common;
    assert e2.z * Dot(d, q) - d.z * Dot(e2, q) == common;
  }

  lemma Distribute3(k: real, a: real, b: real, c: real)
    ensures k * (a + b + c) == k * a + k * b + k * c
  {
  }

  lemma Distribute2(k: real, a: real, b: real)
    ensures k * (a - b) == k * a - k * b
  {
  }

  /** A nonzero factor cancels. */
  lemma CancelFactor(a: real, x: real, y: real)
    requires a != 0.0 && x * a == y * a
    ensures x == y
  {
    var f := 1.0 / a;
    assert a * f == 1.0;
    calc {
      x;
      == x * (a * f);
      == (x * a) * f;
      == (y * a) * f;
      == y * (a * f);
      == y;
    }
  }

  /** One coordinate of Cramer's rule divided by the nonzero determinant. */
  lemma CancelCoord(a: real, sc: real, e1c: real, e2c: real, dc: real, u: real, v: real, t: real, su: real, sv: real, st: real)
    requires a != 0.0 && a * u == su && a * v == sv && a * t == st
    requires sc * a == e1c * su + e2c * sv - dc * st
    ensures sc == e1c * u + e2c * v - dc * t
  {
    var c := e1c * u + e2c * v - dc * t;
    Distribute3(a, e1c * u, e2c * v, -(dc * t));
    assert sc * a == c * a;
    CancelFactor(a, sc, c);
  }

  lemma PointAtCoords(o: Position, d: Position, t: real)
    ensures PointAt(o, d, t) == Position(o.x + d.x * t, o.y + d.y * t, o.z + d.z * t)
  {
    var s := Scale(d, t);
    assert s.x == d.x * t && s.y == d.y * t && s.z == d.z * t;
  }

  lemma BarycentricCoords(tri: Triangle, u: real, v: real)
    ensures var e1, e2 := Sub(tri.p2, tri.p1), Sub(tri.p3, tri.p1);
            Barycentric(tri, u, v)
            == Position(tri.p1.x + (e1.x * u + e2.x * v), tri.p1.y + (e1.y * u + e2.y * v), tri.p1.z + (e1.z * u + e2.z * v))
  {
  }

  /** With a nonzero determinant, the computed (u, v, t) solve o + t d = p1 + u e1 + v e2. */
  lemma SolvedByCramer(o: Position, d: Position, tri: Triangle)
    requires Determinant(d, tri) != 0.0
    ensures PointAt(o, d, HitParameter(o, d, tri)) == Barycentric(tri, BaryU(o, d, tri), BaryV(o, d, tri))
  {
    PointAtCoords(o, d, HitParameter(o, d, tri));
    BarycentricCoords(tri, BaryU(o, d, tri), BaryV(o, d, tri));
    SolvedX(o, d, tri);
    SolvedY(o, d, tri);
    SolvedZ(o, d, tri);
  }

  /** The determinant times each computed parameter is its Cramer numerator. */
  lemma CramerParameters(o: Position, d: Position, tri: Triangle)
    requires Determinant(d, tri) != 0.0
    ensures var e1, e2, s := Sub(tri.p2, tri.p1), Sub(tri.p3, tri.p1), Sub(o, tri.p1);
            && Determinant(d, tri) * BaryU(o, d, tri) == Dot(s, Cross(d, e2))
            && Determinant(d, tri) * BaryV(o, d, tri) == Dot(d, Cross(s, e1))
            && Determinant(d, tri) * HitParameter(o, d, tri) == Dot(e2, Cross(s, e1))
  {
    var a := Determinant(d, tri);
    assert a * (1.0 / a) == 1.0;
  }

  /** Each coordinate of that solution, from Cramer's rule. */
  lemma SolvedX(o: Position, d: Position, tri: Triangle)
    requires Determinant(d, tri) != 0.0
    ensures o.x + d.x * HitParameter(o, d, tri)
            == tri.p1.x + (Sub(tri.p2, tri.p1).x * BaryU(o, d, tri) + Sub(tri.p3, tri.p1).x * BaryV(o, d, tri))
  {
    var e1, e2, s := Sub(tri.p2, tri.p1), Sub(tri.p3, tri.p1), Sub(o, tri.p1);
    var a, su, sv, st := Determinant(d, tri), Dot(s, Cross(d, e2)), Dot(d, Cross(s, e1)), Dot(e2, Cross(s, e1));
    var u, v, t := BaryU(o, d, tri), BaryV(o, d, tri), HitParameter(o, d, tri);
    CramerParameters(o, d, tri);
    CramerX(d, e1, e2, s);
    CancelCoord(a, s.x, e1.x, e2.x, d.x, u, v, t, su, sv, st);
  }

  lemma SolvedY(o: Position, d: Position, tri: Triangle)
    requires Determinant(d, tri) != 0.0
    ensures o.y + d.y * HitParameter(o, d, tri)
            == tri.p1.y + (Sub(tri.p2, tri.p1).y * BaryU(o, d, tri) + Sub(tri.p3, tri.p1).y * BaryV(o, d, tri))
  {
    var e1, e2, s := Sub(tri.p2, tri.p1), Sub(tri.p3, tri.p1), Sub(o, tri.p1);
    var a, su, sv, st := Determinant(d, tri), Dot(s, Cross(d, e2)), Dot(d, Cross(s, e1)), Dot(e2, Cross(s, e1));
    var u, v, t := BaryU(o, d, tri), BaryV(o, d, tri), HitParameter(o, d, tri);
    CramerParameters(o, d, tri);
    CramerY(d, e1, e2, s);
    CancelCoord(a, s.y, e1.y, e2.y, d.y, u, v, t, su, sv, st);
  }

  lemma SolvedZ(o: Position, d: Position, tri: Triangle)
    requires Determinant(d, tri) != 0.0
    ensures o.z + d.z * HitParameter(o, d, tri)
            == tri.p1.z + (Sub(tri.p2, tri.p1).z * BaryU(o, d, tri) + Sub(tri.p3, tri.p1).z * BaryV(o, d, tri))
  {
    var e1, e2, s := Sub(tri.p2, tri.p1), Sub(tri.p3, tri.p1), Sub(o, tri.p1);
    var a, su, sv, st := Determinant(d, tri), Dot(s, Cross(d, e2)), Dot(d, Cross(s, e1)), Dot(e2, Cross(s, e1));
    var u, v, t := BaryU(o, d, tri), BaryV(o, d, tri), HitParameter(o, d, tri);
    CramerParameters(o, d, tri);
    CramerZ(d, e1, e2, s);
    CancelCoord(a, s.z, e1.z, e2.z, d.z, u, v, t, su, sv, st);
  }

  /** A point of the plane at (u, v): the test's dot products recover u, v and t. */
  lemma UniqueCoords(o: Position, d: Position, tri: Triangle, u: real, v: real, t: real)
    requires Determinant(d, tri) != 0.0
    requires PointAt(o, d, t) == Barycentric(tri, u, v)
    ensures BaryU(o, d, tri) == u && BaryV(o, d, tri) == v && HitParameter(o, d, tri) == t
  {
    var e1, e2 := Sub(tri.p2, tri.p1), Sub(tri.p3, tri.p1);
    var a := Determinant(d, tri);
    assert Sub(o, tri.p1) == Combination(e1, e2, d, u, v, t);
    assert Dot(Sub(o, tri.p1), Cross(d, e2)) == a * u by { OffsetDotU(d, e1, e2, u, v, t); }
    assert Dot(d, Cross(Sub(o, tri.p1), e1)) == a * v by { OffsetDotV(d, e1, e2, u, v, t); }
    assert Dot(e2, Cross(Sub(o, tri.p1), e1)) == a * t by { OffsetDotT(d, e1, e2, u, v, t); }
    var f := 1.0 / a;
    assert f * a == 1.0;
    assert f * (a * u) == u * (f * a);
    assert f * (a * v) == v * (f * a);
    assert f * (a * t) == t * (f * a);
  }

  /** The combination p u + q v - r t. */
  function Combination(p: Position, q: Position, r: Position, u: real, v: real, t: real): Position {
    Sub(Add(Scale(p, u), Scale(q, v)), Scale(r, t))
  }

  lemma CombinationCoords(p: Position, q: Position, r: Position, u: real, v: real, t: real)
    ensures Combination(p, q, r, u, v, t)
            == Position(p.x * u + q.x * v - r.x * t, p.y * u + q.y * v - r.y * t, p.z * u + q.z * v - r.z * t)
  {
  }

  /** A dot product with a combination is the combination of the dot products. */
  lemma DotCombination(a: Position, p: Position, q: Position, r: Position, u: real, v: real, t: real)
    ensures Dot(a, Combination(p, q, r, u, v, t)) == Dot(a, p) * u + Dot(a, q) * v - Dot(a, r) * t
  {
    DotLinearRight(a, Add(Scale(p, u), Scale(q, v)), Scale(r, t), 0.0);
    DotLinearRight(a, Scale(p, u), Scale(q, v), 0.0);
    DotLinearRight(a, p, p, u);
    DotLinearRight(a, q, q, v);
    DotLinearRight(a, r, r, t);
  }

  /** A cross product of a combination with c is the combination of the cross products. */
  lemma CrossCombination(p: Position, q: Position, r: Position, c: Position, u: real, v: real, t: real)
    ensures Cross(Combination(p, q, r, u, v, t), c) == Combination(Cross(p, c), Cross(q, c), Cross(r, c), u, v, t)
  {
    CrossLinearLeft(Add(Scale(p, u), Scale(q, v)), Scale(r, t), c, 0.0);
    CrossLinearLeft(Scale(p, u), Scale(q, v), c, 0.0);
    CrossLinearLeft(p, p, c, u);
    CrossLinearLeft(q, q, c, v);
    CrossLinearLeft(r, r, c, t);
  }

  /** With s = u e1 + v e2 - t d: s . (d x e2) is the determinant times u. */
  lemma OffsetDotU(d: Position, e1: Position, e2: Position, u: real, v: real, t: real)
    ensures Dot(Combination(e1, e2, d, u, v, t), Cross(d, e2)) == Dot(e1, Cross(d, e2)) * u
  {
    var h := Cross(d, e2);
    DotSymmetric(Combination(e1, e2, d, u, v, t), h);
    DotCombination(h, e1, e2, d, u, v, t);
    DotSymmetric(h, e1);
    DotSymmetric(h, e2);
    DotSymmetric(h, d);
    CrossOrthogonal(d, e2);
  }

  /** With s = u e1 + v e2 - t d: d . (s x e1) is the determinant times v. */
  lemma OffsetDotV(d: Position, e1: Position, e2: Position, u: real, v: real, t: real)
    ensures Dot(d, Cross(Combination(e1, e2, d, u, v, t), e1)) == Dot(e1, Cross(d, e2)) * v
  {
    CrossCombination(e1, e2, d, e1, u, v, t);
    DotCombination(d, Cross(e1, e1), Cross(e2, e1), Cross(d, e1), u, v, t);
    CrossSelf(e1);
    CrossOrthogonal(d, e1);
    TripleProduct(e1, d, e2);
  }

  /** With s = u e1 + v e2 - t d: e2 . (s x e1) is the determinant times t. */
  lemma OffsetDotT(d: Position, e1: Position, e2: Position, u: real, v: real, t: real)
    ensures Dot(e2, Cross(Combination(e1, e2, d, u, v, t), e1)) == Dot(e1, Cross(d, e2)) * t
  {
    CrossCombination(e1, e2, d, e1, u, v, t);
    DotCombination(e2, Cross(e1, e1), Cross(e2, e1), Cross(d, e1), u, v, t);
    CrossSelf(e1);
    CrossOrthogonal(e2, e1);
    TripleProduct(e1, e2, d);
    TripleProduct(e1, d, e2);
  }

  /** Scaling by a nonnegative factor keeps an order. */
  lemma ScaleOrder(w: real, lo: real, x: real)
    requires w >= 0.0 && lo <= x
    ensures lo * w <= x * w
  {
    var k := x - lo;
    assert k * w >= 0.0;
    assert x * w - lo * w == k * w;
  }

  lemma Distribute(k: real, u: real, v: real)
    ensures k * u + k * v == k * (u + v)
  {
  }

  /** A convex combination of three values is at least any common lower bound. */
  lemma ConvexAbove(a: real, b: real, c: real, lo: real, u: real, v: real)
    requires InsideCoords(u, v) && lo <= a && lo <= b && lo <= c
    ensures lo <= a + (b - a) * u + (c - a) * v
  {
    var x1, y1, x2, y2 := (lo - a) * u, (b - a) * u, (lo - a) * v, (c - a) * v;
    assert x1 <= y1 by { ScaleOrder(u, lo - a, b - a); }
    assert x2 <= y2 by { ScaleOrder(v, lo - a, c - a); }
    var z := (lo - a) * (u + v);
    assert x1 + x2 == z by { Distribute(lo - a, u, v); }
    assert lo - a <= z by {
      ScaleOrder(a - lo, u + v, 1.0);
      assert z == -((u + v) * (a - lo));
    }
  }

  /** A convex combination of three values is at most any common upper bound. */
  lemma ConvexBelow(a: real, b: real, c: real, hi: real, u: real, v: real)
    requires InsideCoords(u, v) && a <= hi && b <= hi && c <= hi
    ensures a + (b - a) * u + (c - a) * v <= hi
  {
    var x1, y1, x2, y2 := (b - a) * u, (hi - a) * u, (c - a) * v, (hi - a) * v;
    assert x1 <= y1 by { ScaleOrder(u, b - a, hi - a); }
    assert x2 <= y2 by { ScaleOrder(v, c - a, hi - a); }
    var z := (hi - a) * (u + v);
    assert y1 + y2 == z by { Distribute(hi - a, u, v); }
    assert z <= hi - a by { ScaleOrder(hi - a, u + v, 1.0); }
  }

  /** A convex combination of three values lies between their least and greatest. */
  lemma ConvexBetween(a: real, b: real, c: real, u: real, v: real, p: real)
    requires InsideCoords(u, v) && p == a + ((b - a) * u + (c - a) * v)
    ensures Min3(a, b, c) <= p <= Max3(a, b, c)
  {
    ConvexAbove(a, b, c, Min3(a, b, c), u, v);
    ConvexBelow(a, b, c, Max3(a, b, c), u, v);
  }

  /** A point of the triangle lies in the triangle's box. */
  lemma ConvexInBox(tri: Triangle, u: real, v: real)
    requires InsideCoords(u, v)
    ensures InBox(FromTriangle(tri), Barycentric(tri, u, v))
  {
    var p := Barycentric(tri, u, v);
    ConvexBetween(tri.p1.x, tri.p2.x, tri.p3.x, u, v, p.x);
    ConvexBetween(tri.p1.y, tri.p2.y, tri.p3.y, u, v, p.y);
    ConvexBetween(tri.p1.z, tri.p2.z, tri.p3.z, u, v, p.z);
  }


  /** The right triangle with legs of length 1 along x and y, in the plane z = 0. */
  const UNIT_TRIANGLE: Triangle := Triangle(Position(0.0, 0.0, 0.0), Position(1.0, 0.0, 0.0), Position(0.0, 1.0, 0.0))

  /**
   * A ray straight up from o meets the unit triangle exactly when (o.x, o.y)
   * lies in it and the plane is more than epsilon above o, and then at ray
   * parameter -o.z.
   */
  lemma VerticalRayOnUnitTriangle(o: Position, d: Position, tri: Triangle)
    requires d == Position(0.0, 0.0, 1.0) && tri == UNIT_TRIANGLE
    ensures RayTriangleIntersection(o, d, tri)
            == if 0.0 <= o.x <= 1.0 && 0.0 <= o.y && o.x + o.y <= 1.0 && -o.z > EPSILON then Some(-o.z) else None
  {
    UnitDeterminant(d, tri);
    UnitBarycentric(o, d, tri);
    UnitHitParameter(o, d, tri);
    UnitSteps(o, d, tri);
  }

  lemma UnitSteps(o: Position, d: Position, tri: Triangle)
    requires Determinant(d, tri) == -1.0
    requires BaryU(o, d, tri) == o.x && BaryV(o, d, tri) == o.y && HitParameter(o, d, tri) == -o.z
    ensures Abs(-1.0) >= EPSILON ==>
              RayTriangleIntersection(o, d, tri)
              == if 0.0 <= o.x <= 1.0 && 0.0 <= o.y && o.x + o.y <= 1.0 && -o.z > EPSILON then Some(-o.z) else None
  {
    RayTriangleSteps(o, d, tri, -1.0, o.x, o.y, -o.z);
  }

  lemma UnitEdges(d: Position, tri: Triangle)
    requires d == Position(0.0, 0.0, 1.0) && tri == UNIT_TRIANGLE
    ensures Sub(tri.p2, tri.p1) == Position(1.0, 0.0, 0.0)
    ensures Cross(d, Sub(tri.p3, tri.p1)) == Position(-1.0, 0.0, 0.0)
  {
    assert Sub(tri.p3, tri.p1) == Position(0.0, 1.0, 0.0);
  }

  lemma UnitDeterminant(d: Position, tri: Triangle)
    requires d == Position(0.0, 0.0, 1.0) && tri == UNIT_TRIANGLE
    ensures Determinant(d, tri) == -1.0
  {
    UnitEdges(d, tri);
  }

  lemma UnitBarycentric(o: Position, d: Position, tri: Triangle)
    requires d == Position(0.0, 0.0, 1.0) && tri == UNIT_TRIANGLE
    ensures Determinant(d, tri) != 0.0 && BaryU(o, d, tri) == o.x && BaryV(o, d, tri) == o.y
  {
    UnitDeterminant(d, tri);
    UnitEdges(d, tri);
    assert Sub(o, tri.p1) == o;
    assert Dot(o, Position(-1.0, 0.0, 0.0)) == -o.x;
    assert Cross(o, Position(1.0, 0.0, 0.0)) == Position(0.0, o.z, -o.y);
    assert Dot(d, Position(0.0, o.z, -o.y)) == -o.y;
  }

  lemma UnitHitParameter(o: Position, d: Position, tri: Triangle)
    requires d == Position(0.0, 0.0, 1.0) && tri == UNIT_TRIANGLE
    ensures Determinant(d, tri) != 0.0 && HitParameter(o, d, tri) == -o.z
  {
    UnitDeterminant(d, tri);
    UnitEdges(d, tri);
    assert Sub(o, tri.p1) == o;
    assert Sub(tri.p3, tri.p1) == Position(0.0, 1.0, 0.0);
    assert Cross(o, Position(1.0, 0.0, 0.0)) == Position(0.0, o.z, -o.y);
    assert Dot(Position(0.0, 1.0, 0.0), Position(0.0, o.z, -o.y)) == o.z;
  }

  /** From (0.25, 0.25, -1) the ray hits at t = 1; from (0.75, 0.75, -1) or from above the plane it misses. */
  lemma VerticalRayExamples()
    ensures RayTriangleIntersection(Position(0.25, 0.25, -1.0), Position(0.0, 0.0, 1.0), UNIT_TRIANGLE) == Some(1.0)
    ensures RayTriangleIntersection(Position(0.75, 0.75, -1.0), Position(0.0, 0.0, 1.0), UNIT_TRIANGLE) == None
    ensures RayTriangleIntersection(Position(0.25, 0.25, 1.0), Position(0.0, 0.0, 1.0), UNIT_TRIANGLE) == None
  {
    VerticalRayOnUnitTriangle(Position(0.25, 0.25, -1.0), Position(0.0, 0.0, 1.0), UNIT_TRIANGLE);
    VerticalRayOnUnitTriangle(Position(0.75, 0.75, -1.0), Position(0.0, 0.0, 1.0), UNIT_TRIANGLE);
    VerticalRayOnUnitTriangle(Position(0.25, 0.25, 1.0), Position(0.0, 0.0, 1.0), UNIT_TRIANGLE);
  }

  // ---------------------------------------------------------------------
  // The bounding-volume hierarchy.

  /**
   * `BVHNode`: a leaf holds one triangle and no children; an internal
   * node holds two children and no triangle.
   */
  datatype BvhNode =
    | Leaf(box: Aabb, triangle: Triangle)
    | Internal(box: Aabb, left: BvhNode, right: BvhNode)

  function Leaves(n: BvhNode): seq<Triangle> {
    match n
    case Leaf(_, t) => [t]
    case Internal(_, l, r) => Leaves(l) + Leaves(r)
  }

  /** Every leaf box is its triangle's box and every internal box is the union of its children's. */
  ghost predicate WellFormed(n: BvhNode) {
    match n
    case Leaf(b, t) => b == FromTriangle(t)
    case Internal(b, l, r) => WellFormed(l) && WellFormed(r) && b == Union(l.box, r.box)
  }

  /** The smallest and largest centroid coordinate along an axis. */
  function MinCentroid(ts: seq<Triangle>, axis: nat): (m: real)
    requires ts != [] && axis < 3
    ensures forall i :: 0 <= i < |ts| ==> m <= Coord(Centroid(ts[i]), axis)
    ensures exists i :: 0 <= i < |ts| && m == Coord(Centroid(ts[i]), axis)
  {
    if |ts| == 1 then Coord(Centroid(ts[0]), axis)
    else
      var rest := MinCentroid(ts[1..], axis);
      assert forall i :: 1 <= i < |ts| ==> ts[i] == ts[1..][i - 1];
      Min(Coord(Centroid(ts[0]), axis), rest)
  }

  function MaxCentroid(ts: seq<Triangle>, axis: nat): (m: real)
    requires ts != [] && axis < 3
    ensures forall i :: 0 <= i < |ts| ==> Coord(Centroid(ts[i]), axis) <= m
    ensures exists i :: 0 <= i < |ts| && m == Coord(Centroid(ts[i]), axis)
  {
    if |ts| == 1 then Coord(Centroid(ts[0]), axis)
    else
      var rest := MaxCentroid(ts[1..], axis);
      assert forall i :: 1 <= i < |ts| ==> ts[i] == ts[1..][i - 1];
      Max(Coord(Centroid(ts[0]), axis), rest)
  }

  function Spread(ts: seq<Triangle>, axis: nat): real
    requires ts != [] && axis < 3
  {
    MaxCentroid(ts, axis) - MinCentroid(ts, axis)
  }

  /** The split axis: the one of largest centroid spread, ties going to x, then y. */
  function SplitAxis(ts: seq<Triangle>): (axis: nat)
    requires ts != []
    ensures axis < 3
    ensures Spread(ts, 0) <= Spread(ts, axis) && Spread(ts, 1) <= Spread(ts, axis) && Spread(ts, 2) <= Spread(ts, axis)
    ensures axis > 0 ==> Spread(ts, 0) < Spread(ts, axis)
    ensures axis > 1 ==> Spread(ts, 1) < Spread(ts, axis)
  {
    var xs, ys, zs := Spread(ts, 0), Spread(ts, 1), Spread(ts, 2);
    if xs >= ys && xs >= zs then 0 else if ys >= zs then 1 else 2
  }

  /** The comparison `sort_by` uses: centroid coordinate along the split axis. */
  function ByCentroid(axis: nat): (le: (Triangle, Triangle) -> bool)
    requires axis < 3
    ensures Sorting.TotalPreorder(le)
    ensures forall a, b :: le(a, b) == (Coord(Centroid(a), axis) <= Coord(Centroid(b), axis))
  {
    (a: Triangle, b: Triangle) => Coord(Centroid(a), axis) <= Coord(Centroid(b), axis)
  }

  /** Centroid coordinates along the axis never decrease through the list. */
  ghost predicate OrderedAlong(s: seq<Triangle>, axis: nat)
    requires axis < 3
  {
    forall i, j :: 0 <= i < j < |s| ==> Coord(Centroid(s[i]), axis) <= Coord(Centroid(s[j]), axis)
  }

  /** The triangles sorted (stably) by centroid coordinate along an axis. */
  function SortAlong(ts: seq<Triangle>, axis: nat): (r: seq<Triangle>)
    requires axis < 3
    ensures multiset(r) == multiset(ts) && |r| == |ts|
    ensures forall i, j :: 0 <= i < j < |r| ==> Coord(Centroid(r[i]), axis) <= Coord(Centroid(r[j]), axis)
  {
    Sorting.SortBy(ts, ByCentroid(axis))
  }

  /**
   * `build_bvh` on a non-empty list: one triangle becomes a leaf with its
   * own box; otherwise the list is sorted by centroid on the split axis,
   * split at len/2, both halves built recursively and the node's box is
   * the union of the children's boxes.
   */
  function BuildBvh(triangles: seq<Triangle>): (node: BvhNode)
    requires |triangles| > 0
    ensures |triangles| == 1 <==> node.Leaf?
    ensures |triangles| == 1 ==> node == Leaf(FromTriangle(triangles[0]), triangles[0])
    decreases |triangles|
  {
    if |triangles| == 1 then Leaf(FromTriangle(triangles[0]), triangles[0])
    else
      var axis := SplitAxis(triangles);
      var sorted := SortAlong(triangles, axis);
      var mid := |sorted| / 2;
      var left := BuildBvh(sorted[..mid]);
      var right := BuildBvh(sorted[mid..]);
      Internal(Union(left.box, right.box), left, right)
  }

  /** The children of an internal node are built from the two halves of the sorted list. */
  lemma BuildBvhChildren(triangles: seq<Triangle>)
    requires |triangles| > 1
    ensures var sorted := SortAlong(triangles, SplitAxis(triangles));
            var node := BuildBvh(triangles);
            && node.Internal?
            && node.left == BuildBvh(sorted[..|sorted| / 2])
            && node.right == BuildBvh(sorted[|sorted| / 2..])
  {
  }

  /** The leaves of the hierarchy are the input triangles, each as often as in the input. */
  lemma {:induction false} BuildBvhPermutation(triangles: seq<Triangle>)
    requires |triangles| > 0
    ensures multiset(Leaves(BuildBvh(triangles))) == multiset(triangles)
    decreases |triangles|
  {
    if |triangles| > 1 {
      var sorted := SortAlong(triangles, SplitAxis(triangles));
      var mid := |sorted| / 2;
      var left, right := BuildBvh(sorted[..mid]), BuildBvh(sorted[mid..]);
      assert Leaves(BuildBvh(triangles)) == Leaves(left) + Leaves(right);
      BuildBvhPermutation(sorted[..mid]);
      BuildBvhPermutation(sorted[mid..]);
      Sorting.MultisetOfSplit(sorted, mid);
    }
  }

  /** Every box of the hierarchy is its triangle's box or the union of its children's boxes. */
  lemma {:induction false} BuildBvhWellFormed(triangles: seq<Triangle>)
    requires |triangles| > 0
    ensures WellFormed(BuildBvh(triangles))
    decreases |triangles|
  {
    if |triangles| > 1 {
      var sorted := SortAlong(triangles, SplitAxis(triangles));
      var mid := |sorted| / 2;
      var left, right := BuildBvh(sorted[..mid]), BuildBvh(sorted[mid..]);
      assert BuildBvh(triangles) == Internal(Union(left.box, right.box), left, right);
      BuildBvhWellFormed(sorted[..mid]);
      BuildBvhWellFormed(sorted[mid..]);
      JoinWellFormed(left, right);
    }
  }

  lemma JoinWellFormed(left: BvhNode, right: BvhNode)
    requires WellFormed(left) && WellFormed(right)
    ensures WellFormed(Internal(Union(left.box, right.box), left, right))
  {
  }

  /** Every vertex of every leaf lies in the box of a well-formed node. */
  lemma {:induction false} BoxHoldsLeaves(n: BvhNode)
    requires WellFormed(n)
    ensures forall t :: t in Leaves(n) ==> InBox(n.box, t.p1) && InBox(n.box, t.p2) && InBox(n.box, t.p3)
    ensures forall t :: t in Leaves(n) ==> BoxWithin(FromTriangle(t), n.box)
  {
    match n
    case Leaf(_, _) =>
    case Internal(b, l, r) =>
      BoxHoldsLeaves(l);
      BoxHoldsLeaves(r);
      forall t | t in Leaves(n)
        ensures BoxWithin(FromTriangle(t), b)
      {
        if t in Leaves(l) {
          BoxWithinTrans(FromTriangle(t), l.box, b);
        } else {
          BoxWithinTrans(FromTriangle(t), r.box, b);
        }
      }
  }

  lemma BoxWithinTrans(a: Aabb, b: Aabb, c: Aabb)
    requires BoxWithin(a, b) && BoxWithin(b, c)
    ensures BoxWithin(a, c)
  {
  }

  /**
   * The root box of the hierarchy built from a list holds every vertex of
   * every triangle of the list.
   */
  lemma BuildBvhBounds(triangles: seq<Triangle>)
    requires |triangles| > 0
    ensures forall t :: t in triangles ==>
              var b := BuildBvh(triangles).box;
              InBox(b, t.p1) && InBox(b, t.p2) && InBox(b, t.p3)
  {
    var node := BuildBvh(triangles);
    BuildBvhWellFormed(triangles);
    BuildBvhPermutation(triangles);
    BoxHoldsLeaves(node);
    forall t | t in triangles ensures t in Leaves(node) {
      assert t in multiset(triangles);
    }
  }

  /**
   * The split is a median split: on the split axis, no triangle of the
   * left subtree has a larger centroid coordinate than any triangle of
   * the right subtree.
   */
  lemma BuildBvhMedianSplit(triangles: seq<Triangle>)
    requires |triangles| > 1
    ensures var node, axis := BuildBvh(triangles), SplitAxis(triangles);
            forall a, b :: a in Leaves(node.left) && b in Leaves(node.right) ==>
              Coord(Centroid(a), axis) <= Coord(Centroid(b), axis)
  {
    var axis := SplitAxis(triangles);
    var sorted := SortAlong(triangles, axis);
    var node := BuildBvh(triangles);
    assert node.left == BuildBvh(sorted[..|sorted| / 2]) && node.right == BuildBvh(sorted[|sorted| / 2..]) by {
      BuildBvhChildren(triangles);
    }
    assert OrderedAlong(sorted, axis);
    ChildrenOrdered(sorted, |sorted| / 2, axis);
  }

  /** The left child holds the first half (rounded down) of the triangles, the right child the rest. */
  lemma BuildBvhHalves(triangles: seq<Triangle>)
    requires |triangles| > 1
    ensures |Leaves(BuildBvh(triangles).left)| == |triangles| / 2
    ensures |Leaves(BuildBvh(triangles).right)| == |triangles| - |triangles| / 2
  {
    var sorted := SortAlong(triangles, SplitAxis(triangles));
    var mid := |sorted| / 2;
    BuildBvhChildren(triangles);
    HalfCounts(sorted, mid);
  }

  lemma HalfCounts(sorted: seq<Triangle>, mid: nat)
    requires 0 < mid < |sorted|
    ensures |Leaves(BuildBvh(sorted[..mid]))| == mid
    ensures |Leaves(BuildBvh(sorted[mid..]))| == |sorted| - mid
  {
    BuildBvhPermutation(sorted[..mid]);
    BuildBvhPermutation(sorted[mid..]);
    LeafCount(BuildBvh(sorted[..mid]), sorted[..mid]);
    LeafCount(BuildBvh(sorted[mid..]), sorted[mid..]);
  }

  lemma LeafCount(n: BvhNode, ts: seq<Triangle>)
    requires multiset(Leaves(n)) == multiset(ts)
    ensures |Leaves(n)| == |ts|
  {
    assert |Leaves(n)| == |multiset(Leaves(n))|;
  }

  /** Hierarchies built from the two sides of a cut in an ordered list keep the order between their leaves. */
  lemma ChildrenOrdered(sorted: seq<Triangle>, mid: nat, axis: nat)
    requires 0 < mid < |sorted| && axis < 3
    requires OrderedAlong(sorted, axis)
    ensures forall a, b :: a in Leaves(BuildBvh(sorted[..mid])) && b in Leaves(BuildBvh(sorted[mid..])) ==>
              Coord(Centroid(a), axis) <= Coord(Centroid(b), axis)
  {
    BuildBvhPermutation(sorted[..mid]);
    BuildBvhPermutation(sorted[mid..]);
    HalvesOrdered(sorted, mid, axis);
    LeavesOrdered(BuildBvh(sorted[..mid]), BuildBvh(sorted[mid..]), sorted[..mid], sorted[mid..], axis);
  }

  lemma LeavesOrdered(left: BvhNode, right: BvhNode, lo: seq<Triangle>, hi: seq<Triangle>, axis: nat)
    requires axis < 3
    requires multiset(Leaves(left)) == multiset(lo) && multiset(Leaves(right)) == multiset(hi)
    requires forall a, b :: a in lo && b in hi ==> Coord(Centroid(a), axis) <= Coord(Centroid(b), axis)
    ensures forall a, b :: a in Leaves(left) && b in Leaves(right) ==> Coord(Centroid(a), axis) <= Coord(Centroid(b), axis)
  {
    forall a, b | a in Leaves(left) && b in Leaves(right)
      ensures Coord(Centroid(a), axis) <= Coord(Centroid(b), axis)
    {
      assert a in multiset(lo);
      assert b in multiset(hi);
    }
  }

  /** In a list ordered along an axis, every element before a cut is at most every element after it. */
  lemma HalvesOrdered(s: seq<Triangle>, mid: nat, axis: nat)
    requires mid <= |s| && axis < 3
    requires forall i, j :: 0 <= i < j < |s| ==> Coord(Centroid(s[i]), axis) <= Coord(Centroid(s[j]), axis)
    ensures forall a, b :: a in s[..mid] && b in s[mid..] ==> Coord(Centroid(a), axis) <= Coord(Centroid(b), axis)
  {
    forall a, b | a in s[..mid] && b in s[mid..]
      ensures Coord(Centroid(a), axis) <= Coord(Centroid(b), axis)
    {
      var i :| 0 <= i < mid && s[..mid][i] == a;
      var j :| 0 <= j < |s| - mid && s[mid..][j] == b;
      assert s[i] == a && s[mid + j] == b;
    }
  }

  // ---------------------------------------------------------------------
  // Traversal and the segment query.

  /** A reported hit of one triangle no further than `maxDistance` along the ray. */
  ghost predicate HitWithin(o: Position, d: Position, tri: Triangle, maxDistance: real) {
    var r := RayTriangleIntersection(o, d, tri);
    r.Some? && r.value <= maxDistance
  }

  /** Brute force: some triangle of the list is hit within `maxDistance`. */
  ghost predicate AnyHit(o: Position, d: Position, ts: seq<Triangle>, maxDistance: real) {
    exists i :: 0 <= i < |ts| && HitWithin(o, d, ts[i], maxDistance)
  }

  /** A hit in a concatenation is a hit in one of its parts. */
  lemma AnyHitAppend(o: Position, d: Position, a: seq<Triangle>, b: seq<Triangle>, maxDistance: real)
    ensures AnyHit(o, d, a + b, maxDistance) <==> AnyHit(o, d, a, maxDistance) || AnyHit(o, d, b, maxDistance)
  {
    if AnyHit(o, d, a + b, maxDistance) {
      var i :| 0 <= i < |a + b| && HitWithin(o, d, (a + b)[i], maxDistance);
      if i < |a| {
        assert (a + b)[i] == a[i];
      } else {
        assert (a + b)[i] == b[i - |a|];
      }
    }
    if AnyHit(o, d, a, maxDistance) {
      var i :| 0 <= i < |a| && HitWithin(o, d, a[i], maxDistance);
      assert (a + b)[i] == a[i];
    }
    if AnyHit(o, d, b, maxDistance) {
      var i :| 0 <= i < |b| && HitWithin(o, d, b[i], maxDistance);
      assert (a + b)[|a| + i] == b[i];
    }
  }

  /**
   * `traverse_bvh`: false when the node's box misses the ray; at a leaf,
   * whether its triangle is hit within `maxDistance`; at an internal node,
   * the disjunction of both children.
   */
  function TraverseBvh(n: BvhNode, o: Position, d: Position, maxDistance: real): (hit: bool)
    ensures !IntersectsRay(n.box, o, d) ==> !hit
    ensures hit ==> AnyHit(o, d, Leaves(n), maxDistance)
  {
    if !IntersectsRay(n.box, o, d) then false
    else
      match n
      case Leaf(_, tri) =>
        assert Leaves(n)[0] == tri;
        (match RayTriangleIntersection(o, d, tri)
         case Some(t) => t <= maxDistance
         case None => false)
      case Internal(_, l, r) =>
        var leftHit := TraverseBvh(l, o, d, maxDistance);
        var rightHit := TraverseBvh(r, o, d, maxDistance);
        AnyHitAppend(o, d, Leaves(l), Leaves(r), maxDistance);
        leftHit || rightHit
  }

  /** Every node box of the tree meets the ray. */
  ghost predicate AllBoxesMeet(n: BvhNode, o: Position, d: Position) {
    IntersectsRay(n.box, o, d) &&
    match n
    case Leaf(_, _) => true
    case Internal(_, l, r) => AllBoxesMeet(l, o, d) && AllBoxesMeet(r, o, d)
  }

  /** When no box prunes the search, traversal is exactly the brute-force test over the leaves. */
  lemma {:induction false} TraverseWithoutPruning(n: BvhNode, o: Position, d: Position, maxDistance: real)
    requires AllBoxesMeet(n, o, d)
    ensures TraverseBvh(n, o, d, maxDistance) <==> AnyHit(o, d, Leaves(n), maxDistance)
  {
    match n
    case Leaf(_, tri) =>
      if AnyHit(o, d, Leaves(n), maxDistance) {
        assert HitWithin(o, d, Leaves(n)[0], maxDistance);
      }
    case Internal(_, l, r) =>
      TraverseWithoutPruning(l, o, d, maxDistance);
      TraverseWithoutPruning(r, o, d, maxDistance);
      AnyHitAppend(o, d, Leaves(l), Leaves(r), maxDistance);
  }

  /** A point inside a box makes the box non-empty. */
  lemma PointMakesNonEmpty(b: Aabb, p: Position)
    requires InBox(b, p)
    ensures NonEmptyBox(b)
  {
    forall axis | 0 <= axis < 3
      ensures Coord(b.minPoint, axis) <= Coord(b.maxPoint, axis)
    {
    }
  }

  /** In a well-formed tree, a hit of any leaf lies in the node's box, so the box test lets the ray through. */
  lemma HitMeetsBox(n: BvhNode, o: Position, d: Position, maxDistance: real)
    requires WellFormed(n) && ClearDirection(d) && AnyHit(o, d, Leaves(n), maxDistance)
    ensures IntersectsRay(n.box, o, d)
  {
    var i :| 0 <= i < |Leaves(n)| && HitWithin(o, d, Leaves(n)[i], maxDistance);
    var tri := Leaves(n)[i];
    var t := RayTriangleIntersection(o, d, tri).value;
    RayTriangleHit(o, d, tri);
    BoxHoldsLeaves(n);
    assert BoxWithin(FromTriangle(tri), n.box);
    assert InBox(n.box, PointAt(o, d, t));
    PointMakesNonEmpty(n.box, PointAt(o, d, t));
    IntersectsRayExact(n.box, o, d);
  }

  /**
   * Pruning loses nothing on a well-formed tree when no direction component
   * is nonzero but below epsilon: traversal is exactly the brute-force test
   * over the leaves.
   */
  lemma {:induction false} TraverseBvhComplete(n: BvhNode, o: Position, d: Position, maxDistance: real)
    requires WellFormed(n) && ClearDirection(d)
    ensures TraverseBvh(n, o, d, maxDistance) <==> AnyHit(o, d, Leaves(n), maxDistance)
  {
    if AnyHit(o, d, Leaves(n), maxDistance) {
      HitMeetsBox(n, o, d, maxDistance);
      match n
      case Leaf(_, tri) =>
        assert HitWithin(o, d, Leaves(n)[0], maxDistance);
      case Internal(_, l, r) =>
        AnyHitAppend(o, d, Leaves(l), Leaves(r), maxDistance);
        if AnyHit(o, d, Leaves(l), maxDistance) {
          TraverseBvhComplete(l, o, d, maxDistance);
        } else {
          TraverseBvhComplete(r, o, d, maxDistance);
        }
    }
  }

  /** A triangle in the plane z = 1 whose box starts just right of x = 0. */
  const GRAZED_TRIANGLE: Triangle :=
    Triangle(Position(0.0000002, -1.0, 1.0), Position(0.0000002, 1.0, 1.0), Position(0.0000008, 0.0, 1.0))

  /**
   * Without the restriction on the direction, pruning can lose a hit: a
   * ray from the origin whose x component 5e-7 is nonzero but below
   * epsilon hits the triangle at t = 1, but the box test treats the ray as
   * parallel to x and, the origin being outside the box's x range, prunes
   * the leaf.
   */
  lemma GrazingRayPruned(o: Position, d: Position, n: BvhNode)
    requires o == Position(0.0, 0.0, 0.0) && d == Position(0.0000005, 0.0, 1.0)
    requires n == Leaf(FromTriangle(GRAZED_TRIANGLE), GRAZED_TRIANGLE)
    ensures WellFormed(n) && !ClearDirection(d)
    ensures AnyHit(o, d, Leaves(n), 2.0) && !TraverseBvh(n, o, d, 2.0)
  {
    GrazedNotClear(d);
    GrazedLeafHit(o, d, n);
    GrazedLeafPruned(o, d, n);
  }

  /** The grazing direction has an x component that is nonzero but below epsilon. */
  lemma GrazedNotClear(d: Position)
    requires d == Position(0.0000005, 0.0, 1.0)
    ensures !ClearDirection(d)
  {
    assert Coord(d, 0) == 0.0000005;
  }

  /** The grazing ray hits the leaf's triangle within distance 2. */
  lemma GrazedLeafHit(o: Position, d: Position, n: BvhNode)
    requires o == Position(0.0, 0.0, 0.0) && d == Position(0.0000005, 0.0, 1.0)
    requires n == Leaf(FromTriangle(GRAZED_TRIANGLE), GRAZED_TRIANGLE)
    ensures AnyHit(o, d, Leaves(n), 2.0)
  {
    GrazedTriangleHit(o, d, GRAZED_TRIANGLE);
    LeafHit(o, d, n, FromTriangle(GRAZED_TRIANGLE), GRAZED_TRIANGLE, 1.0, 2.0);
  }

  /** A leaf whose triangle the ray meets within `maxDistance` has a hit. */
  lemma LeafHit(o: Position, d: Position, n: BvhNode, box: Aabb, tri: Triangle, t: real, maxDistance: real)
    requires n == Leaf(box, tri) && RayTriangleIntersection(o, d, tri) == Some(t) && t <= maxDistance
    ensures AnyHit(o, d, Leaves(n), maxDistance)
  {
    assert HitWithin(o, d, Leaves(n)[0], maxDistance);
  }

  /** The traversal gives up on the leaf at its box. */
  lemma GrazedLeafPruned(o: Position, d: Position, n: BvhNode)
    requires o == Position(0.0, 0.0, 0.0) && d == Position(0.0000005, 0.0, 1.0)
    requires n == Leaf(FromTriangle(GRAZED_TRIANGLE), GRAZED_TRIANGLE)
    ensures !TraverseBvh(n, o, d, 2.0)
  {
    GrazedBoxMissed(o, d, n.box);
  }

  /** The grazing ray meets the triangle at t = 1, at (u, v) = (0.25, 0.5). */
  lemma GrazedTriangleHit(o: Position, d: Position, tri: Triangle)
    requires o == Position(0.0, 0.0, 0.0) && d == Position(0.0000005, 0.0, 1.0) && tri == GRAZED_TRIANGLE
    ensures RayTriangleIntersection(o, d, tri) == Some(1.0)
  {
    assert Abs(Determinant(d, tri)) >= EPSILON by { GrazedDeterminant(d, tri); }
    assert PointAt(o, d, 1.0) == Barycentric(tri, 0.25, 0.5) by { GrazedOnTriangle(o, d, tri); }
    RayTriangleFindsHit(o, d, tri, 0.25, 0.5, 1.0);
  }

  lemma GrazedDeterminant(d: Position, tri: Triangle)
    requires d == Position(0.0000005, 0.0, 1.0) && tri == GRAZED_TRIANGLE
    ensures Determinant(d, tri) == 0.0000012
  {
    var e1, e2 := Sub(tri.p2, tri.p1), Sub(tri.p3, tri.p1);
    assert e1 == Position(0.0, 2.0, 0.0) && e2 == Position(0.0000006, 1.0, 0.0);
    assert d.z * e2.x == 0.0000006 && d.x * e2.y == 0.0000005;
    assert Cross(d, e2) == Position(-1.0, 0.0000006, 0.0000005);
  }

  lemma GrazedOnTriangle(o: Position, d: Position, tri: Triangle)
    requires o == Position(0.0, 0.0, 0.0) && d == Position(0.0000005, 0.0, 1.0) && tri == GRAZED_TRIANGLE
    ensures PointAt(o, d, 1.0) == Barycentric(tri, 0.25, 0.5)
  {
    assert Scale(d, 1.0) == d;
    GrazedPointX(tri);
    GrazedPointY(tri);
    GrazedPointZ(tri);
  }

  // One coordinate at a time: the whole equation at once is beyond the solver's budget.
  lemma GrazedPointX(tri: Triangle)
    requires tri == GRAZED_TRIANGLE
    ensures Barycentric(tri, 0.25, 0.5).x == 0.0000005
  {
  }

  lemma GrazedPointY(tri: Triangle)
    requires tri == GRAZED_TRIANGLE
    ensures Barycentric(tri, 0.25, 0.5).y == 0.0
  {
  }

  lemma GrazedPointZ(tri: Triangle)
    requires tri == GRAZED_TRIANGLE
    ensures Barycentric(tri, 0.25, 0.5).z == 1.0
  {
  }

  /** The slab test treats the grazing ray as parallel to x and misses the triangle's box. */
  lemma GrazedBoxMissed(o: Position, d: Position, b: Aabb)
    requires o == Position(0.0, 0.0, 0.0) && d == Position(0.0000005, 0.0, 1.0) && b == FromTriangle(GRAZED_TRIANGLE)
    ensures !IntersectsRay(b, o, d)
  {
    assert b.minPoint.x == 0.0000002;
    assert Slab(b, o, d, 0) == (PosInf, NegInf);
  }

  /** `CollisionChecker`: the triangle count and the root of the hierarchy. */
  datatype CollisionChecker = CollisionChecker(nTriangles: nat, root: BvhNode)

  /** `CollisionChecker::new` on the triangles of a file (the file must hold at least one). */
  function NewCollisionChecker(triangles: seq<Triangle>): (c: CollisionChecker)
    requires |triangles| > 0
    ensures c.nTriangles == |triangles|
    ensures multiset(Leaves(c.root)) == multiset(triangles) && WellFormed(c.root)
  {
    BuildBvhPermutation(triangles);
    BuildBvhWellFormed(triangles);
    CollisionChecker(|triangles|, BuildBvh(triangles))
  }

  /**
   * `connection_unobstructed`: a segment shorter than 1e-6 is always
   * unobstructed; otherwise the normalised ray from `start` must reach
   * no triangle within the segment's length.
   */
  function ConnectionUnobstructed(sqrt: real -> real, c: CollisionChecker, start: Position, end: Position): (free: bool)
    requires IsSqrt(sqrt)
    ensures Length(sqrt, Sub(end, start)) < EPSILON ==> free
    ensures !free ==> AnyHit(start, Normalize(sqrt, Sub(end, start)), Leaves(c.root), Length(sqrt, Sub(end, start)))
  {
    var direction := Sub(end, start);
    var distance := Length(sqrt, direction);
    if distance < EPSILON then true
    else !TraverseBvh(c.root, start, Normalize(sqrt, direction), distance)
  }

  /**
   * With no direction component that is nonzero but below epsilon, the
   * segment query is exactly the brute-force test: the segment is free iff
   * it is shorter than epsilon or no triangle is hit within its length.
   */
  lemma ConnectionUnobstructedExact(sqrt: real -> real, c: CollisionChecker, start: Position, end: Position)
    requires IsSqrt(sqrt) && WellFormed(c.root) && ClearDirection(Normalize(sqrt, Sub(end, start)))
    ensures ConnectionUnobstructed(sqrt, c, start, end)
            <==> Length(sqrt, Sub(end, start)) < EPSILON
                 || !AnyHit(start, Normalize(sqrt, Sub(end, start)), Leaves(c.root), Length(sqrt, Sub(end, start)))
  {
    TraverseBvhComplete(c.root, start, Normalize(sqrt, Sub(end, start)), Length(sqrt, Sub(end, start)));
  }
}
