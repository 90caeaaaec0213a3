/**
 * Geometry primitives of `src/position.rs`: a 3-D position with vector
 * algebra, distances, the jump-feasibility test and inverse-distance
 * weighting.
 *
 * Coordinates are reals. The square root (and with it `hypot`) is an
 * oracle passed as a parameter `sqrt`; `IsSqrt` states the only facts
 * about it that the model relies on.
 */
module Geometry {

  datatype Position = Position(x: real, y: real, z: real)

  const Origin := Position(0.0, 0.0, 0.0)

  // Movement constants of `src/constants.rs`.
  const RUNNING_SPEED: real := 250.0
  const CROUCHING_SPEED: real := 85.0
  const GRAVITY: real := 800.0
  const JUMP_HEIGHT: real := 55.83
  const CROUCH_JUMP_HEIGHT_GAIN: real := 66.02 - JUMP_HEIGHT
  const PLAYER_WIDTH: real := 32.0
  const PLAYER_EYE_LEVEL: real := 64.093811

  function Square(v: real): real { v * v }

  /** What the model assumes of the square-root oracle. */
  ghost predicate IsSqrt(sqrt: real -> real) {
    && (forall v :: 0.0 <= sqrt(v))
    && (forall v :: 0.0 <= v ==> sqrt(Square(v)) == v)
  }

  function Add(a: Position, b: Position): Position {
    Position(a.x + b.x, a.y + b.y, a.z + b.z)
  }

  function Sub(a: Position, b: Position): Position {
    Position(a.x - b.x, a.y - b.y, a.z - b.z)
  }

  function Scale(a: Position, k: real): Position {
    Position(a.x * k, a.y * k, a.z * k)
  }

  function Dot(a: Position, b: Position): real {
    a.x * b.x + a.y * b.y + a.z * b.z
  }

  function Cross(a: Position, b: Position): Position {
    Position(a.y * b.z - a.z * b.y, a.z * b.x - a.x * b.z, a.x * b.y - a.y * b.x)
  }

  function Length(sqrt: real -> real, a: Position): (r: real)
    requires IsSqrt(sqrt)
    ensures 0.0 <= r
  {
    sqrt(Square(a.x) + Square(a.y) + Square(a.z))
  }

  /** The unit vector along `a`; the zero vector is returned unchanged. */
  function Normalize(sqrt: real -> real, a: Position): (r: Position)
    requires IsSqrt(sqrt)
    ensures a == Origin ==> r == Origin
    ensures Length(sqrt, a) != 0.0 ==> Scale(r, Length(sqrt, a)) == a
  {
    var len := Length(sqrt, a);
    LengthOfOrigin(sqrt);
    if len == 0.0 then Origin
    else
      DivideThenScale(a, len);
      Position(a.x / len, a.y / len, a.z / len)
  }

  /** The zero vector has length 0. */
  lemma LengthOfOrigin(sqrt: real -> real)
    requires IsSqrt(sqrt)
    ensures Length(sqrt, Origin) == 0.0
  {
    assert Square(0.0) == 0.0;
    assert sqrt(Square(0.0)) == 0.0;
  }

  lemma DivideThenScale(a: Position, len: real)
    requires len != 0.0
    ensures Scale(Position(a.x / len, a.y / len, a.z / len), len) == a
  {
    assert a.x / len * len == a.x;
    assert a.y / len * len == a.y;
    assert a.z / len * len == a.z;
  }

  function Distance(sqrt: real -> real, a: Position, b: Position): (r: real)
    requires IsSqrt(sqrt)
    ensures 0.0 <= r
  {
    Length(sqrt, Sub(a, b))
  }

  /** `hypot(dx, dy)`. */
  function Hypot(sqrt: real -> real, dx: real, dy: real): (r: real)
    requires IsSqrt(sqrt)
    ensures 0.0 <= r
  {
    sqrt(Square(dx) + Square(dy))
  }

  function Distance2D(sqrt: real -> real, a: Position, b: Position): (r: real)
    requires IsSqrt(sqrt)
    ensures 0.0 <= r
  {
    Hypot(sqrt, a.x - b.x, a.y - b.y)
  }

  function Max(a: real, b: real): real { if a >= b then a else b }

  function Min(a: real, b: real): real { if a <= b then a else b }

  function Abs(a: real): real { if a < 0.0 then -a else a }

  /** The take-off speed of a jump reaching JUMP_HEIGHT: sqrt(2 g h). */
  function JumpSpeed(sqrt: real -> real): real
    requires IsSqrt(sqrt)
  {
    sqrt(2.0 * GRAVITY * JUMP_HEIGHT)
  }

  /**
   * The height reached by a crouch jump from `from` when it has covered
   * the horizontal distance to (x, y); it does not depend on any target z.
   */
  function JumpHeightAt(sqrt: real -> real, from: Position, x: real, y: real): real
    requires IsSqrt(sqrt)
  {
    var h := Max(0.0, Hypot(sqrt, from.x - x, from.y - y) - PLAYER_WIDTH * 1.15);
    var t := Max(h / RUNNING_SPEED, JumpSpeed(sqrt) / GRAVITY);
    from.z + JumpSpeed(sqrt) * t - 0.5 * GRAVITY * t * t + CROUCH_JUMP_HEIGHT_GAIN
  }

  function CanJumpTo(sqrt: real -> real, from: Position, to: Position): bool
    requires IsSqrt(sqrt)
  {
    var h := Distance2D(sqrt, from, to);
    if h <= 0.0 then true
    else JumpHeightAt(sqrt, from, to.x, to.y) >= to.z
  }

  // ---------------------------------------------------------------------
  // Algebraic laws of the vector operations.

  lemma AddSubCancel(a: Position, b: Position)
    ensures Sub(Add(a, b), b) == a
    ensures Add(Sub(a, b), b) == a
  {
  }

  lemma DotSymmetric(a: Position, b: Position)
    ensures Dot(a, b) == Dot(b, a)
  {
  }

  lemma CrossOrthogonal(a: Position, b: Position)
    ensures Dot(a, Cross(a, b)) == 0.0
    ensures Dot(b, Cross(a, b)) == 0.0
  {
  }

  lemma CrossLinearLeft(a: Position, b: Position, c: Position, k: real)
    ensures Cross(Add(a, b), c) == Add(Cross(a, c), Cross(b, c))
    ensures Cross(Sub(a, b), c) == Sub(Cross(a, c), Cross(b, c))
    ensures Cross(Scale(a, k), c) == Scale(Cross(a, c), k)
  {
    CrossAddLeft(a, b, c);
    CrossSubLeft(a, b, c);
    CrossScaleLeft(a, c, k);
  }

  lemma CrossAddLeft(a: Position, b: Position, c: Position)
    ensures Cross(Add(a, b), c) == Add(Cross(a, c), Cross(b, c))
  {
  }

  lemma CrossSubLeft(a: Position, b: Position, c: Position)
    ensures Cross(Sub(a, b), c) == Sub(Cross(a, c), Cross(b, c))
  {
  }

  lemma CrossScaleLeft(a: Position, c: Position, k: real)
    ensures Cross(Scale(a, k), c) == Scale(Cross(a, c), k)
  {
    var x := (a.y * k) * c.z - (a.z * k) * c.y;
    var y := (a.z * k) * c.x - (a.x * k) * c.z;
    var z := (a.x * k) * c.y - (a.y * k) * c.x;
    assert Cross(Scale(a, k), c) == Position(x, y, z);
    ScaledDifference(a.y, c.z, a.z, c.y, k);
    ScaledDifference(a.z, c.x, a.x, c.z, k);
    ScaledDifference(a.x, c.y, a.y, c.x, k);
    assert Scale(Cross(a, c), k) == Position(x, y, z);
  }

  lemma ScaledDifference(p: real, q: real, r: real, s: real, k: real)
    ensures (p * k) * q - (r * k) * s == (p * q - r * s) * k
  {
  }

  lemma CrossSelf(a: Position)
    ensures Cross(a, a) == Position(0.0, 0.0, 0.0)
  {
  }

  lemma DotLinearRight(a: Position, b: Position, c: Position, k: real)
    ensures Dot(a, Add(b, c)) == Dot(a, b) + Dot(a, c)
    ensures Dot(a, Sub(b, c)) == Dot(a, b) - Dot(a, c)
    ensures Dot(a, Scale(b, k)) == Dot(a, b) * k
  {
  }

  /** The triple product is invariant under rotation and changes sign under a swap. */
  lemma TripleProduct(a: Position, b: Position, c: Position)
    ensures Dot(a, Cross(b, c)) == Dot(b, Cross(c, a))
    ensures Dot(a, Cross(b, c)) == -Dot(a, Cross(c, b))
  {
  }

  /** A point is at distance 0 from itself. */
  lemma DistanceToSelf(sqrt: real -> real, p: Position)
    requires IsSqrt(sqrt)
    ensures Distance(sqrt, p, p) == 0.0
  {
    assert Sub(p, p) == Origin;
    LengthOfOrigin(sqrt);
  }

  lemma NormalizeZero(sqrt: real -> real)
    requires IsSqrt(sqrt)
    ensures Normalize(sqrt, Origin) == Origin
  {
  }

  lemma Distance2DLaws(sqrt: real -> real, a: Position, b: Position, za: real, zb: real)
    requires IsSqrt(sqrt)
    ensures Distance2D(sqrt, a, b) == Distance2D(sqrt, b, a)
    ensures Distance2D(sqrt, a, b) == Distance2D(sqrt, a.(z := za), b.(z := zb))
    ensures a.x == b.x && a.y == b.y ==> Distance2D(sqrt, a, b) == 0.0
  {
    assert Square(a.x - b.x) == Square(b.x - a.x);
    assert Square(a.y - b.y) == Square(b.y - a.y);
    if a.x == b.x && a.y == b.y {
      assert Square(a.x - b.x) + Square(a.y - b.y) == Square(0.0);
    }
  }

  /**
   * A target straight above or below the jumper is always reachable, and
   * otherwise reachability only compares the target's z with a height that
   * does not depend on it: lowering the target never makes a jump fail.
   */
  lemma CanJumpToLaws(sqrt: real -> real, from: Position, to: Position, lower: real)
    requires IsSqrt(sqrt)
    requires lower <= to.z
    ensures from.x == to.x && from.y == to.y ==> CanJumpTo(sqrt, from, to)
    ensures CanJumpTo(sqrt, from, to) ==> CanJumpTo(sqrt, from, to.(z := lower))
    ensures CanJumpTo(sqrt, from, to) <==>
              Distance2D(sqrt, from, to) <= 0.0 || JumpHeightAt(sqrt, from, to.x, to.y) >= to.z
  {
    Distance2DLaws(sqrt, from, to, from.z, lower);
  }

  // ---------------------------------------------------------------------
  // Inverse-distance weighting (power 2) of the z values of `points`
  // at the horizontal position `target`.

  const NEAR: real := 0.0000000001

  function PlanarDist(sqrt: real -> real, p: Position, tx: real, ty: real): (r: real)
    requires IsSqrt(sqrt)
    ensures 0.0 <= r
  {
    Hypot(sqrt, tx - p.x, ty - p.y)
  }

  /** 1 / dist^2 (written 1 / d / d), for a point that is not within NEAR of the target. */
  function Weight(sqrt: real -> real, p: Position, tx: real, ty: real): (w: real)
    requires IsSqrt(sqrt)
    ensures PlanarDist(sqrt, p, tx, ty) >= NEAR ==> w > 0.0
  {
    var d := PlanarDist(sqrt, p, tx, ty);
    if d < NEAR then 0.0 else 1.0 / d / d
  }

  ghost predicate NoneNear(sqrt: real -> real, points: seq<Position>, tx: real, ty: real)
    requires IsSqrt(sqrt)
  {
    forall i :: 0 <= i < |points| ==> PlanarDist(sqrt, points[i], tx, ty) >= NEAR
  }

  /** The weight of every point, in order. */
  function Weights(sqrt: real -> real, points: seq<Position>, tx: real, ty: real): (ws: seq<real>)
    requires IsSqrt(sqrt)
    ensures |ws| == |points|
    ensures forall i :: 0 <= i < |points| ==> ws[i] == Weight(sqrt, points[i], tx, ty)
  {
    seq(|points|, i requires 0 <= i < |points| => Weight(sqrt, points[i], tx, ty))
  }

  /** The z of every point, in order. */
  function Heights(points: seq<Position>): (zs: seq<real>)
    ensures |zs| == |points|
    ensures forall i :: 0 <= i < |points| ==> zs[i] == points[i].z
  {
    seq(|points|, i requires 0 <= i < |points| => points[i].z)
  }

  /** Sum of a sequence, accumulated front to back as the loop does. */
  function Sum(ws: seq<real>): real {
    if |ws| == 0 then 0.0 else Sum(ws[..|ws| - 1]) + ws[|ws| - 1]
  }

  /** Sum of ws[i] * zs[i]. */
  function WeightedSum(ws: seq<real>, zs: seq<real>): real
    requires |ws| == |zs|
  {
    if |ws| == 0 then 0.0
    else WeightedSum(ws[..|ws| - 1], zs[..|zs| - 1]) + ws[|ws| - 1] * zs[|zs| - 1]
  }

  ghost predicate AllPositive(ws: seq<real>) {
    forall i :: 0 <= i < |ws| ==> ws[i] > 0.0
  }
  ghost predicate AllBetween(zs: seq<real>, lo: real, hi: real) {
    forall i :: 0 <= i < |zs| ==> lo <= zs[i] <= hi
  }
  /** One step of WeightedSumLower on plain reals. */
  lemma LowerStep(lo: real, w0: real, s0: real, w: real, z: real, total: real, sum: real)
    requires lo * w0 <= s0 && w > 0.0 && lo <= z
    requires total == w + w0 && sum == w * z + s0
    ensures lo * total <= sum
  {
    assert w * lo <= w * z;
  }
  /** One step of WeightedSumUpper on plain reals. */
  lemma UpperStep(hi: real, w0: real, s0: real, w: real, z: real, total: real, sum: real)
    requires s0 <= hi * w0 && w > 0.0 && z <= hi
    requires total == w + w0 && sum == w * z + s0
    ensures sum <= hi * total
  {
    assert w * z <= w * hi;
  }
  /** lo * (sum of w_i) <= sum of w_i * z_i when every w_i > 0 and every z_i >= lo. */
  lemma {:induction false} WeightedSumLower(ws: seq<real>, zs: seq<real>, lo: real, hi: real)
    requires |ws| == |zs| && AllPositive(ws) && AllBetween(zs, lo, hi)
    ensures lo * Sum(ws) <= WeightedSum(ws, zs)
  {
    if |ws| > 0 {
      var a, b := ws[..|ws| - 1], zs[..|zs| - 1];
      assert AllPositive(a);
      assert AllBetween(b, lo, hi);
      WeightedSumLower(a, b, lo, hi);
      LowerStep(lo, Sum(a), WeightedSum(a, b), ws[|ws| - 1], zs[|zs| - 1], Sum(ws), WeightedSum(ws, zs));
    }
  }
  /** sum of w_i * z_i <= hi * (sum of w_i) when every w_i > 0 and every z_i <= hi. */
  lemma {:induction false} WeightedSumUpper(ws: seq<real>, zs: seq<real>, lo: real, hi: real)
    requires |ws| == |zs| && AllPositive(ws) && AllBetween(zs, lo, hi)
    ensures WeightedSum(ws, zs) <= hi * Sum(ws)
  {
    if |ws| > 0 {
      var a, b := ws[..|ws| - 1], zs[..|zs| - 1];
      assert AllPositive(a);
      assert AllBetween(b, lo, hi);
      WeightedSumUpper(a, b, lo, hi);
      UpperStep(hi, Sum(a), WeightedSum(a, b), ws[|ws| - 1], zs[|zs| - 1], Sum(ws), WeightedSum(ws, zs));
    }
  }
  lemma DivLower(num: real, den: real, lo: real)
    requires den > 0.0 && lo * den <= num
    ensures lo <= num / den
  {
  }
  lemma DivUpper(num: real, den: real, hi: real)
    requires den > 0.0 && num <= hi * den
    ensures num / den <= hi
  {
  }
  lemma {:induction false} SumPositive(ws: seq<real>)
    requires AllPositive(ws) && |ws| > 0
    ensures Sum(ws) > 0.0
  {
    if |ws| > 1 {
      SumPositive(ws[..|ws| - 1]);
    }
  }
  /** The weighted mean is at least any lower bound of the values. */
  lemma MeanAtLeast(ws: seq<real>, zs: seq<real>, lo: real, hi: real)
    requires |ws| == |zs| && |ws| > 0 && AllPositive(ws) && AllBetween(zs, lo, hi)
    ensures Sum(ws) > 0.0
    ensures lo <= WeightedSum(ws, zs) / Sum(ws)
  {
    var n, d := WeightedSum(ws, zs), Sum(ws);
    assert d > 0.0 && lo * d <= n by {
      SumPositive(ws);
      WeightedSumLower(ws, zs, lo, hi);
    }
    DivLower(n, d, lo);
  }
  /** The weighted mean is at most any upper bound of the values. */
  lemma MeanAtMost(ws: seq<real>, zs: seq<real>, lo: real, hi: real)
    requires |ws| == |zs| && |ws| > 0 && AllPositive(ws) && AllBetween(zs, lo, hi)
    ensures Sum(ws) > 0.0
    ensures WeightedSum(ws, zs) / Sum(ws) <= hi
  {
    var n, d := WeightedSum(ws, zs), Sum(ws);
    assert d > 0.0 && n <= hi * d by {
      SumPositive(ws);
      WeightedSumUpper(ws, zs, lo, hi);
    }
    DivUpper(n, d, hi);
  }

  /** The weighted mean lies between any bounds of the values. */
  lemma MeanBetween(ws: seq<real>, zs: seq<real>)
    requires |ws| == |zs| && |ws| > 0 && AllPositive(ws)
    ensures Sum(ws) > 0.0
    ensures forall lo, hi :: AllBetween(zs, lo, hi) ==>
              lo <= WeightedSum(ws, zs) / Sum(ws) <= hi
  {
    SumPositive(ws);
    forall lo, hi | AllBetween(zs, lo, hi)
      ensures lo <= WeightedSum(ws, zs) / Sum(ws) <= hi
    {
      MeanAtLeast(ws, zs, lo, hi);
      MeanAtMost(ws, zs, lo, hi);
    }
  }

  /** The index of the first point within NEAR of the target, if any. */
  function FirstNear(sqrt: real -> real, points: seq<Position>, tx: real, ty: real): (r: nat)
    requires IsSqrt(sqrt)
    ensures r <= |points|
    ensures NoneNear(sqrt, points[..r], tx, ty)
    ensures r < |points| ==> PlanarDist(sqrt, points[r], tx, ty) < NEAR
  {
    if points == [] then 0
    else if PlanarDist(sqrt, points[0], tx, ty) < NEAR then 0
    else
      var k := FirstNear(sqrt, points[1..], tx, ty);
      assert points[..k + 1] == [points[0]] + points[1..][..k];
      1 + k
  }

  /** The weight the loop computes for a point that is not near is that point's entry in Weights. */
  lemma WeightAt(sqrt: real -> real, points: seq<Position>, tx: real, ty: real, i: nat, dist: real, weight: real)
    requires IsSqrt(sqrt) && i < |points|
    requires dist == PlanarDist(sqrt, points[i], tx, ty) && dist >= NEAR && weight == 1.0 / dist / dist
    ensures weight == Weights(sqrt, points, tx, ty)[i] && weight > 0.0
  {
  }

  /** One iteration of the loop of InverseDistanceWeighting past a point that is not near. */
  lemma IdwStep(sqrt: real -> real, points: seq<Position>, tx: real, ty: real, i: nat,
                pos: Position, weight: real, weightSum: real, weightedSum: real)
    requires IsSqrt(sqrt) && i < |points| && pos == points[i]
    requires weight == Weights(sqrt, points, tx, ty)[i]
    requires weightSum == Sum(Weights(sqrt, points, tx, ty)[..i])
    requires weightedSum == WeightedSum(Weights(sqrt, points, tx, ty)[..i], Heights(points)[..i])
    ensures weightSum + weight == Sum(Weights(sqrt, points, tx, ty)[..i + 1])
    ensures weightedSum + weight * pos.z
            == WeightedSum(Weights(sqrt, points, tx, ty)[..i + 1], Heights(points)[..i + 1])
  {
    var ws := Weights(sqrt, points, tx, ty);
    SumStep(ws, i, weight, weightSum);
    WeightedSumStep(ws, Heights(points), i, weight, pos.z, weightedSum);
  }

  /** Extending the prefix by one element adds that element to both sums. */
  /** Extending the prefix by one element adds that element to the sum. */
  lemma SumStep(ws: seq<real>, i: nat, w: real, s: real)
    requires i < |ws| && ws[i] == w && s == Sum(ws[..i])
    ensures s + w == Sum(ws[..i + 1])
  {
    assert ws[..i + 1][..i] == ws[..i];
  }

  /** Extending both prefixes by one element adds the product of those elements to the weighted sum. */
  lemma WeightedSumStep(ws: seq<real>, zs: seq<real>, i: nat, w: real, z: real, t: real)
    requires |ws| == |zs| && i < |ws| && ws[i] == w && zs[i] == z
    requires t == WeightedSum(ws[..i], zs[..i])
    ensures t + w * z == WeightedSum(ws[..i + 1], zs[..i + 1])
  {
    assert ws[..i + 1][..i] == ws[..i];
    assert zs[..i + 1][..i] == zs[..i];
  }

  /** A point that is not near extends NoneNear by one. */
  lemma NoneNearStep(sqrt: real -> real, points: seq<Position>, tx: real, ty: real, i: nat)
    requires IsSqrt(sqrt) && i < |points|
    requires NoneNear(sqrt, points[..i], tx, ty) && PlanarDist(sqrt, points[i], tx, ty) >= NEAR
    ensures NoneNear(sqrt, points[..i + 1], tx, ty)
  {
    assert points[..i + 1][..i] == points[..i];
  }


  /** The value `inverse_distance_weighting` returns, as one expression (0 where it would divide by zero). */
  function IdwValue(sqrt: real -> real, points: seq<Position>, tx: real, ty: real): real
    requires IsSqrt(sqrt)
  {
    var k := FirstNear(sqrt, points, tx, ty);
    var total := Sum(Weights(sqrt, points, tx, ty));
    if k < |points| then points[k].z
    else if total == 0.0 then 0.0
    else WeightedSum(Weights(sqrt, points, tx, ty), Heights(points)) / total
  }

  /**
   * `inverse_distance_weighting` with power 2: the z of the first point
   * within NEAR of the target if there is one, otherwise the mean of the z
   * values weighted by 1 / distance^2, which lies between the smallest and
   * the largest z.
   */
  method InverseDistanceWeighting(sqrt: real -> real, points: seq<Position>, tx: real, ty: real)
    returns (z: real)
    requires IsSqrt(sqrt)
    requires |points| > 0
    ensures FirstNear(sqrt, points, tx, ty) < |points| ==>
              z == points[FirstNear(sqrt, points, tx, ty)].z
    ensures FirstNear(sqrt, points, tx, ty) == |points| ==>
              NoneNear(sqrt, points, tx, ty) &&
              Sum(Weights(sqrt, points, tx, ty)) > 0.0 &&
              z == WeightedSum(Weights(sqrt, points, tx, ty), Heights(points))
                   / Sum(Weights(sqrt, points, tx, ty))
    ensures forall lo, hi :: AllBetween(Heights(points), lo, hi) ==> lo <= z <= hi
    ensures z == IdwValue(sqrt, points, tx, ty)
  {
    var weightedSum := 0.0;
    var weightSum := 0.0;
    var i := 0;
    while i < |points|
      invariant 0 <= i <= |points|
      invariant NoneNear(sqrt, points[..i], tx, ty)
      invariant weightSum == Sum(Weights(sqrt, points, tx, ty)[..i])
      invariant weightedSum == WeightedSum(Weights(sqrt, points, tx, ty)[..i], Heights(points)[..i])
    {
      var pos := points[i];
      var dist := PlanarDist(sqrt, pos, tx, ty);
      if dist < NEAR {
        FirstNearAt(sqrt, points, tx, ty, i);
        z := pos.z;
        return;
      }
      var weight := 1.0 / dist / dist;
      WeightAt(sqrt, points, tx, ty, i, dist, weight);
      IdwStep(sqrt, points, tx, ty, i, pos, weight, weightSum, weightedSum);
      NoneNearStep(sqrt, points, tx, ty, i);
      weightedSum := weightedSum + weight * pos.z;
      weightSum := weightSum + weight;
      i := i + 1;
    }
    IdwEnd(sqrt, points, tx, ty);
    z := weightedSum / weightSum;
  }

  /** After a full pass with no near point, the weights are positive and the mean is bounded. */
  lemma IdwEnd(sqrt: real -> real, points: seq<Position>, tx: real, ty: real)
    requires IsSqrt(sqrt) && |points| > 0 && NoneNear(sqrt, points[..|points|], tx, ty)
    ensures NoneNear(sqrt, points, tx, ty)
    ensures FirstNear(sqrt, points, tx, ty) == |points|
    ensures Weights(sqrt, points, tx, ty)[..|points|] == Weights(sqrt, points, tx, ty)
    ensures Heights(points)[..|points|] == Heights(points)
    ensures Sum(Weights(sqrt, points, tx, ty)) > 0.0
    ensures forall lo, hi :: AllBetween(Heights(points), lo, hi) ==>
              lo <= WeightedSum(Weights(sqrt, points, tx, ty), Heights(points))
                    / Sum(Weights(sqrt, points, tx, ty)) <= hi
  {
    assert points[..|points|] == points;
    var ws := Weights(sqrt, points, tx, ty);
    assert ws[..|points|] == ws;
    FirstNearNone(sqrt, points, tx, ty);
    assert AllPositive(ws) by {
      forall i | 0 <= i < |ws| ensures ws[i] > 0.0 {
        assert PlanarDist(sqrt, points[i], tx, ty) >= NEAR;
      }
    }
    MeanBetween(ws, Heights(points));
  }

  lemma FirstNearAt(sqrt: real -> real, points: seq<Position>, tx: real, ty: real, i: nat)
    requires IsSqrt(sqrt)
    requires i < |points| && NoneNear(sqrt, points[..i], tx, ty)
    requires PlanarDist(sqrt, points[i], tx, ty) < NEAR
    ensures FirstNear(sqrt, points, tx, ty) == i
  {
  }

  lemma FirstNearNone(sqrt: real -> real, points: seq<Position>, tx: real, ty: real)
    requires IsSqrt(sqrt) && NoneNear(sqrt, points, tx, ty)
    ensures FirstNear(sqrt, points, tx, ty) == |points|
  {
  }
}
