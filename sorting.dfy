/**
 * A stable sort, standing for the standard library's `sort_by` (Rust) and
 * `sorted` (Python) wherever the analysed code sorts a list by a comparison.
 */
module Sorting {

  /** `le` is a total preorder: every pair is comparable and it is transitive. */
  ghost predicate TotalPreorder<T(!new)>(le: (T, T) -> bool) {
    && (forall a, b :: le(a, b) || le(b, a))
    && (forall a, b, c :: le(a, b) && le(b, c) ==> le(a, c))
  }

  ghost predicate SortedBy<T>(s: seq<T>, le: (T, T) -> bool) {
    forall i, j :: 0 <= i < j < |s| ==> le(s[i], s[j])
  }

  /** `a` and `b` are equivalent under `le`: neither is ordered strictly before the other. */
  ghost predicate Equivalent<T>(a: T, b: T, le: (T, T) -> bool) {
    le(a, b) && le(b, a)
  }

  /** The elements of `s` equivalent to `x` under `le`, in their order in `s`. */
  ghost function EquivalentsOf<T>(s: seq<T>, x: T, le: (T, T) -> bool): seq<T> {
    if s == [] then []
    else (if Equivalent(s[0], x, le) then [s[0]] else []) + EquivalentsOf(s[1..], x, le)
  }

  /** Inserts `x` before the first element it is not greater than. */
  function Insert<T(!new)>(x: T, s: seq<T>, le: (T, T) -> bool): (r: seq<T>)
    requires TotalPreorder(le) && SortedBy(s, le)
    ensures multiset(r) == multiset(s) + multiset{x}
    ensures SortedBy(r, le)
  {
    if s == [] || le(x, s[0]) then
      assert forall j :: 0 < j < |s| ==> le(s[0], s[j]);
      [x] + s
    else
      var rest := Insert(x, s[1..], le);
      ConsAfterHead(x, s, rest, le);
      [s[0]] + rest
  }

  /** `x` goes in before every element equivalent to it, so among equivalents it comes first. */
  lemma {:induction false} InsertStable<T(!new)>(x: T, s: seq<T>, le: (T, T) -> bool, y: T)
    requires TotalPreorder(le) && SortedBy(s, le)
    ensures EquivalentsOf(Insert(x, s, le), y, le) == (if Equivalent(x, y, le) then [x] else []) + EquivalentsOf(s, y, le)
  {
    var r := Insert(x, s, le);
    var ex := if Equivalent(x, y, le) then [x] else [];
    if s == [] || le(x, s[0]) {
      assert r == [x] + s && r[1..] == s;
    } else {
      var rest := Insert(x, s[1..], le);
      var e0 := if Equivalent(s[0], y, le) then [s[0]] else [];
      assert r == [s[0]] + rest && r[1..] == rest;
      assert EquivalentsOf(r, y, le) == e0 + EquivalentsOf(rest, y, le);
      InsertStable(x, s[1..], le, y);
      assert EquivalentsOf(rest, y, le) == ex + EquivalentsOf(s[1..], y, le);
      assert EquivalentsOf(s, y, le) == e0 + EquivalentsOf(s[1..], y, le);
      // Equivalent to both, x would be ordered before s[0].
      var h := s[0];
      assert le(x, y) && le(y, h) ==> le(x, h);
      assert e0 == [] || ex == [];
      assert e0 + ex == ex + e0;
    }
  }

  /** The head of `s`, put before the insertion of `x` into the tail, keeps the result ordered. */
  lemma ConsAfterHead<T(!new)>(x: T, s: seq<T>, rest: seq<T>, le: (T, T) -> bool)
    requires TotalPreorder(le) && SortedBy(s, le) && s != [] && !le(x, s[0])
    requires multiset(rest) == multiset(s[1..]) + multiset{x} && SortedBy(rest, le)
    ensures multiset([s[0]] + rest) == multiset(s) + multiset{x}
    ensures SortedBy([s[0]] + rest, le)
  {
    assert s == [s[0]] + s[1..];
    forall y | y in multiset(rest) ensures le(s[0], y) {
      if y != x {
        assert y in multiset(s[1..]);
        var k :| 0 <= k < |s[1..]| && s[1..][k] == y;
        assert s[k + 1] == y;
      }
    }
    assert forall j :: 0 <= j < |rest| ==> rest[j] in multiset(rest);
  }

  /**
   * A stable sort: the result is ordered by `le` and a permutation of `s`,
   * and the elements of each class of equivalent elements keep their
   * relative order.
   */
  function SortBy<T(!new)>(s: seq<T>, le: (T, T) -> bool): (r: seq<T>)
    requires TotalPreorder(le)
    ensures multiset(r) == multiset(s)
    ensures |r| == |s|
    ensures SortedBy(r, le)
    ensures forall y :: EquivalentsOf(r, y, le) == EquivalentsOf(s, y, le)
  {
    if s == [] then []
    else
      assert s == [s[0]] + s[1..];
      var rest := SortBy(s[1..], le);
      assert forall y :: EquivalentsOf(Insert(s[0], rest, le), y, le) == EquivalentsOf(s, y, le) by {
        forall y ensures EquivalentsOf(Insert(s[0], rest, le), y, le) == EquivalentsOf(s, y, le) {
          InsertStable(s[0], rest, le, y);
        }
      }
      Insert(s[0], rest, le)
  }

  /** Splitting a sequence splits its multiset. */
  lemma MultisetOfSplit<T>(s: seq<T>, k: nat)
    requires k <= |s|
    ensures multiset(s[..k]) + multiset(s[k..]) == multiset(s)
  {
    assert s == s[..k] + s[k..];
  }
}
