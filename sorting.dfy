/**
 * Comparator-based sorting of a copied list, as the views do it. The algorithm of the
 * platform's sort is not modelled: SortBy is one stable insertion sort, used as the
 * specification "a permutation of the input, ordered by the comparator".
 */
module Sorting {

  /**
   * What a sort needs of a comparator: swapping the arguments flips the sign, and "not
   * after" is transitive.
   */
  ghost predicate IsTotalPreorder<T(!new)>(cmp: (T, T) -> int) {
    (forall a, b :: cmp(a, b) > 0 <==> cmp(b, a) < 0)
    && (forall a, b, c :: cmp(a, b) <= 0 && cmp(b, c) <= 0 ==> cmp(a, c) <= 0)
  }

  /** No element comes after a later one. */
  predicate SortedBy<T>(s: seq<T>, cmp: (T, T) -> int) {
    forall i, j :: 0 <= i < j < |s| ==> cmp(s[i], s[j]) <= 0
  }

  /** Insert `x` before the first element it does not come after. */
  function InsertBy<T(!new)>(x: T, s: seq<T>, cmp: (T, T) -> int): (r: seq<T>)
    requires IsTotalPreorder(cmp) && SortedBy(s, cmp)
    ensures SortedBy(r, cmp)
    ensures multiset(r) == multiset(s) + multiset{x}
  {
    if s == [] then [x]
    else if cmp(x, s[0]) <= 0 then
      InsertAtHead(x, s, cmp);
      [x] + s
    else
      var rest := InsertBy(x, s[1..], cmp);
      InsertAfterHead(x, s, rest, cmp);
      [s[0]] + rest
  }

  lemma InsertAtHead<T(!new)>(x: T, s: seq<T>, cmp: (T, T) -> int)
    requires IsTotalPreorder(cmp) && SortedBy(s, cmp) && s != [] && cmp(x, s[0]) <= 0
    ensures SortedBy([x] + s, cmp)
  {
    var r := [x] + s;
    forall i, j | 0 <= i < j < |r| ensures cmp(r[i], r[j]) <= 0 {
      if i == 0 {
        if j > 1 {
          assert cmp(s[0], s[j - 1]) <= 0;
        }
      } else {
        assert r[i] == s[i - 1] && r[j] == s[j - 1];
      }
    }
  }

  lemma InsertAfterHead<T(!new)>(x: T, s: seq<T>, rest: seq<T>, cmp: (T, T) -> int)
    requires IsTotalPreorder(cmp) && SortedBy(s, cmp) && s != [] && cmp(x, s[0]) > 0
    requires SortedBy(rest, cmp) && multiset(rest) == multiset(s[1..]) + multiset{x}
    ensures SortedBy([s[0]] + rest, cmp)
    ensures multiset([s[0]] + rest) == multiset(s) + multiset{x}
  {
    assert s == [s[0]] + s[1..];
    var r := [s[0]] + rest;
    forall i, j | 0 <= i < j < |r| ensures cmp(r[i], r[j]) <= 0 {
      if i == 0 {
        var y := rest[j - 1];
        assert y in multiset(rest);
        if y != x {
          assert y in multiset(s[1..]);
          var k :| 0 <= k < |s[1..]| && s[1..][k] == y;
          assert s[k + 1] == y;
        }
      } else {
        assert r[i] == rest[i - 1] && r[j] == rest[j - 1];
      }
    }
  }

  /** `[...s].sort(cmp)`: a sorted permutation of `s`. */
  function SortBy<T(!new)>(s: seq<T>, cmp: (T, T) -> int): (r: seq<T>)
    requires IsTotalPreorder(cmp)
    ensures SortedBy(r, cmp)
    ensures multiset(r) == multiset(s)
    ensures |r| == |s|
  {
    if s == [] then []
    else
      assert s == [s[0]] + s[1..];
      InsertBy(s[0], SortBy(s[1..], cmp), cmp)
  }
}
