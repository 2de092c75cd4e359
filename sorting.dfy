/**
 * Python's `list.sort(key=...)` as a stable insertion sort over a total
 * preorder: the views sort their results with it.
 */
module Sorting {

  ghost predicate TotalPreorder<T(!new)>(le: (T, T) -> bool) {
    && (forall a, b :: le(a, b) || le(b, a))
    && (forall a, b, c :: le(a, b) && le(b, c) ==> le(a, c))
  }

  predicate Sorted<T>(s: seq<T>, le: (T, T) -> bool) {
    forall i, j :: 0 <= i < j < |s| ==> le(s[i], s[j])
  }

  /** Places `x` in front of the first element it does not follow. */
  function Insert<T(!new)>(x: T, s: seq<T>, le: (T, T) -> bool): (r: seq<T>)
    requires TotalPreorder(le)
    requires Sorted(s, le)
    ensures multiset(r) == multiset(s) + multiset{x}
    ensures Sorted(r, le)
  {
    if s == [] then [x]
    else if le(x, s[0]) then
      assert forall k :: 0 <= k < |s| ==> le(x, s[k]);
      [x] + s
    else
      var rest := Insert(x, s[1..], le);
      assert s == [s[0]] + s[1..];
      assert forall y :: y in multiset(rest) ==> le(s[0], y) by {
        forall y | y in multiset(rest) ensures le(s[0], y) {
          if y != x {
            assert y in multiset(s[1..]);
            var k :| 0 <= k < |s[1..]| && s[1..][k] == y;
            assert s[k + 1] == y;
          }
        }
      }
      assert forall k :: 0 <= k < |rest| ==> rest[k] in multiset(rest);
      [s[0]] + rest
  }

  /** The elements of `s` in `le` order; equal elements keep their order. */
  function SortBy<T(!new)>(s: seq<T>, le: (T, T) -> bool): (r: seq<T>)
    requires TotalPreorder(le)
    ensures multiset(r) == multiset(s)
    ensures Sorted(r, le)
  {
    if s == [] then []
    else
      assert s == [s[0]] + s[1..];
      Insert(s[0], SortBy(s[1..], le), le)
  }

  /** No two distinct elements of `s` are equivalent under `le`. */
  ghost predicate Separated<T>(s: seq<T>, le: (T, T) -> bool) {
    forall x, y :: x in s && y in s && le(x, y) && le(y, x) ==> x == y
  }

  /** Two sorted permutations of the same separated elements start alike. */
  lemma SortedHeadsAgree<T(!new)>(r: seq<T>, q: seq<T>, le: (T, T) -> bool)
    requires r != [] && multiset(r) == multiset(q)
    requires Sorted(r, le) && Sorted(q, le) && Separated(r, le)
    ensures q != [] && r[0] == q[0]
  {
    assert r[0] in multiset(q);
    assert q[0] in multiset(r);
    var i :| 0 <= i < |q| && q[i] == r[0];
    var j :| 0 <= j < |r| && r[j] == q[0];
    assert j == 0 || le(r[0], r[j]);
    assert i == 0 || le(q[0], q[i]);
  }

  /**
   * When no two distinct elements of the list are equivalent under `le`, the
   * sorted order is the only one: two sorted permutations of the same
   * elements are equal.
   */
  lemma {:induction false} SortedUnique<T(!new)>(r: seq<T>, q: seq<T>, le: (T, T) -> bool)
    requires multiset(r) == multiset(q)
    requires Sorted(r, le) && Sorted(q, le)
    requires Separated(r, le)
    ensures r == q
  {
    if r != [] {
      SortedHeadsAgree(r, q, le);
      assert r == [r[0]] + r[1..];
      assert q == [q[0]] + q[1..];
      assert multiset(r[1..]) == multiset(q[1..]) by {
        assert multiset(r) == multiset{r[0]} + multiset(r[1..]);
        assert multiset(q) == multiset{q[0]} + multiset(q[1..]);
        assert multiset(r[1..]) == multiset(r) - multiset{r[0]};
        assert multiset(q[1..]) == multiset(q) - multiset{q[0]};
      }
      assert Separated(r[1..], le) by {
        forall x | x in r[1..] ensures x in r {
        }
      }
      SortedUnique(r[1..], q[1..], le);
    }
  }
}
