/** The `order(...)` clauses of the list queries. The store sorts; the model
    sorts by a lexicographic rank with an insertion sort and proves the
    result ordered and a permutation of its input. The store's order among
    rows with equal keys is unspecified, and so is the model's. */
module Sorting {

  /** A two-level sort key, compared major first. */
  datatype Rank = Rank(major: int, minor: int)

  predicate RankLe(a: Rank, b: Rank) {
    a.major < b.major || (a.major == b.major && a.minor <= b.minor)
  }

  predicate Sorted<T>(s: seq<T>, rank: T -> Rank) {
    forall i, j :: 0 <= i < j < |s| ==> RankLe(rank(s[i]), rank(s[j]))
  }

  function Insert<T>(x: T, s: seq<T>, rank: T -> Rank): (r: seq<T>)
    requires Sorted(s, rank)
    ensures Sorted(r, rank)
    ensures multiset(r) == multiset(s) + multiset{x}
    ensures forall y :: y in r ==> y == x || y in s
    decreases |s|
  {
    if |s| == 0 then [x]
    else if RankLe(rank(x), rank(s[0])) then [x] + s
    else
      assert s == [s[0]] + s[1..];
      var rest := Insert(x, s[1..], rank);
      assert forall k :: 0 <= k < |rest| ==> RankLe(rank(s[0]), rank(rest[k])) by {
        forall k | 0 <= k < |rest|
          ensures RankLe(rank(s[0]), rank(rest[k]))
        {
          var y := rest[k];
          assert y in rest;
          if y != x {
            var m :| 0 <= m < |s[1..]| && s[1..][m] == y;
            assert s[m + 1] == y;
          }
        }
      }
      [s[0]] + rest
  }

  /** The rows in rank order: an ordered permutation of the input. */
  function SortBy<T>(s: seq<T>, rank: T -> Rank): (r: seq<T>)
    ensures Sorted(r, rank)
    ensures multiset(r) == multiset(s)
    ensures |r| == |s|
    decreases |s|
  {
    if |s| == 0 then []
    else
      assert s == [s[0]] + s[1..];
      Insert(s[0], SortBy(s[1..], rank), rank)
  }
}
