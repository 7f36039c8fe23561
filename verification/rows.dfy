/** Tables of the store as sequences of rows in storage order, and the
    three query shapes the handlers use on them: filter, update-where and
    the `.single()` lookup that succeeds only on exactly one match. */
module Rows {
  import opened Common

  /** The rows satisfying `p`, in table order. */
  function Filter<T(!new)>(s: seq<T>, p: T -> bool): (r: seq<T>)
    ensures |r| <= |s|
    ensures forall i :: 0 <= i < |r| ==> p(r[i]) && r[i] in s
    decreases |s|
  {
    if |s| == 0 then []
    else
      var last := s[|s| - 1];
      assert s == s[..|s| - 1] + [last];
      Filter(s[..|s| - 1], p) + (if p(last) then [last] else [])
  }

  /** No matching row is dropped. */
  lemma {:induction false} FilterComplete<T(!new)>(s: seq<T>, p: T -> bool, x: T)
    requires x in s && p(x)
    ensures x in Filter(s, p)
    decreases |s|
  {
    var n := |s| - 1;
    if s[n] != x {
      assert x in s[..n];
      FilterComplete(s[..n], p, x);
    }
  }

  /** A row survives the filter exactly when it is in the table and matches. */
  lemma FilterMembers<T(!new)>(s: seq<T>, p: T -> bool)
    ensures forall x :: x in Filter(s, p) <==> x in s && p(x)
  {
    forall x | x in s && p(x)
      ensures x in Filter(s, p)
    {
      FilterComplete(s, p, x);
    }
  }

  /** Appending a row appends it to the filtered rows when it matches. */
  lemma FilterSnoc<T(!new)>(s: seq<T>, y: T, p: T -> bool)
    ensures Filter(s + [y], p) == Filter(s, p) + (if p(y) then [y] else [])
  {
    assert (s + [y])[..|s|] == s;
  }

  /** Positions of the rows satisfying `p`. */
  function Positions<T>(s: seq<T>, p: T -> bool): set<int> {
    set i | 0 <= i < |s| && p(s[i])
  }

  /** `rows.filter(p).length` is the number of matching positions. */
  lemma {:induction false} FilterCountsPositions<T(!new)>(s: seq<T>, p: T -> bool)
    ensures |Filter(s, p)| == |Positions(s, p)|
    decreases |s|
  {
    if |s| > 0 {
      var n := |s| - 1;
      var init := s[..n];
      FilterCountsPositions(init, p);
      assert Filter(s, p) == Filter(init, p) + (if p(s[n]) then [s[n]] else []);
      var before := Positions(init, p);
      assert forall i :: 0 <= i < n ==> init[i] == s[i];
      assert n !in before;
      if p(s[n]) {
        assert Positions(s, p) == before + {n};
      } else {
        assert Positions(s, p) == before;
      }
    } else {
      assert Positions(s, p) == {};
    }
  }

  /** No two rows share a key. */
  ghost predicate DistinctBy<T, K>(s: seq<T>, key: T -> K) {
    forall i, j :: 0 <= i < j < |s| ==> key(s[i]) != key(s[j])
  }

  /** Deleting rows keeps keys distinct. */
  lemma {:induction false} FilterKeepsDistinct<T(!new), K>(s: seq<T>, p: T -> bool, key: T -> K)
    requires DistinctBy(s, key)
    ensures DistinctBy(Filter(s, p), key)
    decreases |s|
  {
    if |s| > 0 {
      var n := |s| - 1;
      var init := s[..n];
      FilterKeepsDistinct(init, p, key);
      var kept := Filter(init, p);
      assert Filter(s, p) == kept + (if p(s[n]) then [s[n]] else []);
      if p(s[n]) {
        forall i | 0 <= i < |kept|
          ensures key(kept[i]) != key(s[n])
        {
          assert kept[i] in init;
          var m :| 0 <= m < n && init[m] == kept[i];
          assert s[m] == kept[i];
        }
      }
    }
  }

  /** When no two rows both match, at most one survives the filter. */
  lemma AtMostOneMatch<T(!new)>(s: seq<T>, p: T -> bool)
    requires forall i, j :: 0 <= i < j < |s| && p(s[i]) ==> !p(s[j])
    ensures |Filter(s, p)| <= 1
  {
    FilterCountsPositions(s, p);
    var hits := Positions(s, p);
    if hits != {} {
      var i0 :| i0 in hits;
      assert hits == {i0};
    }
  }

  /** `.single()`: the matching row when there is exactly one, else nothing. */
  function Single<T(!new)>(s: seq<T>, p: T -> bool): (r: Option<T>)
    ensures r.Some? <==> |Filter(s, p)| == 1
    ensures r.Some? ==> r.value in s && p(r.value)
    ensures r.Some? ==> forall x :: x in s && p(x) ==> x == r.value
  {
    var m := Filter(s, p);
    if |m| == 1 then
      assert forall x :: x in s && p(x) ==> x == m[0] by {
        forall x | x in s && p(x) {
          FilterComplete(s, p, x);
        }
      }
      Some(m[0])
    else None
  }

  /** `update(...).eq(...)`: rewrite every row satisfying `p` with `f`. */
  function Update<T>(s: seq<T>, p: T -> bool, f: T -> T): (r: seq<T>)
    ensures |r| == |s|
    ensures forall i :: 0 <= i < |s| && p(s[i]) ==> r[i] == f(s[i])
    ensures forall i :: 0 <= i < |s| && !p(s[i]) ==> r[i] == s[i]
  {
    seq(|s|, i requires 0 <= i < |s| => if p(s[i]) then f(s[i]) else s[i])
  }
}
