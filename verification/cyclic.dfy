/** Wrap-around index arithmetic on `n` slots, as the carousel and the
    testimonials rotate through their items: `(i + 1) % n` forward and
    `(i - 1 + n) % n` back. */
module Cyclic {
  import opened Arith

  predicate InRange(i: int, n: int) {
    0 <= i < n
  }

  function Succ(i: int, n: int): (j: int)
    requires InRange(i, n)
    ensures InRange(j, n)
    ensures j == if i == n - 1 then 0 else i + 1
  {
    (i + 1) % n
  }

  function Pred(i: int, n: int): (j: int)
    requires InRange(i, n)
    ensures InRange(j, n)
    ensures j == if i == 0 then n - 1 else i - 1
  {
    (i - 1 + n) % n
  }

  /** Back then forward, or forward then back, is the identity. */
  lemma SuccPredInverse(i: int, n: int)
    requires InRange(i, n)
    ensures Pred(Succ(i, n), n) == i
    ensures Succ(Pred(i, n), n) == i
  {
  }

  /** `k` forward steps from `i`. */
  function Steps(i: int, n: int, k: nat): (j: int)
    requires InRange(i, n)
    ensures InRange(j, n)
    decreases k
  {
    if k == 0 then i else Succ(Steps(i, n, k - 1), n)
  }

  /** One step from the remainder of `a` is the remainder of `a + 1`. */
  lemma SuccOfRemainder(a: int, n: int)
    requires n >= 1
    ensures Succ(a % n, n) == (a + 1) % n
  {
    var q, j := a / n, a % n;
    var base := q * n;
    assert a == base + j;
    if j == n - 1 {
      assert (q + 1) * n == base + n;
      ModBetween(a + 1, n, q + 1);
    } else {
      ModBetween(a + 1, n, q);
    }
  }

  /** `k` steps land on `(i + k) mod n`. */
  lemma {:induction false} StepsLandOn(i: int, n: int, k: nat)
    requires InRange(i, n)
    ensures Steps(i, n, k) == (i + k) % n
    decreases k
  {
    if k == 0 {
      ModBetween(i, n, 0);
    } else {
      StepsLandOn(i, n, k - 1);
      SuccOfRemainder(i + k - 1, n);
    }
  }

  /** `n` steps go once round and back to the start. */
  lemma FullTurn(i: int, n: int)
    requires InRange(i, n)
    ensures Steps(i, n, n) == i
  {
    StepsLandOn(i, n, n);
    ModBetween(i + n, n, 1);
  }

  /** The slots `0 .. m-1`. */
  function Below(m: nat): (r: set<int>)
    ensures forall i :: i in r <==> 0 <= i < m
    ensures |r| == m
    decreases m
  {
    if m == 0 then {} else Below(m - 1) + {m - 1}
  }
}
