/** Facts about Euclidean division that the page and slide arithmetic
    lean on. */
module Arith {

  lemma {:induction false} MulAtLeast(x: int, y: int)
    requires x >= 1 && y >= 0
    ensures x * y >= y
    decreases x
  {
    if x > 1 {
      MulAtLeast(x - 1, y);
      assert x * y == (x - 1) * y + y;
    }
  }

  /** Euclidean division is pinned down by the interval it lands in. */
  lemma DivBetween(i: int, limit: int, q: int)
    requires limit >= 1 && q * limit <= i < q * limit + limit
    ensures i / limit == q
  {
    var d := i / limit;
    var r := i % limit;
    assert d * limit + r == i && 0 <= r < limit;
    var e := i - q * limit;
    assert (d - q) * limit == e - r by {
      assert (d - q) * limit == d * limit - q * limit;
    }
    if d - q >= 1 {
      MulAtLeast(d - q, limit);
    } else if q - d >= 1 {
      MulAtLeast(q - d, limit);
    }
  }

  /** The remainder is pinned down the same way. */
  lemma ModBetween(i: int, n: int, q: int)
    requires n >= 1 && q * n <= i < q * n + n
    ensures i % n == i - q * n
  {
    DivBetween(i, n, q);
  }
}
