/** Positions in a ring of `m` cells: the cell that the `j`-th item ever written occupies. */
module Ring {

  function Wrap(j: nat, m: nat): (r: nat)
    requires m > 0
    ensures r < m
  {
    if j < m then j else Wrap(j - m, m)
  }

  lemma {:induction false} WrapStep(j: nat, m: nat)
    requires m > 0
    ensures Wrap(j + 1, m) == if Wrap(j, m) + 1 == m then 0 else Wrap(j, m) + 1
  {
    if j >= m {
      WrapStep(j - m, m);
    }
  }

  /** A step of `d` cells from a position a multiple of `d` from the start never crosses the ring's end. */
  lemma {:induction false} WrapAdd(j: nat, d: nat, m: nat)
    requires 0 < m && Wrap(j, m) + d <= m
    ensures Wrap(j + d, m) == if Wrap(j, m) + d == m then 0 else Wrap(j, m) + d
  {
    if j >= m {
      WrapAdd(j - m, d, m);
    }
  }

  lemma {:induction false} WrapAligned(j: nat, m: nat)
    requires 0 < m && m % 512 == 0 && j % 512 == 0
    ensures Wrap(j, m) % 512 == 0
  {
    if j >= m {
      WrapAligned(j - m, m);
    }
  }

  /** Items less than a ring apart sit in different cells. */
  lemma {:induction false} WrapApart(i: nat, j: nat, m: nat)
    requires 0 < m && i < j < i + m
    ensures Wrap(i, m) != Wrap(j, m)
    ensures Wrap(j, m) == if Wrap(i, m) + (j - i) < m then Wrap(i, m) + (j - i) else Wrap(i, m) + (j - i) - m
  {
    if i >= m {
      WrapApart(i - m, j - m, m);
    }
  }

  /** The distance from `i` forward to `j` is what the pointer arithmetic `(wp + n - rp) % n` computes. */
  lemma WrapDistance(i: nat, j: nat, m: nat)
    requires 0 < m && i <= j < i + m
    ensures Wrap(2 * Wrap(j, m) + 2 * m - 2 * Wrap(i, m), 2 * m) == 2 * (j - i)
  {
    if i < j {
      WrapApart(i, j, m);
    }
  }

  /** `Wrap` is the remainder. */
  lemma {:induction false} WrapIsRemainder(j: nat, m: nat)
    requires 0 < m
    ensures Wrap(j, m) == j % m
  {
    if j >= m {
      WrapIsRemainder(j - m, m);
      var q := (j - m) / m;
      assert (q + 1) * m == q * m + m;
      RemainderUnique(j, m, q + 1, (j - m) % m);
    } else {
      RemainderUnique(j, m, 0, j);
    }
  }

  lemma RemainderUnique(x: int, n: nat, q: int, r: nat)
    requires r < n && x == q * n + r
    ensures x % n == r
  {
    var d := x / n - q;
    assert d * n == (x / n) * n - q * n;
    MulBounds(d, n);
  }

  lemma MulBounds(d: int, n: nat)
    ensures 1 <= d ==> n <= d * n
    ensures d <= -1 ==> d * n <= 0 - n
  {
  }
}
