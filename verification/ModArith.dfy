/** Remainders by a variable ring size, from the little multiplication the solver needs. */
module ModArith {

  /** The index after `i` in a ring of `n` slots. */
  function Next(i: nat, n: nat): (r: nat)
    requires i < n
    ensures r == if i + 1 == n then 0 else i + 1
  {
    (i + 1) % n
  }

  lemma MulAtLeast(k: int, n: nat)
    requires k >= 1
    ensures k * n >= n
  {
    assert k * n == n + (k - 1) * n;
  }

  lemma QuotientUnique(q: int, q': int, r: int, r': int, n: nat)
    requires 0 <= r < n && 0 <= r' < n && q * n + r == q' * n + r'
    ensures q == q' && r == r'
  {
    assert (q - q') * n == r' - r;
    if q > q' {
      MulAtLeast(q - q', n);
    } else if q < q' {
      assert (q' - q) * n == r - r';
      MulAtLeast(q' - q, n);
    }
  }

  lemma ModUnique(x: nat, q: int, r: nat, n: nat)
    requires r < n && x == q * n + r
    ensures x % n == r && x / n == q
  {
    QuotientUnique(q, x / n, r, x % n, n);
  }

  lemma ModOfSmall(x: nat, n: nat)
    requires x < n
    ensures x % n == x
  {
    ModUnique(x, 0, x, n);
  }

  lemma ModPlusOne(a: nat, n: nat)
    requires n > 0
    ensures (a + 1) % n == if a % n + 1 == n then 0 else a % n + 1
  {
    var q, r := a / n, a % n;
    if r + 1 == n {
      assert a + 1 == (q + 1) * n;
      ModUnique(a + 1, q + 1, 0, n);
    } else {
      ModUnique(a + 1, q, r + 1, n);
    }
  }

  lemma SameResidue(a: nat, x: nat, y: nat, n: nat)
    requires x < n && y < n && (a + x) % n == (a + y) % n
    ensures x == y
  {
    var q, q', r := (a + x) / n, (a + y) / n, (a + x) % n;
    assert a + x == q * n + r && a + y == q' * n + r;
    assert (q - q') * n == x - y;
    if q > q' {
      MulAtLeast(q - q', n);
    } else if q < q' {
      assert (q' - q) * n == y - x;
      MulAtLeast(q' - q, n);
    }
  }

  /** Moving `k < n` places forward from `a` in the ring. */
  lemma ModPlus(a: nat, k: nat, n: nat)
    requires k < n
    ensures (a + k) % n == if a % n + k < n then a % n + k else a % n + k - n
  {
    var q, r := a / n, a % n;
    if r + k < n {
      ModUnique(a + k, q, r + k, n);
    } else {
      assert a + k == (q + 1) * n + (r + k - n);
      ModUnique(a + k, q + 1, r + k - n, n);
    }
  }
}
