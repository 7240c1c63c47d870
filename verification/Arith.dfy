/** Division and remainder from a known quotient. */
module Arith {
  lemma Multiple(z: int, n: nat)
    requires n > 0
    ensures !(0 < z * n < n)
    ensures z * n == 0 ==> z == 0
  {
    assert z >= 1 ==> z * n >= n;
    assert z <= -1 ==> z * n <= 0 - n;
  }

  /** A quotient and a small remainder are the ones. */
  lemma DivMod(x: int, n: nat, q: int, r: nat)
    requires r < n && x == q * n + r
    ensures x / n == q && x % n == r
  {
    var t, rest := x / n, x % n;
    assert x == t * n + rest;
    assert (t - q) * n == t * n - q * n && (q - t) * n == q * n - t * n;
    Multiple(t - q, n);
    Multiple(q - t, n);
  }

  lemma ModNext(x: nat, n: nat)
    requires n > 0
    ensures (x + 1) % n == if x % n + 1 == n then 0 else x % n + 1
    ensures (x + 1) / n == if x % n + 1 == n then x / n + 1 else x / n
  {
    var q, r := x / n, x % n;
    assert x == q * n + r;
    if r + 1 == n {
      assert (q + 1) * n == q * n + n;
      DivMod(x + 1, n, q + 1, 0);
    } else {
      DivMod(x + 1, n, q, r + 1);
    }
  }

  /** Adding within the lap. */
  lemma ModAdd(x: nat, k: nat, n: nat)
    requires n > 0 && x % n + k < n
    ensures (x + k) % n == x % n + k && (x + k) / n == x / n
  {
    assert x == x / n * n + x % n;
    DivMod(x + k, n, x / n, x % n + k);
  }

  lemma ModSmall(x: nat, n: nat)
    requires x < n
    ensures x % n == x && x / n == 0
  {
    DivMod(x, n, 0, x);
  }

  lemma Twice(x: int, p: int)
    ensures x * (2 * p) == 2 * (x * p)
  {
  }
}
