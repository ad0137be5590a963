/** Facts about division and multiplication that the solver does not find. */
module Arithmetic {
  lemma OneMultiple(k: int, p: int)
    requires p > 0
    ensures k * p < p ==> k < 1
  {
    if k >= 1 {
      assert (k - 1) * p >= 0;
    }
  }

  lemma DivUnique(a: int, p: int, q: int)
    requires p > 0 && q * p <= a < q * p + p
    ensures a / p == q && a % p == a - q * p
  {
    var d := a / p;
    assert a == d * p + a % p;
    assert (q - d) * p == q * p - d * p;
    assert (d - q) * p == d * p - q * p;
    OneMultiple(q - d, p);
    OneMultiple(d - q, p);
  }

  lemma DivStep(a: int, p: int)
    requires p > 0
    ensures (a + p) / p == a / p + 1 && (a + p) % p == a % p
  {
    var d := a / p;
    assert a == d * p + a % p;
    assert (d + 1) * p == d * p + p;
    DivUnique(a + p, p, d + 1);
  }

  lemma DivMono(a: int, b: int, p: int)
    requires a <= b && p > 0
    ensures a / p <= b / p
  {
    var x, y := a / p, b / p;
    assert a == x * p + a % p && b == y * p + b % p;
    assert (x - y) * p == x * p - y * p;
    OneMultiple(x - y, p);
  }

  lemma ModSucc(a: int, n: int)
    requires n > 0
    ensures (a % n + 1) % n == (a + 1) % n
  {
    var q, r := a / n, a % n;
    assert a == q * n + r;
    if r + 1 < n {
      DivUnique(a + 1, n, q);
      DivUnique(r + 1, n, 0);
    } else {
      assert (q + 1) * n == q * n + n;
      DivUnique(a + 1, n, q + 1);
      DivUnique(r + 1, n, 1);
    }
  }
}
