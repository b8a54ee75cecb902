/** Remainders. */
module Modulo {

  lemma MulLe(a: int, b: int, n: nat)
    requires a <= b
    ensures a * n <= b * n
  {
    assert (b - a) * n >= 0;
  }

  lemma ModUnique(x: int, q: int, r: int, n: nat)
    requires n > 0 && x == q * n + r && 0 <= r < n
    ensures x % n == r && x / n == q
  {
    var q', r' := x / n, x % n;
    assert x == q' * n + r' && 0 <= r' < n;
    if q < q' {
      MulLe(q + 1, q', n);
    } else if q' < q {
      MulLe(q' + 1, q, n);
    }
  }

  lemma ModMultiple(q: int, r: int, n: nat)
    requires n > 0
    ensures (q * n + r) % n == r % n
  {
    assert r == (r / n) * n + r % n;
    assert q * n + r == (q + r / n) * n + r % n;
    ModUnique(q * n + r, q + r / n, r % n, n);
  }

  lemma AddMod(x: nat, i: nat, n: nat)
    requires n > 0
    ensures (x % n + i) % n == (x + i) % n
  {
    assert x + i == (x / n) * n + (x % n + i);
    ModMultiple(x / n, x % n + i, n);
  }
}
