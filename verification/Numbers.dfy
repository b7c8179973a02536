/** Small functions on integers. */
module Numbers {
  function Abs(x: int): nat { if x >= 0 then x else -x }

  function Min(x: int, y: int): int { if x <= y then x else y }

  function Max(x: int, y: int): int { if x <= y then y else x }

  function SumOf(xs: seq<int>): int { if xs == [] then 0 else xs[0] + SumOf(xs[1..]) }

  lemma NegateProduct(n: int, q: int)
    ensures n * -q == -(n * q)
  {
  }

  lemma Distributes(n: int, a: int, k: int)
    ensures n * (a + 1 + k) == n * a + n + n * k
  {
  }

  lemma MultiplesApart(n: nat, a: int, b: int)
    ensures a < b ==> n * a + n <= n * b
  {
    if a < b {
      var k: nat := b - a - 1;
      Distributes(n, a, k);
      assert n * k >= 0;
    }
  }

  lemma QuotientAndRest(x: nat, n: nat, q: nat, r: nat)
    requires r < n && x == n * q + r
    ensures x / n == q && x % n == r
  {
    assert x == n * (x / n) + x % n;
    MultiplesApart(n, x / n, q);
    MultiplesApart(n, q, x / n);
  }

  lemma NextQuotient(x: nat, n: nat)
    requires n > 0
    ensures (x + 1) / n == x / n + if (x + 1) % n == 0 then 1 else 0
  {
    var q, r := x / n, x % n;
    if r + 1 < n {
      QuotientAndRest(x + 1, n, q, r + 1);
    } else {
      assert n * (q + 1) == n * q + n;
      QuotientAndRest(x + 1, n, q + 1, 0);
    }
  }

  lemma OnePeriodMore(x: nat, n: nat)
    requires n > 0
    ensures (x + n) % n == x % n && (x < n ==> x % n == x)
  {
    assert n * (x / n + 1) == n * (x / n) + n;
    QuotientAndRest(x + n, n, x / n + 1, x % n);
  }
}
