/** Remainders of ever-growing counters taken modulo the size of a ring. */
module Remainders {

  lemma MulAtLeast(a: int, n: nat)
    requires a >= 1
    ensures a * n >= n
  {
    assert (a - 1) * n >= 0;
  }

  lemma QuotientOrder(q: nat, r: nat, q': nat, r': nat, n: nat)
    requires r < n && r' < n && q * n + r == q' * n + r'
    ensures q <= q'
  {
    assert (q - q') * n == q * n - q' * n;
    if q > q' { MulAtLeast(q - q', n); }
  }

  lemma RemainderUnique(k: nat, n: nat, q: nat, r: nat)
    requires r < n && k == q * n + r
    ensures k % n == r
  {
    var q', r' := k / n, k % n;
    assert k == n * q' + r';
    QuotientOrder(q, r, q', r', n);
    QuotientOrder(q', r', q, r, n);
  }

  lemma AddTurn(k: nat, n: nat)
    requires n > 0
    ensures (k + n) % n == k % n
  {
    assert k == (k / n) * n + k % n;
    assert (k / n + 1) * n == (k / n) * n + n;
    RemainderUnique(k + n, n, k / n + 1, k % n);
  }

  lemma NextRemainder(k: nat, n: nat)
    requires n > 0
    ensures (k % n + 1) % n == (k + 1) % n == if k % n + 1 == n then 0 else k % n + 1
  {
    assert k == (k / n) * n + k % n;
    if k % n + 1 == n {
      assert (k / n + 1) * n == (k / n) * n + n;
      RemainderUnique(k + 1, n, k / n + 1, 0);
    } else {
      RemainderUnique(k + 1, n, k / n, k % n + 1);
      RemainderUnique(k % n + 1, n, 0, k % n + 1);
    }
  }

  /** Within one turn of the ring an index identifies its counter. */
  lemma SameIndexSameTicket(a: nat, b: nat, n: nat)
    requires n > 0 && a <= b < a + n && a % n == b % n
    ensures a == b
  {
    var d := b - a;
    assert a == (a / n) * n + a % n;
    if a % n + d < n {
      RemainderUnique(b, n, a / n, a % n + d);
    } else {
      assert (a / n + 1) * n == (a / n) * n + n;
      RemainderUnique(b, n, a / n + 1, a % n + d - n);
    }
  }

  /** The index after i on a ring of n slots. */
  lemma WrapAround(i: nat, n: nat)
    requires i < n
    ensures (i + 1) % n == if i + 1 == n then 0 else i + 1
  {
    if i + 1 < n { RemainderUnique(i + 1, n, 0, i + 1); }
  }

  lemma QuotientUnique(n: nat, d: nat, t: nat, r: nat)
    requires n == t * d + r && r < d
    ensures n / d == t
  {
    assert n == (n / d) * d + n % d;
    QuotientOrder(n / d, n % d, t, r, d);
    QuotientOrder(t, r, n / d, n % d, d);
  }

  /** Dividing by one number and then by another is dividing by their product. */
  lemma DivideTwice(n: nat, a: nat, b: nat)
    requires a > 0 && b > 0
    ensures a * b > 0 && n / a / b == n / (a * b)
  {
    var q := n / a;
    assert n == a * q + n % a;
    assert q == b * (q / b) + q % b;
    QuotientByProduct(n, a, b, q, n % a, q / b, q % b);
  }

  lemma QuotientByProduct(n: nat, a: nat, b: nat, q: nat, r: nat, t: nat, u: nat)
    requires n == a * q + r && r < a && q == b * t + u && u < b
    ensures a * b > 0 && n / (a * b) == t
  {
    Nested(a, b, t, u, q);
    UnderProduct(a, b, u, r);
    QuotientUnique(n, a * b, t, a * u + r);
  }

  lemma Nested(a: nat, b: nat, t: nat, u: nat, q: nat)
    requires q == b * t + u
    ensures a * q == t * (a * b) + a * u
  {
    assert a * q == a * (b * t) + a * u;
    assert a * (b * t) == t * (a * b);
  }

  lemma UnderProduct(a: nat, b: nat, u: nat, r: nat)
    requires r < a && u < b
    ensures a * u + r < a * b
  {
    assert a * b == a * u + a * (b - u);
    MulAtLeast(b - u, a);
    assert a * (b - u) == (b - u) * a;
  }
}
