/** Facts about divisibility by a variable. */
module Multiples {

  lemma QuotientIsUnique(x: int, n: nat, q: int, r: nat)
    requires r < n && x == n * q + r
    ensures x / n == q && x % n == r
  {
    var d := q - x / n;
    assert n * d == n * q - n * (x / n);
    assert d >= 1 ==> n * d >= n;
    assert d <= -1 ==> n * d <= -(n as int);
  }

  lemma QuotientTimesDivisor(x: nat, n: nat)
    requires 0 < n && x % n == 0
    ensures x / n * n == x
  {
  }

  lemma MultipleIsDivisible(n: nat, k: int)
    requires 0 < n
    ensures (n * k) % n == 0
  {
    QuotientIsUnique(n * k, n, k, 0);
  }

  lemma SumOfMultiples(x: nat, y: nat, n: nat)
    requires 0 < n && x % n == 0 && y % n == 0
    ensures (x + y) % n == 0
  {
    assert x + y == n * (x / n + y / n);
    MultipleIsDivisible(n, x / n + y / n);
  }

  lemma DifferenceOfMultiples(x: nat, y: nat, n: nat)
    requires 0 < n && y <= x && x % n == 0 && y % n == 0
    ensures (x - y) % n == 0
  {
    assert x - y == n * (x / n - y / n);
    MultipleIsDivisible(n, x / n - y / n);
  }

  lemma MultipleOfMultiple(x: nat, n: nat, m: nat)
    requires 0 < n && 0 < m && m % n == 0 && x % m == 0
    ensures x % n == 0
  {
    var a, b := x / m, m / n;
    assert x == m * a && m == n * b;
    assert x == n * (b * a) by { assert n * b * a == n * (b * a); }
    MultipleIsDivisible(n, b * a);
  }

  lemma ScaledMultiple(x: nat, i: nat, n: nat)
    requires 0 < n && x % n == 0
    ensures (i * x) % n == 0
  {
    var a := x / n;
    assert i * x == n * (a * i) by { assert x == n * a; assert i * (n * a) == n * (a * i); }
    MultipleIsDivisible(n, a * i);
  }

  lemma MultipleBelow(x: nat, n: nat)
    requires 0 < n
    ensures 0 <= x - x % n <= x < x - x % n + n && (x - x % n) % n == 0
  {
    assert x - x % n == n * (x / n);
    MultipleIsDivisible(n, x / n);
  }

  /** Two different multiples of n are at least n apart. */
  lemma MultiplesAreApart(x: nat, y: nat, n: nat)
    requires 0 < n && x % n == 0 && y % n == 0 && x < y
    ensures x + n <= y
  {
    var d := y / n - x / n;
    assert y - x == n * d;
    assert d <= 0 ==> n * d <= 0;
    assert n * d >= n;
  }
}
