/** Facts about quotients and remainders. */
module Division {
  lemma Quotient(a: int, b: int, q: int, r: int)
    requires a == b * q + r && 0 <= r < b
    ensures a / b == q && a % b == r
  {
    assert b * (a / b) + a % b == a;
    var d := a / b - q;
    assert b * d == r - a % b by {
      assert b * d == b * (a / b) - b * q;
    }
    assert d >= 1 ==> b * d >= b;
    assert d <= -1 ==> b * d <= -b;
  }

  lemma SameRemainder(a: int, b: int, n: nat)
    requires n > 0
    ensures (a + b) % n == (a % n + b) % n
  {
    var q := (a % n + b) / n;
    assert a == n * (a / n) + a % n;
    assert a % n + b == n * q + (a % n + b) % n;
    assert n * (a / n + q) == n * (a / n) + n * q;
    Quotient(a + b, n, a / n + q, (a % n + b) % n);
  }

  lemma Cancel(c: nat, x: nat, y: nat)
    requires c > 0 && c * x >= y * c
    ensures x >= y
  {
    assert c * (y - x) == y * c - c * x;
    assert y > x ==> c * (y - x) > 0;
  }

  lemma AtLeast(a: nat, b: nat, q: nat)
    requires b > 0 && a >= b * q
    ensures a / b >= q
  {
    assert a == b * (a / b) + a % b;
    var d := q - a / b;
    assert b * d == b * q - b * (a / b);
    assert d >= 1 ==> b * d >= b;
  }

  lemma SameClass(a: nat, b: nat, n: nat)
    requires a <= b < a + n && a % n == b % n
    ensures a == b
  {
    var p, q := a / n, b / n;
    assert a == n * p + a % n && b == n * q + b % n;
    var d := q - p;
    assert n * d == n * q - n * p;
    assert d >= 1 ==> n * d >= n;
    assert d <= -1 ==> n * d + n <= 0;
  }
}
