/** The integer arithmetic of the Go runtime: fixed widths, silent wrap-around, division
    that truncates toward zero. Everything else in the project is stated over unbounded
    integers and compared with these. */
module GoInts {
  const MAX_INT64: int := 0x7fff_ffff_ffff_ffff
  const MIN_INT64: int := -0x8000_0000_0000_0000
  const TWO_TO_64: int := 0x1_0000_0000_0000_0000

  predicate IsInt64(x: int) {
    MIN_INT64 <= x <= MAX_INT64
  }

  predicate IsInt32(x: int) {
    -0x8000_0000 <= x <= 0x7fff_ffff
  }

  /** What an int64 operation stores when its exact result is `x`. */
  function Wrap64(x: int): (r: int)
    ensures IsInt64(r)
    ensures IsInt64(x) ==> r == x
    ensures (r - x) % TWO_TO_64 == 0
  {
    var m := x % TWO_TO_64;
    if m > MAX_INT64 then m - TWO_TO_64 else m
  }

  /** Go's `/`: truncates toward zero. */
  function Quo(a: int, b: int): int
    requires b != 0
  {
    if a >= 0 then
      if b > 0 then a / b else -(a / -b)
    else
      if b > 0 then -(-a / b) else -a / -b
  }

  /** Go's `%`: takes the sign of the dividend. */
  function Rem(a: int, b: int): int
    requires b != 0
  {
    a - b * Quo(a, b)
  }

  function Abs(x: int): nat {
    if x < 0 then -x else x
  }

  lemma RemIsSmall(a: int, b: int)
    requires b != 0
    ensures Abs(Rem(a, b)) < Abs(b)
    ensures a >= 0 ==> Rem(a, b) >= 0
    ensures a <= 0 ==> Rem(a, b) <= 0
  {
    var p: int, q: int := Abs(a), Abs(b);
    assert p == q * (p / q) + p % q;
    if a >= 0 {
      assert b * Quo(a, b) == q * (p / q);
    } else {
      assert b * Quo(a, b) == -(q * (p / q));
    }
  }

  /** A product that is exact divides back to its factor. */
  lemma QuoUndoesMul(a: int, b: int)
    requires b != 0
    ensures Quo(a * b, b) == a
  {
    RemIsSmall(a * b, b);
    SmallMultipleIsZero(a - Quo(a * b, b), b);
  }

  lemma SmallMultipleIsZero(d: int, b: int)
    requires b != 0 && Abs(b * d) < Abs(b)
    ensures d == 0
  {
    if d > 0 {
      Product(Abs(b), d);
    } else if d < 0 {
      Product(Abs(b), -d);
    }
  }

  lemma Product(x: int, y: int)
    requires x >= 0 && y >= 1
    ensures x * y >= x
  {
  }

  // ---------- floor division by a positive divisor ----------

  lemma QuotientIsUnique(x: int, d: int, q: int, r: int)
    requires d > 0 && x == d * q + r && 0 <= r < d
    ensures x / d == q
  {
    var k := q - x / d;
    assert x == d * (x / d) + x % d;
    assert d * k == d * q - d * (x / d);
    SmallMultipleIsZero(k, d);
  }

  /** Whole multiples of the divisor pass through the quotient. */
  lemma AddMultiple(x: int, n: int, d: int)
    requires d > 0
    ensures (d * n + x) / d == n + x / d
  {
    assert d * (n + x / d) == d * n + d * (x / d);
    QuotientIsUnique(d * n + x, d, n + x / d, x % d);
  }

  /** x / d is the largest n with n * d <= x. */
  lemma QuotientBounds(x: int, d: int, n: int)
    requires d > 0
    ensures n * d <= x <==> n <= x / d
  {
    var k := x / d - n;
    assert x == d * (x / d) + x % d;
    assert x - n * d == d * k + x % d;
    if k >= 0 {
      NonNegativeProduct(d, k);
    } else {
      NonNegativeProduct(d, -k - 1);
      assert d * k == -(d * (-k - 1)) - d;
    }
  }

  lemma NonNegativeProduct(a: int, b: int)
    requires a >= 0 && b >= 0
    ensures a * b >= 0
  {
  }

  /** How many portions of size d n things make. */
  function CeilDiv(n: int, d: int): int
    requires d > 0
  {
    (n + d - 1) / d
  }

  lemma CeilOfPart(n: int, d: int)
    requires 0 <= n <= d && d > 0
    ensures CeilDiv(n, d) == if n == 0 then 0 else 1
  {
    QuotientIsUnique(n + d - 1, d, if n == 0 then 0 else 1, if n == 0 then d - 1 else n - 1);
  }

  lemma CeilOfLess(n: int, d: int)
    requires d > 0
    ensures CeilDiv(n - d, d) == CeilDiv(n, d) - 1
  {
    AddMultiple(n + d - 1, -1, d);
    assert d * -1 + (n + d - 1) == n - d + d - 1;
  }
}
