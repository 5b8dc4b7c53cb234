/** Powers and remainders over the integers, as far as the key agreement needs them. */
module ModularArithmetic {

  function Pow(b: int, e: nat): int {
    if e == 0 then 1 else b * Pow(b, e - 1)
  }

  lemma {:induction false} PowAdd(b: int, x: nat, y: nat)
    ensures Pow(b, x + y) == Pow(b, x) * Pow(b, y)
  {
    if x == 0 {
    } else {
      PowAdd(b, x - 1, y);
      assert Pow(b, x + y) == b * Pow(b, x - 1 + y);
      assert b * (Pow(b, x - 1) * Pow(b, y)) == (b * Pow(b, x - 1)) * Pow(b, y);
    }
  }

  lemma Regroup(a: int, b: int, p: int, q: int)
    ensures (a * b) * (p * q) == (a * p) * (b * q)
  {
    assert (a * b) * (p * q) == a * (b * (p * q));
    assert b * (p * q) == p * (b * q);
    assert a * (p * (b * q)) == (a * p) * (b * q);
  }

  lemma {:induction false} PowOfProduct(a: int, b: int, e: nat)
    ensures Pow(a * b, e) == Pow(a, e) * Pow(b, e)
  {
    if e == 0 {
    } else {
      PowOfProduct(a, b, e - 1);
      Regroup(a, b, Pow(a, e - 1), Pow(b, e - 1));
    }
  }

  lemma {:induction false} PowOfPow(b: int, x: nat, y: nat)
    ensures Pow(Pow(b, x), y) == Pow(b, x * y)
  {
    if y == 0 {
      assert x * y == 0;
    } else {
      PowOfPow(b, x, y - 1);
      assert x * y == x + x * (y - 1);
      PowAdd(b, x, x * (y - 1));
    }
  }

  lemma {:induction false} PowPositive(b: int, e: nat)
    requires b > 0
    ensures Pow(b, e) > 0
  {
    if e > 0 {
      PowPositive(b, e - 1);
    }
  }

  /** Quotient and remainder are determined by their defining equation. */
  lemma QuotientUnique(a: int, n: int, q: int, r: int)
    requires n > 0 && 0 <= r < n && a == n * q + r
    ensures a / n == q && a % n == r
  {
    var q', r' := a / n, a % n;
    assert a == n * q' + r' && 0 <= r' < n;
    var d := q - q';
    assert n * d == r' - r by {
      assert n * (q - q') == n * q - n * q';
    }
    if d != 0 {
      MulGap(n, d);
      assert false;
    }
  }

  lemma QuotientOfSum(a: int, n: int, q: int, r: int)
    requires n > 0 && 0 <= r < n && a == q * n + r
    ensures a / n == q && a % n == r
  {
    QuotientUnique(a, n, q, r);
  }

  lemma MulGap(n: int, d: int)
    requires n > 0 && d != 0
    ensures n * d >= n || n * d <= -n
  {
    if d >= 1 {
      assert n * d == n + n * (d - 1);
    } else {
      assert n * d == -n - n * (-1 - d);
    }
  }

  lemma AddMultiple(a: int, k: int, n: int)
    requires n > 0
    ensures (a + n * k) % n == a % n
  {
    var q, r := a / n, a % n;
    assert a == n * q + r;
    assert a + n * k == n * (q + k) + r;
    QuotientUnique(a + n * k, n, q + k, r);
  }

  /** Equal remainders differ by a multiple of the modulus. */
  lemma SameRemainder(a: int, b: int, n: int)
    requires n > 0 && a % n == b % n
    ensures a == b + n * (a / n - b / n)
  {
    assert a == n * (a / n) + a % n;
    assert b == n * (b / n) + b % n;
    assert n * (a / n) - n * (b / n) == n * (a / n - b / n);
  }

  lemma ModMulLeft(a: int, c: int, b: int, n: int)
    requires n > 0 && a % n == c % n
    ensures (a * b) % n == (c * b) % n
  {
    SameRemainder(a, c, n);
    var i := a / n - c / n;
    assert (c + n * i) * b == c * b + n * (i * b) by {
      assert (c + n * i) * b == c * b + (n * i) * b;
      assert (n * i) * b == n * (i * b);
    }
    AddMultiple(c * b, i * b, n);
  }

  lemma ModMul(a: int, b: int, c: int, d: int, n: int)
    requires n > 0 && a % n == c % n && b % n == d % n
    ensures (a * b) % n == (c * d) % n
  {
    ModMulLeft(a, c, b, n);
    ModMulLeft(b, d, c, n);
    assert c * b == b * c && c * d == d * c;
  }

  lemma AddMultiples(c: int, d: int, i: int, j: int, n: int)
    requires n > 0
    ensures ((c + n * i) + (d + n * j)) % n == (c + d) % n
  {
    AddMultiple(c + n * i + d, j, n);
    AddMultiple(c + d, i, n);
  }

  lemma SubtractMultiples(c: int, d: int, i: int, j: int, n: int)
    requires n > 0
    ensures ((c + n * i) - (d + n * j)) % n == (c - d) % n
  {
    AddMultiple((c + n * i) - (d + n * j), j, n);
    AddMultiple(c - d, i, n);
  }

  lemma ModAdd(a: int, b: int, c: int, d: int, n: int)
    requires n > 0 && a % n == c % n && b % n == d % n
    ensures (a + b) % n == (c + d) % n && (a - b) % n == (c - d) % n
  {
    SameRemainder(a, c, n);
    SameRemainder(b, d, n);
    AddMultiples(c, d, a / n - c / n, b / n - d / n, n);
    SubtractMultiples(c, d, a / n - c / n, b / n - d / n, n);
  }

  lemma ModIdempotent(a: int, n: int)
    requires n > 0
    ensures 0 <= a % n < n && (a % n) % n == a % n
  {
    QuotientUnique(a % n, n, 0, a % n);
  }

  lemma {:induction false} ModPow(a: int, b: int, e: nat, n: int)
    requires n > 0 && a % n == b % n
    ensures Pow(a, e) % n == Pow(b, e) % n
  {
    if e == 0 {
    } else {
      ModPow(a, b, e - 1, n);
      ModMul(a, Pow(a, e - 1), b, Pow(b, e - 1), n);
    }
  }

  /** A number congruent to `a`: its remainder, and the modulus so many times. */
  function Lifted(a: int, n: nat, lift: nat): (v: nat)
    requires n > 0
    ensures v % n == a % n
  {
    AddMultiple(a % n, lift, n);
    ModIdempotent(a, n);
    a % n + n * lift
  }

  /** Every natural number congruent to `a` is one of these. */
  lemma LiftedExactly(a: int, n: nat, v: nat)
    requires n > 0
    ensures v % n == a % n <==> exists lift: nat :: v == Lifted(a, n, lift)
  {
    if v % n == a % n {
      SameLift(a, n, v);
    }
  }

  lemma SameLift(a: int, n: nat, v: nat)
    requires n > 0 && v % n == a % n
    ensures v == Lifted(a, n, v / n)
  {
    assert v == n * (v / n) + v % n;
  }
}
