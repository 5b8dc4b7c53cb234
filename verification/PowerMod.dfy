/** The two square-and-multiply loops: `rust/src/utils.rs` and `legacy/deno/src/utils.ts`. */
module PowerMod {
  import opened ModularArithmetic
  import opened Wrappers

  // ---------- Rust, on natural numbers ----------

  /** Reduction on naturals; a zero modulus gives zero instead of a division fault. */
  function RustMod(left: nat, modulus: nat): (r: nat)
    ensures modulus > 0 ==> r < modulus && exists q: nat :: left == modulus * q + r
    ensures modulus == 0 ==> r == 0
  {
    if modulus == 0 then 0
    else
      var remainder := left % modulus;
      assert left == modulus * (left / modulus) + remainder;
      assert remainder <= modulus;  // so the source's second reduction is never taken
      remainder
  }

  lemma RustModIsRemainder(left: nat, modulus: nat)
    requires modulus > 0
    ensures RustMod(left, modulus) == left % modulus
  {
    var q: nat :| left == modulus * q + RustMod(left, modulus);
    QuotientUnique(left, modulus, q, RustMod(left, modulus));
  }

  /** What the Rust loop returns on every input, degenerate moduli included. */
  ghost function RustPower(base: nat, exponent: nat, modulus: nat): nat {
    if exponent == 0 then 1
    else if modulus == 0 then 0
    else Pow(base, exponent) % modulus
  }

  method RustPowermod(base: nat, exponent: nat, modulus: nat) returns (result: nat)
    ensures result == RustPower(base, exponent, modulus)
    ensures modulus > 1 ==> result == Pow(base, exponent) % modulus
  {
    if exponent == 0 {
      if modulus > 1 { QuotientUnique(1, modulus, 0, 1); }
      return 1;
    }
    result := 1;
    var b := RustMod(base, modulus);
    var exp := exponent;
    RustStart(base, exponent, modulus);
    while exp != 0
      invariant modulus > 0 ==> Represents(result, b, exp, modulus, Pow(base, exponent) % modulus)
      invariant exp == 0 && modulus > 0 ==> result < modulus
      invariant exp == 0 && modulus == 0 ==> result == 0
    {
      ghost var r0, b0, e0 := result, b, exp;
      if exp % 2 == 1 {
        result := RustMod(result * b, modulus);
      }
      exp := exp / 2;
      if exp != 0 {
        b := RustMod(b * b, modulus);
      }
      if modulus > 0 {
        RustStep(r0, b0, e0, result, b, modulus);
      }
    }
    if modulus > 0 {
      Finished(result, b, modulus, Pow(base, exponent) % modulus);
      QuotientUnique(result, modulus, 0, result);
    }
  }

  /** The number still to be computed from the loop's three variables is `target`. */
  ghost predicate Represents(result: int, base: int, exp: nat, n: int, target: int)
    requires n > 0
  {
    (result * Pow(base, exp)) % n == target
  }

  lemma RustStart(base: nat, exponent: nat, modulus: nat)
    ensures modulus > 0 ==>
      Represents(1, RustMod(base, modulus), exponent, modulus, Pow(base, exponent) % modulus)
  {
    if modulus > 0 {
      RustModIsRemainder(base, modulus);
      ModIdempotent(base, modulus);
      ModPow(RustMod(base, modulus), base, exponent, modulus);
    }
  }

  lemma RustStep(r0: nat, b0: nat, e0: nat, r1: nat, b1: nat, n: nat)
    requires n > 0 && e0 > 0
    requires r1 == if e0 % 2 == 1 then RustMod(r0 * b0, n) else r0
    requires b1 == if e0 / 2 != 0 then RustMod(b0 * b0, n) else b0
    ensures forall t :: Represents(r0, b0, e0, n, t) ==> Represents(r1, b1, e0 / 2, n, t)
    ensures e0 / 2 == 0 ==> r1 < n
  {
    RustModIsRemainder(r0 * b0, n);
    RustModIsRemainder(b0 * b0, n);
    ModIdempotent(r0 * b0, n);
    SquareStep(r0, b0, e0, r1, b1, n);
  }

  lemma Finished(result: int, base: int, n: int, target: int)
    requires n > 0 && Represents(result, base, 0, n, target)
    ensures result % n == target
  {
    assert result * Pow(base, 0) == result;
  }

  /** One turn of either loop keeps `result * base^exp` modulo `n`. */
  lemma SquareStep(r0: int, b0: int, e0: nat, r1: int, b1: int, n: int)
    requires n > 0 && e0 > 0
    requires r1 % n == (if e0 % 2 == 1 then (r0 * b0) % n else r0 % n)
    requires e0 / 2 != 0 ==> b1 % n == (b0 * b0) % n || b1 == (b0 * b0) % n
    ensures (r1 * Pow(b1, e0 / 2)) % n == (r0 * Pow(b0, e0)) % n
  {
    var h := e0 / 2;
    var odd := if e0 % 2 == 1 then b0 else 1;
    assert Pow(b0, e0) == odd * Pow(b0 * b0, h) by {
      PowAdd(b0, h, h);
      PowOfProduct(b0, b0, h);
      if e0 % 2 == 1 {
        assert Pow(b0, e0) == b0 * Pow(b0, h + h);
      }
    }
    assert Pow(b1, h) % n == Pow(b0 * b0, h) % n by {
      if h != 0 {
        ModIdempotent(b0 * b0, n);
        ModPow(b1, b0 * b0, h, n);
      }
    }
    ModMul(r1, Pow(b1, h), r0 * odd, Pow(b0 * b0, h), n);
    assert (r0 * odd) * Pow(b0 * b0, h) == r0 * (odd * Pow(b0 * b0, h));
  }

  // ---------- Deno, on signed integers ----------

  datatype ArithmeticError = NegativeExponent | DivisionByZero

  /** JavaScript's `%` on BigInt: the sign of the remainder is the sign of the dividend. */
  function JsRemainder(a: int, n: int): int
    requires n > 0
  {
    if a >= 0 then a % n else -((-a) % n)
  }

  /** `mod`: whatever the sign of the dividend, the result is the least non-negative residue. */
  function DenoMod(a: int, n: nat): (r: Result<nat, ArithmeticError>)
    ensures r.Ok? <==> n > 0
    ensures r.Ok? ==> r.value < n && exists q: int :: a == n * q + r.value
  {
    if n == 0 then Err(DivisionByZero)
    else
      var rem := JsRemainder(a, n);
      assert a >= 0 ==> a == n * (a / n) + rem;
      assert a < 0 ==> a == n * (-((-a) / n)) + rem by {
        assert -a == n * ((-a) / n) + (-a) % n;
        assert n * (-((-a) / n)) == -(n * ((-a) / n));
      }
      var q := if a >= 0 then a / n else -((-a) / n);
      assert a == n * q + rem;
      assert n * (q - 1) == n * q - n;
      assert a == n * (q - 1) + (rem + n);
      Ok(if rem < 0 then rem + n else rem)
  }

  lemma DenoModIsRemainder(a: int, n: nat)
    requires n > 0
    ensures DenoMod(a, n) == Ok(a % n)
  {
    var r := DenoMod(a, n).value;
    var q :| a == n * q + r;
    QuotientUnique(a, n, q, r);
  }

  ghost function DenoPower(g: int, x: int, n: nat): Result<nat, ArithmeticError> {
    if x < 0 then Err(NegativeExponent)
    else if n == 0 then Err(DivisionByZero)
    else Ok(Pow(g, x) % n)
  }

  method DenoPowermod(g: int, x: int, n: nat) returns (r: Result<nat, ArithmeticError>)
    ensures r == DenoPower(g, x, n)
  {
    if x < 0 {
      return Err(NegativeExponent);
    }
    var base := DenoMod(g, n);
    if base.Err? {
      return Err(DivisionByZero);
    }
    var b := base.value;
    var exp: nat := x;
    var result: nat := 1;
    DenoModIsRemainder(g, n);
    ModIdempotent(g, n);
    ModPow(b, g, x, n);
    assert Represents(1, b, x, n, Pow(g, x) % n);
    while exp > 0
      invariant Represents(result, b, exp, n, Pow(g, x) % n)
    {
      ghost var r0, b0, e0 := result, b, exp;
      if exp % 2 == 1 {
        result := DenoMod(result * b, n).value;
      }
      exp := exp / 2;
      if exp > 0 {
        b := DenoMod(b * b, n).value;
      }
      DenoStep(r0, b0, e0, result, b, n);
    }
    Finished(result, b, n, Pow(g, x) % n);
    DenoModIsRemainder(result, n);
    r := DenoMod(result, n);
  }

  lemma DenoStep(r0: nat, b0: nat, e0: nat, r1: nat, b1: nat, n: nat)
    requires n > 0 && e0 > 0
    requires r1 == if e0 % 2 == 1 then DenoMod(r0 * b0, n).value else r0
    requires b1 == if e0 / 2 != 0 then DenoMod(b0 * b0, n).value else b0
    ensures forall t :: Represents(r0, b0, e0, n, t) ==> Represents(r1, b1, e0 / 2, n, t)
  {
    DenoModIsRemainder(r0 * b0, n);
    DenoModIsRemainder(b0 * b0, n);
    ModIdempotent(r0 * b0, n);
    SquareStep(r0, b0, e0, r1, b1, n);
  }

  /**
   * The two loops return the same number exactly when the modulus is above one, or is one and
   * the exponent is not zero: Rust answers 1 to `x^0 mod 1` where Deno reduces it to 0, and
   * answers something for a zero modulus where Deno faults.
   */
  lemma LoopsAgreeExactly(base: nat, exponent: nat, modulus: nat)
    ensures DenoPower(base, exponent, modulus) == Ok(RustPower(base, exponent, modulus))
            <==> modulus > 1 || (modulus == 1 && exponent > 0)
    ensures modulus > 1 ==> RustPower(base, exponent, modulus) < modulus
  {
    if exponent == 0 {
      if modulus > 1 {
        QuotientUnique(1, modulus, 0, 1);
      } else if modulus == 1 {
        assert Pow(base, exponent) % 1 == 0;
      }
    }
  }
}
