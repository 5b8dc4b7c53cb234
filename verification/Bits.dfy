/** Bitwise operations on unsigned integers, defined bit by bit. */
module Bits {
  import opened ModularArithmetic

  function Or(a: nat, b: nat): nat {
    if a == 0 && b == 0 then 0
    else (if a % 2 == 1 || b % 2 == 1 then 1 else 0) + 2 * Or(a / 2, b / 2)
  }

  function Xor(a: nat, b: nat): nat {
    if a == 0 && b == 0 then 0
    else (if a % 2 != b % 2 then 1 else 0) + 2 * Xor(a / 2, b / 2)
  }

  function ShiftLeft(a: nat, bits: nat): nat
  {
    PowPositive(2, bits);
    a * Pow(2, bits)
  }

  lemma {:induction false} OrZero(a: nat)
    ensures Or(a, 0) == a && Or(0, a) == a
  {
    if a > 0 {
      OrZero(a / 2);
    }
  }

  /** Or-ing a low part into the empty low bits of a shifted value is addition. */
  lemma {:induction false} OrDisjoint(high: nat, low: nat, bits: nat)
    requires low < Pow(2, bits)
    ensures Or(ShiftLeft(high, bits), low) == ShiftLeft(high, bits) + low
    ensures Or(low, ShiftLeft(high, bits)) == ShiftLeft(high, bits) + low
  {
    if bits == 0 {
      OrZero(high);
    } else {
      var p := Pow(2, bits - 1);
      PowPositive(2, bits - 1);
      var h := ShiftLeft(high, bits);
      assert h == 2 * (high * p) by {
        assert high * (2 * p) == 2 * (high * p);
      }
      assert h / 2 == ShiftLeft(high, bits - 1) && h % 2 == 0;
      OrDisjoint(high, low / 2, bits - 1);
    }
  }

  lemma {:induction false} OrIsZero(a: nat, b: nat)
    ensures Or(a, b) == 0 <==> a == 0 && b == 0
  {
    if a != 0 || b != 0 {
      OrIsZero(a / 2, b / 2);
    }
  }

  lemma {:induction false} XorIsZero(a: nat, b: nat)
    ensures Xor(a, b) == 0 <==> a == b
  {
    if a != 0 || b != 0 {
      XorIsZero(a / 2, b / 2);
    }
  }

  lemma {:induction false} XorUndoes(a: nat, b: nat)
    ensures Xor(Xor(a, b), b) == a && Xor(a, b) == Xor(b, a)
  {
    if a != 0 || b != 0 {
      XorUndoes(a / 2, b / 2);
    }
  }

  lemma {:induction false} XorBound(a: nat, b: nat, bits: nat)
    requires a < Pow(2, bits) && b < Pow(2, bits)
    ensures Xor(a, b) < Pow(2, bits)
  {
    PowPositive(2, bits);
    if a != 0 || b != 0 {
      assert bits > 0;
      XorBound(a / 2, b / 2, bits - 1);
    }
  }
}
