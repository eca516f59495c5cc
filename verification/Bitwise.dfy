// The bits of a number, and the operators that work on them one by one.
module Bitwise {
  import opened Division

  function Power2(n: nat): (p: nat)
    ensures p > 0
  {
    if n == 0 then 1 else 2 * Power2(n - 1)
  }

  predicate Bit(w: nat, k: nat) {
    w / Power2(k) % 2 == 1
  }

  lemma BitHalf(a: nat, k: nat)
    requires k > 0
    ensures Bit(a, k) <==> Bit(a / 2, k - 1)
  {
    var p := Power2(k - 1);
    var h, q := a / 2, a / 2 / p;
    assert a == 2 * h + a % 2 && h == p * q + h % p;
    assert 2 * p * q == 2 * (p * q);
    Unique(a, 2 * p, q, 2 * (h % p) + a % 2);
  }

  // Exclusive or of the low `bits` bits.
  function Xor(a: nat, b: nat, bits: nat): (x: nat)
    ensures x < Power2(bits)
  {
    if bits == 0 then 0 else 2 * Xor(a / 2, b / 2, bits - 1) + (if a % 2 == b % 2 then 0 else 1)
  }

  // Bit by bit, it is one where the operands differ.
  lemma {:induction false} XorBit(a: nat, b: nat, bits: nat, k: nat)
    requires k < bits
    ensures Bit(Xor(a, b, bits), k) <==> Bit(a, k) != Bit(b, k)
    decreases bits
  {
    var x := Xor(a, b, bits);
    if k > 0 {
      XorBit(a / 2, b / 2, bits - 1, k - 1);
      BitHalf(a, k);
      BitHalf(b, k);
      BitHalf(x, k);
      assert x / 2 == Xor(a / 2, b / 2, bits - 1);
    } else {
      assert Power2(0) == 1;
    }
  }

  // Or of the low `bits` bits.
  function Or(a: nat, b: nat, bits: nat): (x: nat)
    ensures x < Power2(bits)
  {
    if bits == 0 then 0 else 2 * Or(a / 2, b / 2, bits - 1) + (if a % 2 == 1 || b % 2 == 1 then 1 else 0)
  }

  lemma {:induction false} OrBit(a: nat, b: nat, bits: nat, k: nat)
    requires k < bits
    ensures Bit(Or(a, b, bits), k) <==> Bit(a, k) || Bit(b, k)
    decreases bits
  {
    var x := Or(a, b, bits);
    if k > 0 {
      OrBit(a / 2, b / 2, bits - 1, k - 1);
      BitHalf(a, k);
      BitHalf(b, k);
      BitHalf(x, k);
      assert x / 2 == Or(a / 2, b / 2, bits - 1);
    } else {
      assert Power2(0) == 1;
    }
  }

  lemma {:induction false} OrZero(a: nat, bits: nat)
    requires a < Power2(bits)
    ensures Or(a, 0, bits) == a
    decreases bits
  {
    if bits > 0 {
      OrZero(a / 2, bits - 1);
    }
  }
}
