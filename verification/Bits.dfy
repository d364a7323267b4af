/** Bitwise operations on naturals, bit by bit. */
module Bits {
  import opened Prelude

  /** Bitwise exclusive or of the low `bits` bits. */
  function Xor(a: nat, b: nat, bits: nat): (r: nat)
    ensures r < Pow2(bits)
  {
    if bits == 0 then 0 else 2 * Xor(a / 2, b / 2, bits - 1) + (a % 2 + b % 2) % 2
  }

  function Pow2(bits: nat): nat { if bits == 0 then 1 else 2 * Pow2(bits - 1) }

  lemma HalfAndBit(half: nat, bit: nat)
    requires bit < 2
    ensures (2 * half + bit) / 2 == half && (2 * half + bit) % 2 == bit
  {
  }

  lemma BitTwice(p: nat, q: nat)
    requires p < 2 && q < 2
    ensures ((p + q) % 2 + q) % 2 == p
  {
  }

  lemma {:induction false} XorHalves(a: nat, b: nat, bits: nat)
    requires bits > 0
    ensures Xor(a, b, bits) / 2 == Xor(a / 2, b / 2, bits - 1)
    ensures Xor(a, b, bits) % 2 == (a % 2 + b % 2) % 2
  {
    HalfAndBit(Xor(a / 2, b / 2, bits - 1), (a % 2 + b % 2) % 2);
  }

  lemma {:induction false} XorTwice(a: nat, b: nat, bits: nat)
    requires a < Pow2(bits)
    ensures Xor(Xor(a, b, bits), b, bits) == a
  {
    if bits > 0 {
      XorTwice(a / 2, b / 2, bits - 1);
      XorHalves(a, b, bits);
      XorHalves(Xor(a, b, bits), b, bits);
      BitTwice(a % 2, b % 2);
    }
  }

  lemma Pow2Values()
    ensures Pow2(8) == 256 && Pow2(16) == TWO_16
  {
    assert Pow2(4) == 16 && Pow2(8) == 16 * Pow2(4) && Pow2(12) == 16 * Pow2(8) && Pow2(16) == 16 * Pow2(12);
  }

  lemma Pow2Wide()
    ensures Pow2(32) == TWO_32 && Pow2(64) == TWO_64
  {
    Pow2Values();
    Pow2Add(16, 16);
    Pow2Add(32, 32);
  }

  lemma DoubleProduct(p: nat, q: nat)
    ensures 2 * (p * q) == (2 * p) * q
  {
  }

  lemma {:induction false} Pow2Add(a: nat, b: nat)
    ensures Pow2(a + b) == Pow2(a) * Pow2(b)
  {
    if a > 0 {
      Pow2Add(a - 1, b);
      assert Pow2(a + b) == 2 * Pow2(a - 1 + b);
      DoubleProduct(Pow2(a - 1), Pow2(b));
    }
  }

  /** Bitwise or of the low `bits` bits. */
  function Or(a: nat, b: nat, bits: nat): nat {
    if bits == 0 then 0 else 2 * Or(a / 2, b / 2, bits - 1) + if a % 2 == 1 || b % 2 == 1 then 1 else 0
  }

  /** Left shift in a word of `bits` bits. */
  function Shl(a: nat, places: nat, bits: nat): nat
    requires Pow2(bits) > 0
  {
    a * Pow2(places) % Pow2(bits)
  }

  lemma {:induction false} OrZero(a: nat, bits: nat)
    requires a < Pow2(bits)
    ensures Or(a, 0, bits) == a
  {
    if bits > 0 { OrZero(a / 2, bits - 1); }
  }

  /** A shifted word or'ed with what fits below the shift is their sum. */
  lemma {:induction false} OrIsSum(high: nat, low: nat, places: nat, bits: nat)
    requires places <= bits && low < Pow2(places) && high * Pow2(places) < Pow2(bits)
    ensures Or(high * Pow2(places), low, bits) == high * Pow2(places) + low
    decreases places
  {
    if places == 0 {
      OrZero(high, bits);
    } else {
      var half := high * Pow2(places - 1);
      assert high * Pow2(places) == 2 * half by {
        assert high * (2 * Pow2(places - 1)) == 2 * (high * Pow2(places - 1));
      }
      OrIsSum(high, low / 2, places - 1, bits - 1);
    }
  }

  /** Bit `k` of a number. */
  function Bit(n: nat, k: nat): nat { if k == 0 then n % 2 else Bit(n / 2, k - 1) }

  /** Bit `k` of an exclusive or is set exactly when the operands differ there. */
  lemma {:induction false} XorBit(a: nat, b: nat, bits: nat, k: nat)
    requires k < bits
    ensures Bit(Xor(a, b, bits), k) == (Bit(a, k) + Bit(b, k)) % 2
    decreases k
  {
    XorHalves(a, b, bits);
    if k > 0 { XorBit(a / 2, b / 2, bits - 1, k - 1); }
  }
}
