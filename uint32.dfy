/** Arithmetic of the C type `unsigned int` on a 32-bit-int platform: values
    are naturals below 2^32, multiplication wraps modulo 2^32, and `^` is the
    bitwise exclusive or. */
module UInt32 {

  const Modulus: nat := 0x1_0000_0000

  /** A value of type `unsigned int`. */
  type u32 = x: nat | x < Modulus

  function Pow2(n: nat): (r: nat)
    ensures r > 0
  {
    if n == 0 then 1 else 2 * Pow2(n - 1)
  }

  /** Bit k of x (bit 0 is the least significant). */
  function Bit(x: nat, k: nat): (r: nat)
    ensures r < 2
  {
    if k == 0 then x % 2 else Bit(x / 2, k - 1)
  }

  /** Bitwise exclusive or of two naturals, built bit by bit from the low end. */
  function Xor(a: nat, b: nat): (r: nat)
    decreases a + b
  {
    if a == 0 then b
    else if b == 0 then a
    else 2 * Xor(a / 2, b / 2) + (a + b) % 2
  }

  lemma {:induction false} BitOfZero(k: nat)
    ensures Bit(0, k) == 0
  {
    if k > 0 { BitOfZero(k - 1); }
  }

  /** Xor is exclusive or: every bit of the result is the sum of the
      operands' bits modulo 2. */
  lemma {:induction false} XorBit(a: nat, b: nat, k: nat)
    ensures Bit(Xor(a, b), k) == (Bit(a, k) + Bit(b, k)) % 2
    decreases k
  {
    if a == 0 {
      BitOfZero(k);
    } else if b == 0 {
      BitOfZero(k);
    } else if k > 0 {
      XorBit(a / 2, b / 2, k - 1);
      assert Xor(a, b) / 2 == Xor(a / 2, b / 2);
    }
  }

  /** Exclusive or of two n-bit values is an n-bit value. */
  lemma {:induction false} XorBound(a: nat, b: nat, n: nat)
    requires a < Pow2(n) && b < Pow2(n)
    ensures Xor(a, b) < Pow2(n)
  {
    if a != 0 && b != 0 {
      assert n > 0;
      XorBound(a / 2, b / 2, n - 1);
    }
  }

  lemma {:induction false} Pow2Add(m: nat, n: nat)
    ensures Pow2(m + n) == Pow2(m) * Pow2(n)
  {
    if m > 0 { Pow2Add(m - 1, n); }
  }

  /** `unsigned int` has 32 bits. */
  lemma Pow2Width()
    ensures Pow2(32) == Modulus
  {
    assert Pow2(4) == 16;
    Pow2Add(4, 4);
    Pow2Add(8, 8);
    Pow2Add(16, 16);
  }

  /** `a * b` on `unsigned int`: the product wrapped modulo 2^32. */
  function Mul32(a: u32, b: u32): (r: u32)
    ensures (a * b - r) % Modulus == 0
  {
    (a * b) % Modulus
  }

  /** `a ^ b` on `unsigned int`. */
  function Xor32(a: u32, b: u32): (r: u32)
    ensures forall k: nat :: Bit(r, k) == (Bit(a, k) + Bit(b, k)) % 2
  {
    Pow2Width();
    XorBound(a, b, 32);
    forall k: nat ensures Bit(Xor(a, b), k) == (Bit(a, k) + Bit(b, k)) % 2 {
      XorBit(a, b, k);
    }
    Xor(a, b)
  }
}
