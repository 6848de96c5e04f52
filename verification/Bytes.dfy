/** Bytes, and the few machine operations on them that the decoder uses. */
module Bytes {

  type Byte = b: int | 0 <= b < 256

  const WORD := 0x1_0000_0000 // what 32 bits can count
  const MAX_LENGTH := 15      // of a codeword, in bits

  function Min(a: int, b: int): (r: int)
    ensures r <= a && r <= b && (r == a || r == b)
  {
    if a < b then a else b
  }

  function Max(a: int, b: int): (r: int)
    ensures a <= r && b <= r && (r == a || r == b)
  {
    if a < b then b else a
  }

  function Pow2(n: nat): (r: nat)
    ensures r >= 1
  {
    if n == 0 then 1 else 2 * Pow2(n - 1)
  }

  /** Bitwise exclusive or. */
  function BitXor(a: nat, b: nat): nat {
    if a == 0 then b
    else if b == 0 then a
    else 2 * BitXor(a / 2, b / 2) + (if a % 2 == b % 2 then 0 else 1)
  }

  /** Bitwise or. */
  function BitOr(a: nat, b: nat): nat {
    if a == 0 then b
    else if b == 0 then a
    else 2 * BitOr(a / 2, b / 2) + (if a % 2 == 0 && b % 2 == 0 then 0 else 1)
  }

  lemma {:induction false} BitXorBound(a: nat, b: nat, n: nat)
    requires a < Pow2(n) && b < Pow2(n)
    ensures BitXor(a, b) < Pow2(n)
  {
    if a != 0 && b != 0 {
      BitXorBound(a / 2, b / 2, n - 1);
    }
  }

  lemma {:induction false} BitOrBound(a: nat, b: nat, n: nat)
    requires a < Pow2(n) && b < Pow2(n)
    ensures a <= BitOr(a, b) < Pow2(n)
    ensures b <= BitOr(a, b)
  {
    if a != 0 && b != 0 {
      BitOrBound(a / 2, b / 2, n - 1);
    }
  }

  function XorByte(a: Byte, b: Byte): Byte {
    assert Pow2(8) == 256;
    BitXorBound(a, b, 8);
    BitXor(a, b)
  }

  function OrByte(a: Byte, b: Byte): (r: Byte)
    ensures a <= r && b <= r
  {
    assert Pow2(8) == 256;
    BitOrBound(a, b, 8);
    BitOr(a, b)
  }

  /** Quotient and remainder, kept behind a contract the solver can use without nonlinear reasoning. */
  function DivMod(x: nat, m: nat): (r: (nat, nat))
    requires m > 0
    ensures x == r.0 * m + r.1 && r.1 < m
    ensures r.0 == x / m && r.1 == x % m
  {
    (x / m, x % m)
  }

  lemma DivModUnique(x: nat, m: nat, q: nat, r: nat)
    requires r < m && x == q * m + r
    ensures DivMod(x, m) == (q, r)
  {
    var (a, b) := DivMod(x, m);
    assert (a - q) * m == r - b;
    MulGap(m, a - q);
  }

  function Mul(a: nat, b: nat): (r: nat)
    ensures r == a * b
  {
    a * b
  }

  lemma MulGap(m: nat, d: int)
    ensures d >= 1 ==> d * m >= m
    ensures d <= -1 ==> d * m + m <= 0
  {
  }
}
