/** Machine words of the 32-bit target: bit-level operators defined bit by bit,
    and the half-word macros of the millicode library in terms of them. */
module Bits {

  const B := 0x1_0000                    // base of one half-word digit
  const W := 0x1_0000_0000               // one past the largest unsigned int
  const D := 0x1_0000_0000_0000_0000     // one past the largest unsigned long long

  type u32 = x: int | 0 <= x < W
  type u64 = x: int | 0 <= x < D
  type i64 = x: int | -(D / 2) <= x < D / 2

  function Pow2(k: nat): (p: nat)
    ensures p > 0
  {
    if k == 0 then 1 else 2 * Pow2(k - 1)
  }

  /** Bitwise or of two non-negative numbers, one bit at a time. */
  function Or(a: nat, b: nat): (r: nat)
    decreases a + b
  {
    if a == 0 && b == 0 then 0
    else 2 * Or(a / 2, b / 2) + (if a % 2 == 1 || b % 2 == 1 then 1 else 0)
  }

  /** Bitwise and of two non-negative numbers, one bit at a time. */
  function And(a: nat, b: nat): (r: nat)
    decreases a + b
  {
    if a == 0 || b == 0 then 0
    else 2 * And(a / 2, b / 2) + (if a % 2 == 1 && b % 2 == 1 then 1 else 0)
  }

  lemma {:induction false} Pow2Add(j: nat, k: nat)
    ensures Pow2(j + k) == Pow2(j) * Pow2(k)
  {
    if j == 0 {
    } else {
      Pow2Add(j - 1, k);
    }
  }

  lemma HalfOfMultiple(a: nat, p: nat)
    requires p > 0 && a % (2 * p) == 0
    ensures a % 2 == 0 && (a / 2) % p == 0
  {
    var c := a / (2 * p);
    assert a == 2 * (p * c);
    assert a / 2 == p * c;
    MultipleMod(c, p);
  }

  lemma MultipleMod(c: int, p: int)
    requires p > 0
    ensures (p * c) % p == 0 && (p * c) / p == c
  {
    DivModUnique(p * c, p, c, 0);
  }

  /** Quotient and remainder are determined by the division equation. */
  lemma DivModUnique(x: int, p: int, c: int, r: int)
    requires p > 0 && x == p * c + r && 0 <= r < p
    ensures x / p == c && x % p == r
  {
    var e := x / p - c;
    assert p * e == r - x % p;
    if e >= 1 {
      MulAtLeast(p, e);
    } else if e <= -1 {
      MulAtLeast(p, -e);
    }
  }

  lemma QuotientNonNegative(x: int, p: int)
    requires x >= 0 && p > 0
    ensures x / p >= 0
  {
    var c := x / p;
    assert p * c + x % p == x;
    if c < 0 { MulAtLeast(p, -c); }
  }

  lemma MulAtLeast(p: int, e: int)
    requires p >= 0 && e >= 1
    ensures p * e >= p
  {
  }

  lemma MulMono(x: int, y: int, p: int)
    requires x <= y && p >= 0
    ensures x * p <= y * p && (y - x) * p == y * p - x * p
  {
  }

  lemma ProductBelow(x: int, y: int, m: int, n: int)
    requires 0 <= x < m && 0 <= y < n
    ensures 0 <= x * y <= (m - 1) * (n - 1)
  {
    MulMono(0, x, y);
    MulMono(x, m - 1, y);
    MulMono(y, n - 1, m - 1);
  }

  lemma Pow2Values()
    ensures Pow2(4) == 16 && Pow2(16) == B && Pow2(32) == W
  {
    assert Pow2(4) == 16;
    Pow2Add(4, 4);
    Pow2Add(8, 8);
    Pow2Add(16, 16);
  }

  /** Or joins a value whose low k bits are clear with a k-bit value without carries. */
  lemma {:induction false} OrDisjoint(a: nat, b: nat, k: nat)
    requires a % Pow2(k) == 0 && b < Pow2(k)
    ensures Or(a, b) == a + b
    decreases k, a
  {
    if k == 0 {
      if a > 0 { OrDisjoint(a / 2, 0, 0); }
    } else {
      HalfOfMultiple(a, Pow2(k - 1));
      OrDisjoint(a / 2, b / 2, k - 1);
    }
  }

  /** And with 2^k - 1 keeps the low k bits. */
  lemma {:induction false} AndMask(a: nat, k: nat)
    ensures And(a, Pow2(k) - 1) == a % Pow2(k)
  {
    if k == 0 {
    } else if a == 0 {
      DivModUnique(0, Pow2(k), 0, 0);
    } else {
      var p := Pow2(k - 1);
      AndMask(a / 2, k - 1);
      HalveMod(a, p);
      AndOdd(a, p);
    }
  }

  lemma AndOdd(a: nat, p: nat)
    requires a > 0 && p > 0
    ensures And(a, 2 * p - 1) == 2 * And(a / 2, p - 1) + a % 2
  {
    assert (2 * p - 1) / 2 == p - 1 && (2 * p - 1) % 2 == 1;
  }

  lemma HalveMod(a: nat, p: nat)
    requires p > 0
    ensures a % (2 * p) == 2 * ((a / 2) % p) + a % 2
  {
    var c, r := (a / 2) / p, (a / 2) % p;
    assert a / 2 == p * c + r;
    assert (2 * p) * c == 2 * (p * c);
    DivModUnique(a, 2 * p, c, 2 * r + a % 2);
  }

  // ---- unsigned int arithmetic (wraps modulo 2^32) ----

  function Add32(x: int, y: int): u32 { (x + y) % W }
  function Sub32(x: int, y: int): u32 { (x - y) % W }
  function Mul32(x: int, y: int): u32 { (x * y) % W }
  function Shl32(x: u32, k: nat): u32 { (x * Pow2(k)) % W }
  function Shr(x: nat, k: nat): nat {
    QuotientNonNegative(x, Pow2(k));
    x / Pow2(k)
  }

  // ---- the half-word macros of longlong.h and qdivrem.c, as arithmetic ----

  function HHalf(x: u32): u32 { x / B }

  function LHalf(x: u32): u32 { x % B }

  function LHup(x: u32): u32 { (x % B) * B }

  function Combine(a: u32, b: u32): u32
    requires a < B && b < B
  {
    a * B + b
  }

  /** The arithmetic forms are what the shifts and masks of the macros compute. */
  lemma HalfWordMacros(x: u32, a: u32, b: u32)
    requires a < B && b < B
    ensures HHalf(x) == Shr(x, 16)
    ensures LHalf(x) == And(x, B - 1)
    ensures LHup(x) == Shl32(x, 16)
    ensures Combine(a, b) == Or(Shl32(a, 16), b)
  {
    Pow2Values();
    AndMask(x, 16);
    DivModUnique(x * B, W, x / B, (x % B) * B);
    OrDisjoint(a * B, b, 16);
  }
}
