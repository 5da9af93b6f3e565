/** Go's `uint64` arithmetic where the constructors rely on it: `x+1` wraps to 0 and
    `1<<k` is 0 once the shift count reaches the width. */
module Uint64 {

  const LIMIT: int := 0x1_0000_0000_0000_0000
  const MAX: int := LIMIT - 1

  type u64 = x: int | 0 <= x < LIMIT

  /** `x + 1` computed on `uint64`, as in `degree+1` and `level+1`. */
  function Inc(x: u64): (r: u64)
    ensures x < MAX ==> r == x + 1
    ensures x == MAX ==> r == 0
  {
    (x + 1) % LIMIT
  }

  /** `2^k` on unbounded integers. */
  function Pow2(k: nat): nat
  {
    if k == 0 then 1 else 2 * Pow2(k - 1)
  }

  /** `1 << k` computed on `uint64`: the bit pattern `2^k` truncated to 64 bits, so a
      shift by 64 or more leaves no bit set. */
  function Shl1(k: u64): (r: nat)
    ensures r == Pow2(k) % LIMIT
  {
    Pow2Truncation(k);
    if k < 64 then Pow2(k) else 0
  }

  /** Below the width `2^k` fits in 64 bits; from the width on it is a multiple of `2^64`. */
  lemma {:induction false} Pow2Truncation(k: nat)
    ensures k < 64 ==> Pow2(k) < LIMIT
    ensures k >= 64 ==> Pow2(k) % LIMIT == 0
  {
    Pow2Width();
    if k < 64 {
      Pow2Monotone(k, 64);
    } else {
      Pow2Split(k - 64, 64);
      MultipleOfLimit(Pow2(k - 64));
    }
  }

  lemma Pow2Width()
    ensures Pow2(64) == LIMIT
  {
    assert Pow2(8) == 0x100;
    Pow2Split(8, 8);
    Pow2Split(16, 16);
    Pow2Split(32, 32);
  }

  lemma MultipleOfLimit(x: nat)
    ensures (x * LIMIT) % LIMIT == 0
  {
  }

  /** `2^a <= 2^b` when `a <= b`, strictly when `a < b`. */
  lemma {:induction false} Pow2Monotone(a: nat, b: nat)
    requires a <= b
    ensures a < b ==> Pow2(a) < Pow2(b)
    ensures Pow2(a) <= Pow2(b)
    decreases b
  {
    if a < b {
      Pow2Monotone(a, b - 1);
      Pow2Positive(b - 1);
    }
  }

  lemma {:induction false} Pow2Positive(k: nat)
    ensures Pow2(k) >= 1
  {
    if k > 0 {
      Pow2Positive(k - 1);
    }
  }

  /** `2^(a+b) = 2^a * 2^b`. */
  lemma {:induction false} Pow2Split(a: nat, b: nat)
    ensures Pow2(a + b) == Pow2(a) * Pow2(b)
    decreases a
  {
    if a > 0 {
      Pow2Split(a - 1, b);
    }
  }
}
