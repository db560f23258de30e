// The delay before an allocation retry, in nanoseconds of wrapping 64-bit arithmetic.
module Backoff {
  const BASE: int := 1_000_000_000
  const MAX: int := 8_000_000_000
  const TWO_31: int := 0x8000_0000
  const TWO_33: int := 0x2_0000_0000
  const TWO_63: int := 0x8000_0000_0000_0000
  const TWO_64: int := 0x1_0000_0000_0000_0000

  function Pow2(k: nat): int {
    if k == 0 then 1 else 2 * Pow2(k - 1)
  }

  // The signed 64-bit value of an integer.
  function Wrap64(n: int): int {
    var low := n % TWO_64;
    if low >= TWO_63 then low - TWO_64 else low
  }

  function AllocationBackoff(attemptIndex: int): int {
    if attemptIndex < 1 then 0
    else
      var d := Wrap64(BASE * Pow2(attemptIndex - 1));
      if d <= 0 || d > MAX then MAX else d
  }

  // However far the shift overflows, the delay is one second doubled, capped at eight.
  lemma BackoffIsCappedDoubling(attemptIndex: int)
    requires attemptIndex >= 1
    ensures var doubled := 1_000_000_000 * Pow2(attemptIndex - 1);
            AllocationBackoff(attemptIndex) == if doubled < 8_000_000_000 then doubled else 8_000_000_000
  {
    var k := attemptIndex - 1;
    SmallPowers();
    if k <= 3 {
      assert Pow2(k) == [1, 2, 4, 8][k];
    } else if k < 24 {
      PowGrows(4, k);
      PowGrows(k, 24);
    } else {
      PowSplits(24, k - 24);
      PowGrows(0, k - 24);
      var m := 1_953_125 * Pow2(k - 24);
      assert BASE * Pow2(k) == TWO_33 * m;
      WrapKeepsFactor(m);
    }
  }

  lemma SmallPowers()
    ensures Pow2(0) == 1 && Pow2(1) == 2 && Pow2(2) == 4 && Pow2(3) == 8 && Pow2(4) == 16
    ensures Pow2(24) == 0x100_0000
  {
    PowSplits(4, 4);
    PowSplits(8, 8);
    PowSplits(16, 8);
  }

  lemma {:induction false} PowSplits(a: nat, b: nat)
    ensures Pow2(a + b) == Pow2(a) * Pow2(b)
  {
    if b > 0 {
      PowSplits(a, b - 1);
      assert Pow2(a + b) == 2 * Pow2(a + (b - 1));
    }
  }

  lemma {:induction false} PowGrows(a: nat, b: nat)
    requires a <= b
    ensures 1 <= Pow2(a) <= Pow2(b)
    decreases b
  {
    if a < b {
      PowGrows(a, b - 1);
    } else if a > 0 {
      PowGrows(a - 1, b - 1);
    }
  }

  // A wrapped multiple of 2^33 is still one, so it is never in (0, 2^33).
  lemma WrapKeepsFactor(m: int)
    ensures Wrap64(TWO_33 * m) <= 0 || Wrap64(TWO_33 * m) >= TWO_33
  {
    var q, r := m / TWO_31, m % TWO_31;
    assert TWO_33 * m == TWO_64 * q + TWO_33 * r;
    assert (TWO_33 * m) % TWO_64 == TWO_33 * r;
  }
}
