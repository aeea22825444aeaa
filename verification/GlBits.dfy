/** Unsigned words as naturals, with the bit operations the software rasteriser applies to its
    row bitmaps. Bit 0 is the least significant. */
module GlBits {

  const ALL_ONES: nat := 0xFFFF_FFFF

  predicate Bit(m: nat, k: nat) {
    if k == 0 then m % 2 == 1 else Bit(m / 2, k - 1)
  }

  /** `m >> c` */
  function Shr(m: nat, c: nat): nat {
    if c == 0 then m else Shr(m / 2, c - 1)
  }

  /** `m | (1 << k)` */
  function SetBit(m: nat, k: nat): nat {
    if k == 0 then (if m % 2 == 1 then m else m + 1) else 2 * SetBit(m / 2, k - 1) + m % 2
  }

  /** `__builtin_ctz`: the number of trailing zero bits, undefined for zero. */
  function Ctz(m: nat): nat
    requires m != 0
  {
    if m % 2 == 1 then 0 else 1 + Ctz(m / 2)
  }

  /** The number of zero bits among the lowest `n`. */
  function Zeros(m: nat, n: nat): nat {
    if n == 0 then 0 else (if m % 2 == 0 then 1 else 0) + Zeros(m / 2, n - 1)
  }

  function Pow2(n: nat): nat {
    if n == 0 then 1 else 2 * Pow2(n - 1)
  }

  lemma {:induction false} BitShr(m: nat, c: nat, k: nat)
    ensures Bit(Shr(m, c), k) == Bit(m, c + k)
  {
    if c != 0 { BitShr(m / 2, c - 1, k); }
  }

  lemma {:induction false} ShrSmaller(m: nat, c: nat)
    ensures Shr(m, c) <= m && (m != 0 && c != 0 ==> Shr(m, c) < m)
  {
    if c != 0 { ShrSmaller(m / 2, c - 1); }
  }

  /** The run of zeros at the bottom of a word. */
  lemma {:induction false} CtzRun(m: nat)
    requires m != 0
    ensures Bit(m, Ctz(m)) && forall k: nat :: k < Ctz(m) ==> !Bit(m, k)
  {
    if m % 2 == 0 {
      CtzRun(m / 2);
    }
  }

  /** Adding one turns the run of ones at the bottom into zeros. */
  lemma {:induction false} CtzOnesRun(m: nat)
    ensures !Bit(m, Ctz(m + 1)) && forall k: nat :: k < Ctz(m + 1) ==> Bit(m, k)
  {
    if m % 2 == 1 {
      assert (m + 1) / 2 == m / 2 + 1;
      CtzOnesRun(m / 2);
    }
  }

  lemma {:induction false} BitsOfZero(k: nat)
    ensures !Bit(0, k)
  {
    if k != 0 { BitsOfZero(k - 1); }
  }

  lemma {:induction false} HighBits(m: nat, n: nat, k: nat)
    requires m < Pow2(n) && n <= k
    ensures !Bit(m, k)
  {
    if n == 0 { BitsOfZero(k); } else { HighBits(m / 2, n - 1, k - 1); }
  }

  lemma {:induction false} BitSetBit(m: nat, k: nat, j: nat)
    ensures Bit(SetBit(m, k), j) == (j == k || Bit(m, j))
  {
    if k == 0 {
      if m % 2 == 0 { assert (m + 1) / 2 == m / 2; }
    } else {
      var s := SetBit(m / 2, k - 1);
      assert (2 * s + m % 2) / 2 == s && (2 * s + m % 2) % 2 == m % 2;
      if j != 0 { BitSetBit(m / 2, k - 1, j - 1); }
    }
  }

  /** One more binary digit below a doubled bound. */
  lemma {:induction false} DigitBelow(high: nat, low: nat, bound: nat)
    requires low < 2
    ensures 2 * high + low < 2 * bound <==> high < bound
  {
  }

  lemma {:induction false} SetBitBound(m: nat, k: nat, n: nat)
    requires m < Pow2(n) && k < n
    ensures SetBit(m, k) < Pow2(n)
  {
    var high, low, bound := m / 2, m % 2, Pow2(n - 1);
    assert m == 2 * high + low && Pow2(n) == 2 * bound;
    DigitBelow(high, low, bound);
    if k == 0 {
      DigitBelow(high, 1, bound);
      assert SetBit(m, 0) == 2 * high + 1;
    } else {
      SetBitBound(high, k - 1, n - 1);
      DigitBelow(SetBit(high, k - 1), low, bound);
      assert SetBit(m, k) == 2 * SetBit(high, k - 1) + low;
    }
  }

  lemma {:induction false} ZerosSetBit(m: nat, k: nat, n: nat)
    requires k < n && !Bit(m, k)
    ensures Zeros(m, n) == Zeros(SetBit(m, k), n) + 1
  {
    if k != 0 {
      var s := SetBit(m / 2, k - 1);
      assert (2 * s + m % 2) / 2 == s && (2 * s + m % 2) % 2 == m % 2;
      ZerosSetBit(m / 2, k - 1, n - 1);
    } else {
      assert (m + 1) / 2 == m / 2;
    }
  }

  /** Shifting out a run of `c` equal bits removes them from the count. */
  lemma {:induction false} ZerosShr(m: nat, c: nat, n: nat, b: bool)
    requires c <= n && forall k: nat :: k < c ==> Bit(m, k) == b
    ensures Zeros(m, n) == Zeros(Shr(m, c), n - c) + if b then 0 else c
  {
    if c != 0 {
      assert Bit(m, 0) == b;
      forall k: nat | k < c - 1 ensures Bit(m / 2, k) == b {
        assert Bit(m, k + 1) == b;
      }
      ZerosShr(m / 2, c - 1, n - 1, b);
    }
  }

  lemma {:induction false} ZerosOfZero(n: nat)
    ensures Zeros(0, n) == n
  {
    if n != 0 { ZerosOfZero(n - 1); }
  }

  lemma {:induction false} NoZeros(m: nat, n: nat)
    requires forall k: nat :: k < n ==> Bit(m, k)
    ensures Zeros(m, n) == 0
  {
    if n != 0 {
      assert Bit(m, 0);
      forall k: nat | k < n - 1 ensures Bit(m / 2, k) {
        assert Bit(m, k + 1);
      }
      NoZeros(m / 2, n - 1);
    }
  }

  lemma {:induction false} NoZerosBit(m: nat, n: nat, k: nat)
    requires Zeros(m, n) == 0 && k < n
    ensures Bit(m, k)
  {
    if k != 0 { NoZerosBit(m / 2, n - 1, k - 1); }
  }

  lemma {:induction false} OnesBits(n: nat, k: nat)
    requires k < n
    ensures Pow2(n) >= 1 && Bit(Pow2(n) - 1, k)
  {
    Pow2Monotone(0, n - 1);
    var half := Pow2(n - 1);
    assert Pow2(n) == 2 * half;
    OddHalf(half);
    if k != 0 {
      OnesBits(n - 1, k - 1);
      assert Bit(2 * half - 1, k) == Bit(half - 1, k - 1);
    }
  }

  lemma {:induction false} OddHalf(half: nat)
    requires half >= 1
    ensures (2 * half - 1) / 2 == half - 1 && (2 * half - 1) % 2 == 1
  {
  }

  lemma {:induction false} AllOnesUnique(m: nat, n: nat)
    requires m < Pow2(n) && Zeros(m, n) == 0
    ensures m == Pow2(n) - 1
  {
    if n != 0 { AllOnesUnique(m / 2, n - 1); }
  }

  lemma {:induction false} Pow2Is32()
    ensures Pow2(32) == 0x1_0000_0000
  {
    assert Pow2(8) == 256;
    assert Pow2(16) == 65536;
    assert Pow2(24) == 0x100_0000;
  }

  /** `~0U << s`: ones from bit `s` up to bit 31. */
  function TopOnes(s: nat): (r: nat)
    requires s <= 32
    ensures r <= ALL_ONES
  {
    Pow2Monotone(s, 32);
    Pow2Is32();
    Pow2(32) - Pow2(s)
  }

  lemma {:induction false} Pow2Monotone(a: nat, b: nat)
    requires a <= b
    ensures 1 <= Pow2(a) <= Pow2(b)
  {
    if a != 0 { Pow2Monotone(a - 1, b - 1); } else if b != 0 { Pow2Monotone(a, b - 1); }
  }

  lemma {:induction false} TopOnesBits(n: nat, s: nat, k: nat)
    requires s <= n && k < n
    ensures Pow2(s) <= Pow2(n) && Bit(Pow2(n) - Pow2(s), k) == (s <= k)
  {
    Pow2Monotone(s, n);
    if s == 0 {
      OnesBits(n, k);
    } else {
      assert (Pow2(n) - Pow2(s)) / 2 == Pow2(n - 1) - Pow2(s - 1);
      if k != 0 { TopOnesBits(n - 1, s - 1, k - 1); }
    }
  }

  lemma {:induction false} OnesNoZeros(n: nat)
    ensures Pow2(n) >= 1 && Zeros(Pow2(n) - 1, n) == 0
  {
    Pow2Monotone(0, n);
    if n != 0 {
      OnesNoZeros(n - 1);
      OddHalf(Pow2(n - 1));
    }
  }

  lemma {:induction false} TopOnesZeros(n: nat, s: nat)
    requires s <= n
    ensures Pow2(s) <= Pow2(n) && Zeros(Pow2(n) - Pow2(s), n) == s
  {
    Pow2Monotone(s, n);
    if s == 0 {
      OnesNoZeros(n);
    } else {
      assert (Pow2(n) - Pow2(s)) / 2 == Pow2(n - 1) - Pow2(s - 1);
      TopOnesZeros(n - 1, s - 1);
    }
  }
}
