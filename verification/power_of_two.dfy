/** Rounding up to a power of two by bit smearing, as the atlas sizing does:
    subtract one, OR the value with itself shifted right by 1, 2, 4, 8 and 16
    bits, add one.  The bit operations are modelled on non-negative integers,
    which is where the 32-bit code uses them (its argument is positive at that
    point); only the final increment can leave the 32-bit range, and it wraps. */
module PowerOfTwo {
  import opened Common

  // ---------------------------------------------------------------------------
  // Bits of non-negative integers.
  // ---------------------------------------------------------------------------

  /** Bitwise OR. */
  function BitOr(a: nat, b: nat): nat
    decreases a + b
  {
    if a == 0 then b
    else if b == 0 then a
    else 2 * BitOr(a / 2, b / 2) + (if a % 2 == 1 || b % 2 == 1 then 1 else 0)
  }

  /** Shift right by `s` bits (`>>` on a non-negative value). */
  function Shr(v: nat, s: nat): nat {
    if s == 0 then v else Shr(v / 2, s - 1)
  }

  /** Bit `j` of `v` is set. */
  predicate Bit(v: nat, j: nat) {
    Shr(v, j) % 2 == 1
  }

  /** Number of significant bits: 0 for 0. */
  function BitLength(v: nat): nat {
    if v == 0 then 0 else 1 + BitLength(v / 2)
  }

  lemma BitOrHalf(a: nat, b: nat)
    ensures BitOr(a, b) / 2 == BitOr(a / 2, b / 2)
    ensures BitOr(a, b) % 2 == 1 <==> a % 2 == 1 || b % 2 == 1
  {
  }

  lemma {:induction false} ShrHalf(v: nat, s: nat)
    ensures Shr(v, s) / 2 == Shr(v / 2, s)
    decreases s
  {
    if s > 0 {
      ShrHalf(v / 2, s - 1);
    }
  }

  lemma {:induction false} ShrAdd(v: nat, a: nat, b: nat)
    ensures Shr(Shr(v, a), b) == Shr(v, a + b)
    decreases a
  {
    if a > 0 {
      ShrAdd(v / 2, a - 1, b);
    }
  }

  /** Shifting distributes over OR. */
  lemma {:induction false} ShrBitOr(a: nat, b: nat, j: nat)
    ensures Shr(BitOr(a, b), j) == BitOr(Shr(a, j), Shr(b, j))
    decreases j
  {
    if j > 0 {
      BitOrHalf(a, b);
      ShrBitOr(a / 2, b / 2, j - 1);
    }
  }

  /** A bit of an OR is set iff it is set in either operand. */
  lemma BitOfBitOr(a: nat, b: nat, j: nat)
    ensures Bit(BitOr(a, b), j) <==> Bit(a, j) || Bit(b, j)
  {
    ShrBitOr(a, b, j);
    BitOrHalf(Shr(a, j), Shr(b, j));
  }

  /** The highest set bit of a positive value. */
  lemma {:induction false} TopBit(v: nat)
    requires v >= 1
    ensures Shr(v, BitLength(v) - 1) == 1
  {
    if v >= 2 {
      TopBit(v / 2);
    }
  }

  lemma {:induction false} BitLengthBounds(v: nat)
    ensures v < Pow2(BitLength(v))
    ensures v >= 1 ==> Pow2(BitLength(v) - 1) <= v
  {
    if v >= 1 {
      BitLengthBounds(v / 2);
    }
  }

  lemma {:induction false} BitLengthAtMost(v: nat, n: nat)
    requires v < Pow2(n)
    ensures BitLength(v) <= n
  {
    if v >= 1 {
      BitLengthAtMost(v / 2, n - 1);
    }
  }

  lemma {:induction false} Pow2Monotone(a: nat, b: nat)
    requires a <= b
    ensures Pow2(a) <= Pow2(b)
    decreases b
  {
    if a < b {
      Pow2Monotone(a, b - 1);
    }
  }

  lemma {:induction false} Pow2Add(a: nat, b: nat)
    ensures Pow2(a + b) == Pow2(a) * Pow2(b)
    decreases a
  {
    if a > 0 {
      Pow2Add(a - 1, b);
    }
  }

  lemma Pow2Values()
    ensures Pow2(30) == 0x4000_0000 && Pow2(31) == 0x8000_0000 && Pow2(32) == 0x1_0000_0000
  {
    assert Pow2(4) == 16;
    Pow2Add(4, 4);
    Pow2Add(8, 8);
    Pow2Add(16, 14);
    Pow2Add(16, 15);
    Pow2Add(16, 16);
  }

  // ---------------------------------------------------------------------------
  // Smearing.
  // ---------------------------------------------------------------------------

  /** `v |= v >> s`. */
  function Step(v: nat, s: nat): nat {
    BitOr(v, Shr(v, s))
  }

  /** The five smearing steps of the rounding. */
  function Smear(v: nat): nat {
    Step(Step(Step(Step(Step(v, 1), 2), 4), 8), 16)
  }

  /** Bit j after a step is bit j or bit j + s before it. */
  lemma BitOfStep(v: nat, s: nat, j: nat)
    ensures Bit(Step(v, s), j) <==> Bit(v, j) || Bit(v, j + s)
  {
    BitOfBitOr(v, Shr(v, s), j);
    ShrAdd(v, s, j);
  }

  /** Some bit of `v` in [lo, lo + n) is set. */
  ghost predicate AnyBit(v: nat, lo: nat, n: nat) {
    exists i :: lo <= i < lo + n && Bit(v, i)
  }

  /** After a step by s, bit j covers the bits [j, j + 2s) of a value whose bit
      j covered [j, j + s). */
  lemma StepWidens(u: nat, v: nat, s: nat)
    requires forall j: nat :: Bit(u, j) <==> AnyBit(v, j, s)
    ensures forall j: nat :: Bit(Step(u, s), j) <==> AnyBit(v, j, 2 * s)
  {
    forall j: nat ensures Bit(Step(u, s), j) <==> AnyBit(v, j, 2 * s) {
      BitOfStep(u, s, j);
      if AnyBit(v, j, 2 * s) {
        var i :| j <= i < j + 2 * s && Bit(v, i);
        if i < j + s {
          assert AnyBit(v, j, s);
        } else {
          assert AnyBit(v, j + s, s);
        }
      }
    }
  }

  /** Bit 0 of the smeared value is set iff one of the low 32 bits is. */
  lemma SmearLowBit(v: nat)
    ensures Bit(Smear(v), 0) <==> AnyBit(v, 0, 32)
  {
    assert forall j: nat :: Bit(v, j) <==> AnyBit(v, j, 1) by {
      forall j: nat ensures Bit(v, j) <==> AnyBit(v, j, 1) {
        if AnyBit(v, j, 1) {
          var i :| j <= i < j + 1 && Bit(v, i);
          assert i == j;
        }
      }
    }
    var s1 := Step(v, 1);
    StepWidens(v, v, 1);
    var s2 := Step(s1, 2);
    StepWidens(s1, v, 2);
    var s3 := Step(s2, 4);
    StepWidens(s2, v, 4);
    var s4 := Step(s3, 8);
    StepWidens(s3, v, 8);
    StepWidens(s4, v, 16);
  }

  /** Halving commutes with a step. */
  lemma StepHalf(v: nat, s: nat)
    ensures Step(v, s) / 2 == Step(v / 2, s)
  {
    BitOrHalf(v, Shr(v, s));
    ShrHalf(v, s);
  }

  lemma SmearHalf(v: nat)
    ensures Smear(v) / 2 == Smear(v / 2)
  {
    var s1 := Step(v, 1);
    var s2 := Step(s1, 2);
    var s3 := Step(s2, 4);
    var s4 := Step(s3, 8);
    StepHalf(v, 1);
    StepHalf(s1, 2);
    StepHalf(s2, 4);
    StepHalf(s3, 8);
    StepHalf(s4, 16);
  }

  /** A positive value below 2^32 has its low bit smeared on. */
  lemma SmearOdd(v: nat)
    requires 1 <= v < Pow2(32)
    ensures Smear(v) % 2 == 1
  {
    TopBit(v);
    BitLengthAtMost(v, 32);
    assert Bit(v, BitLength(v) - 1);
    assert AnyBit(v, 0, 32);
    SmearLowBit(v);
  }

  /** Smearing a value below 2^32 sets every bit below its highest set bit. */
  lemma {:induction false} SmearAllOnes(v: nat)
    requires v < Pow2(32)
    ensures Smear(v) == Pow2(BitLength(v)) - 1
  {
    if v == 0 {
      assert Smear(0) == 0;
    } else {
      SmearAllOnes(v / 2);
      SmearHalf(v);
      SmearOdd(v);
    }
  }

  // ---------------------------------------------------------------------------
  // Rounding up.
  // ---------------------------------------------------------------------------

  /** C#'s unchecked 32-bit wrap-around. */
  function Wrap32(x: int): (r: int)
    ensures INT32_MIN <= r <= INT32_MAX
    ensures INT32_MIN <= x <= INT32_MAX ==> r == x
    ensures x == INT32_MAX + 1 ==> r == INT32_MIN
  {
    (x - INT32_MIN) % 0x1_0000_0000 + INT32_MIN
  }

  ghost predicate IsPowerOfTwo(n: int) {
    exists k: nat :: n == Pow2(k)
  }

  /** The rounding in closed form: 1 for non-positive values, else 2 to the
      number of bits of `value - 1`, wrapped to 32 bits. */
  function NextPowerOfTwoValue(value: int32): int32 {
    if value <= 0 then 1
    else
      BitLengthBounds(value as int - 1);
      Wrap32(Pow2(BitLength(value as int - 1))) as int32
  }

  /** For 1 <= value <= 2^30 the result is the least power of two that is at
      least `value`. */
  lemma NextPowerOfTwoIsLeast(value: int32)
    requires 1 <= value as int <= Pow2(30)
    ensures var r := NextPowerOfTwoValue(value) as int;
      IsPowerOfTwo(r) && value as int <= r &&
      forall k: nat :: Pow2(k) >= value as int ==> Pow2(k) >= r
  {
    var v := value as int - 1;
    var len := BitLength(v);
    BitLengthBounds(v);
    BitLengthAtMost(v, 30);
    Pow2Monotone(len, 30);
    Pow2Values();
    var r := NextPowerOfTwoValue(value) as int;
    assert r == Pow2(len);
    forall k: nat | Pow2(k) >= value as int ensures Pow2(k) >= r {
      if k < len {
        Pow2Monotone(k, len - 1);
      } else {
        Pow2Monotone(len, k);
      }
    }
  }

  /** Powers of two up to 2^30 are left unchanged. */
  lemma PowerOfTwoUnchanged(k: nat)
    requires k <= 30
    ensures Pow2(k) <= INT32_MAX
    ensures NextPowerOfTwoValue(Pow2(k) as int32) as int == Pow2(k)
  {
    Pow2Monotone(k, 30);
    Pow2Values();
    NextPowerOfTwoIsLeast(Pow2(k) as int32);
  }

  /** Above 2^30 the increment overflows and the result is the most negative
      32-bit value. */
  lemma NextPowerOfTwoOverflows(value: int32)
    requires Pow2(30) < value as int
    ensures NextPowerOfTwoValue(value) as int == INT32_MIN
  {
    var v := value as int - 1;
    Pow2Values();
    BitLengthBounds(v);
    BitLengthAtMost(v, 31);
    if BitLength(v) < 31 {
      Pow2Monotone(BitLength(v), 30);
    }
  }

  /** The rounding as written: decrement, five OR-with-shift steps, increment. */
  method NextPowerOfTwo(value: int32) returns (r: int32)
    ensures r == NextPowerOfTwoValue(value)
    ensures value <= 0 ==> r == 1
  {
    if value <= 0 {
      return 1;
    }
    var v: nat := value as int - 1;
    ghost var v0 := v;
    v := BitOr(v, Shr(v, 1));
    v := BitOr(v, Shr(v, 2));
    v := BitOr(v, Shr(v, 4));
    v := BitOr(v, Shr(v, 8));
    v := BitOr(v, Shr(v, 16));
    assert v == Smear(v0);
    Pow2Values();
    SmearAllOnes(v0);
    r := Wrap32(v + 1) as int32;
  }
}
