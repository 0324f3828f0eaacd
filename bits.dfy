/**
 * Python's unbounded non-negative integers seen as bit strings: powers of two,
 * bit tests, and the bitwise operators `|`, `&` and `& ~` on naturals.
 * Everything is characterised bit by bit, and `BitsEqual` turns a
 * bit-by-bit agreement back into an equality of numbers.
 */
module Bits {

  /** `1 << n` */
  function Pow2(n: nat): (r: nat)
    ensures r >= 1
  {
    if n == 0 then 1 else 2 * Pow2(n - 1)
  }

  /** `(x >> i) & 1 == 1` */
  predicate Bit(x: nat, i: nat)
  {
    if i == 0 then x % 2 == 1 else Bit(x / 2, i - 1)
  }

  /** `a | b` */
  function Or(a: nat, b: nat): nat
    decreases a + b
  {
    if a == 0 && b == 0 then 0
    else 2 * Or(a / 2, b / 2) + (if a % 2 == 1 || b % 2 == 1 then 1 else 0)
  }

  /** `a & b` */
  function And(a: nat, b: nat): nat
    decreases a + b
  {
    if a == 0 || b == 0 then 0
    else 2 * And(a / 2, b / 2) + (if a % 2 == 1 && b % 2 == 1 then 1 else 0)
  }

  /** `a & ~b` */
  function AndNot(a: nat, b: nat): nat
    decreases a
  {
    if a == 0 then 0
    else 2 * AndNot(a / 2, b / 2) + (if a % 2 == 1 && b % 2 == 0 then 1 else 0)
  }

  /** `x >> n` */
  function Shr(x: nat, n: nat): nat
  {
    if n == 0 then x else Shr(x / 2, n - 1)
  }

  /** `x.bit_length()` */
  function BitLength(x: nat): nat
  {
    if x == 0 then 0 else 1 + BitLength(x / 2)
  }

  /** Number of set bits. */
  function PopCount(x: nat): nat
  {
    if x == 0 then 0 else x % 2 + PopCount(x / 2)
  }

  lemma {:induction false} BitOr(a: nat, b: nat, i: nat)
    ensures Bit(Or(a, b), i) == (Bit(a, i) || Bit(b, i))
    decreases i
  {
    if a == 0 && b == 0 {
      ZeroHasNoBits(i);
    } else if i > 0 {
      BitOr(a / 2, b / 2, i - 1);
    }
  }

  lemma {:induction false} BitAnd(a: nat, b: nat, i: nat)
    ensures Bit(And(a, b), i) == (Bit(a, i) && Bit(b, i))
    decreases i
  {
    if a == 0 || b == 0 {
      ZeroHasNoBits(i);
    } else if i > 0 {
      BitAnd(a / 2, b / 2, i - 1);
    }
  }

  lemma {:induction false} BitAndNot(a: nat, b: nat, i: nat)
    ensures Bit(AndNot(a, b), i) == (Bit(a, i) && !Bit(b, i))
    decreases i
  {
    if a == 0 {
      ZeroHasNoBits(i);
    } else if i > 0 {
      BitAndNot(a / 2, b / 2, i - 1);
    }
  }

  lemma {:induction false} ZeroHasNoBits(i: nat)
    ensures !Bit(0, i)
  {
    if i > 0 { ZeroHasNoBits(i - 1); }
  }

  /** Two numbers with the same bits are equal. */
  lemma {:induction false} BitsEqual(x: nat, y: nat)
    requires forall i: nat :: Bit(x, i) == Bit(y, i)
    ensures x == y
    decreases x + y
  {
    assert Bit(x, 0) == Bit(y, 0);
    if x != 0 || y != 0 {
      forall i: nat ensures Bit(x / 2, i) == Bit(y / 2, i) {
        assert Bit(x, i + 1) == Bit(y, i + 1);
      }
      BitsEqual(x / 2, y / 2);
    }
  }

  lemma {:induction false} BitPow2(n: nat, i: nat)
    ensures Bit(Pow2(n), i) == (i == n)
    decreases n
  {
    if n == 0 {
      if i > 0 { ZeroHasNoBits(i - 1); }
    } else if i > 0 {
      BitPow2(n - 1, i - 1);
    }
  }

  /** A number below `2^n` has no bit at or above `n`. */
  lemma {:induction false} BitBelow(x: nat, n: nat, i: nat)
    requires x < Pow2(n) && i >= n
    ensures !Bit(x, i)
    decreases i
  {
    if i == 0 {
    } else if n == 0 {
      assert x == 0;
      ZeroHasNoBits(i);
    } else {
      BitBelow(x / 2, n - 1, i - 1);
    }
  }

  /** A number with no bit at or above `n` is below `2^n`. */
  lemma {:induction false} BelowFromBits(x: nat, n: nat)
    requires forall i: nat :: i >= n ==> !Bit(x, i)
    ensures x < Pow2(n)
    decreases n
  {
    if n == 0 {
      forall i: nat ensures Bit(x, i) == Bit(0, i) {
        ZeroHasNoBits(i);
      }
      BitsEqual(x, 0);
    } else {
      forall i: nat | i >= n - 1 ensures !Bit(x / 2, i) {
        assert !Bit(x, i + 1);
      }
      BelowFromBits(x / 2, n - 1);
    }
  }

  /** Bits of `x * 2^n` (`x << n`). */
  lemma {:induction false} BitShiftLeft(x: nat, n: nat, i: nat)
    ensures Bit(x * Pow2(n), i) == (i >= n && Bit(x, i - n))
    decreases n
  {
    if n > 0 {
      assert x * Pow2(n) == 2 * (x * Pow2(n - 1));
      if i == 0 {
      } else {
        BitShiftLeft(x, n - 1, i - 1);
      }
    }
  }

  /** Bits of `x / 2^n` (`x >> n`). */
  lemma {:induction false} BitShiftRight(x: nat, n: nat, i: nat, q: nat)
    requires q == x / Pow2(n)
    ensures Bit(q, i) == Bit(x, i + n)
    decreases n
  {
    if n > 0 {
      DivPow2Succ(x, n - 1);
      BitShiftRight(x / 2, n - 1, i, q);
    }
  }

  /** Bits of `x % 2^n` (`x & ((1 << n) - 1)`). */
  lemma {:induction false} BitMod(x: nat, n: nat, i: nat)
    ensures Bit(x % Pow2(n), i) == (i < n && Bit(x, i))
    decreases n
  {
    if n == 0 {
      assert x % Pow2(n) == 0;
      ZeroHasNoBits(i);
    } else {
      ModPow2Succ(x, n - 1);
      var low: nat := (x / 2) % Pow2(n - 1);
      var r: nat := x % Pow2(n);
      assert r == 2 * low + x % 2;
      assert r / 2 == low && r % 2 == x % 2;
      if i > 0 {
        BitMod(x / 2, n - 1, i - 1);
        assert Bit(r, i) == Bit(low, i - 1);
      }
    }
  }

  /** Division with remainder is determined by quotient and remainder. */
  lemma DivModUnique(x: int, d: int, q: int, r: int)
    requires d > 0 && 0 <= r < d && x == q * d + r
    ensures x / d == q && x % d == r
  {
    var q0, r0 := x / d, x % d;
    assert (q - q0) * d == r0 - r by {
      assert x == q0 * d + r0;
    }
    if q > q0 {
      MulAtLeast(q - q0, d);
    } else if q < q0 {
      MulAtLeast(q0 - q, d);
    }
  }

  lemma MulAtLeast(k: int, d: int)
    requires k >= 1 && d > 0
    ensures k * d >= d
  {
    assert k * d == (k - 1) * d + d;
    assert (k - 1) * d >= 0;
  }

  lemma DivPow2Succ(x: nat, n: nat)
    ensures x / Pow2(n + 1) == (x / 2) / Pow2(n)
  {
    var p := Pow2(n);
    var q := (x / 2) / p;
    var r := (x / 2) % p;
    assert x / 2 == q * p + r;
    assert x == q * (2 * p) + (2 * r + x % 2);
    DivModUnique(x, 2 * p, q, 2 * r + x % 2);
  }

  lemma ModPow2Succ(x: nat, n: nat)
    ensures x % Pow2(n + 1) == 2 * ((x / 2) % Pow2(n)) + x % 2
  {
    var p := Pow2(n);
    var q := (x / 2) / p;
    var r := (x / 2) % p;
    assert x / 2 == q * p + r;
    assert x == q * (2 * p) + (2 * r + x % 2);
    DivModUnique(x, 2 * p, q, 2 * r + x % 2);
  }

  /** `a | b` is `a + b` when the two have no bit in common. */
  lemma {:induction false} OrDisjoint(a: nat, b: nat)
    requires forall i: nat :: !(Bit(a, i) && Bit(b, i))
    ensures Or(a, b) == a + b
    decreases a + b
  {
    if a != 0 || b != 0 {
      assert !(Bit(a, 0) && Bit(b, 0));
      forall i: nat ensures !(Bit(a / 2, i) && Bit(b / 2, i)) {
        assert !(Bit(a, i + 1) && Bit(b, i + 1));
      }
      OrDisjoint(a / 2, b / 2);
    }
  }

  /** A low part below `2^n` and a high part shifted by `n` do not overlap. */
  lemma OrBelowShifted(lo: nat, hi: nat, n: nat)
    requires lo < Pow2(n)
    ensures Or(lo, hi * Pow2(n)) == lo + hi * Pow2(n)
  {
    forall i: nat ensures !(Bit(lo, i) && Bit(hi * Pow2(n), i)) {
      BitShiftLeft(hi, n, i);
      if i >= n { BitBelow(lo, n, i); }
    }
    OrDisjoint(lo, hi * Pow2(n));
  }

  lemma OrCommutes(a: nat, b: nat)
    ensures Or(a, b) == Or(b, a)
  {
    forall i: nat ensures Bit(Or(a, b), i) == Bit(Or(b, a), i) {
      BitOr(a, b, i);
      BitOr(b, a, i);
    }
    BitsEqual(Or(a, b), Or(b, a));
  }

  lemma OrZero(a: nat)
    ensures Or(a, 0) == a && Or(0, a) == a
  {
    forall i: nat ensures Bit(Or(a, 0), i) == Bit(a, i) && Bit(Or(0, a), i) == Bit(a, i) {
      BitOr(a, 0, i);
      BitOr(0, a, i);
      ZeroHasNoBits(i);
    }
    BitsEqual(Or(a, 0), a);
    BitsEqual(Or(0, a), a);
  }

  lemma Pow2Add(m: nat, n: nat)
    ensures Pow2(m + n) == Pow2(m) * Pow2(n)
    decreases m
  {
    if m > 0 {
      Pow2Add(m - 1, n);
    }
  }

  lemma {:induction false} Pow2Monotone(m: nat, n: nat)
    requires m <= n
    ensures Pow2(m) <= Pow2(n)
    decreases n
  {
    if m < n { Pow2Monotone(m, n - 1); }
  }

  /** `x.bit_length()` is the least `n` with `x < 2^n`. */
  lemma {:induction false} BitLengthBound(x: nat)
    ensures x < Pow2(BitLength(x))
    ensures x > 0 ==> Pow2(BitLength(x) - 1) <= x
  {
    if x > 0 { BitLengthBound(x / 2); }
  }

  /** A bit at `i` means the bit length exceeds `i`. */
  lemma BitLengthAbove(x: nat, i: nat)
    requires Bit(x, i)
    ensures i < BitLength(x)
  {
    BitLengthBound(x);
    if BitLength(x) <= i { BitBelow(x, BitLength(x), i); }
  }

  /** `x >> n` is floor division by `2^n`. */
  lemma {:induction false} ShrDiv(x: nat, n: nat)
    ensures Shr(x, n) == x / Pow2(n)
    decreases n
  {
    if n > 0 {
      ShrDiv(x / 2, n - 1);
      DivPow2Succ(x, n - 1);
    }
  }

  /** `x & ((1 << n) - 1)` keeps the low `n` bits: it is `x % 2^n`. */
  lemma LowMask(x: nat, n: nat)
    ensures And(x, Pow2(n) - 1) == x % Pow2(n)
  {
    forall i: nat ensures Bit(And(x, Pow2(n) - 1), i) == Bit(x % Pow2(n), i) {
      BitAnd(x, Pow2(n) - 1, i);
      BitMod(x, n, i);
      BitMod(Pow2(n) - 1, n, i);
      if i < n {
        OnesBelow(n, i);
      } else {
        BitBelow(Pow2(n) - 1, n, i);
      }
    }
    BitsEqual(And(x, Pow2(n) - 1), x % Pow2(n));
  }

  /** Every bit of `2^n - 1` below `n` is set. */
  lemma {:induction false} OnesBelow(n: nat, i: nat)
    requires i < n
    ensures Bit(Pow2(n) - 1, i)
    decreases n
  {
    if i > 0 {
      assert (Pow2(n) - 1) / 2 == Pow2(n - 1) - 1;
      OnesBelow(n - 1, i - 1);
    }
  }

  lemma {:induction false} ShrSucc(x: nat, n: nat)
    ensures Shr(x, n + 1) == Shr(x, n) / 2
    decreases n
  {
    if n > 0 { ShrSucc(x / 2, n - 1); }
  }

  lemma {:induction false} ShrBit(x: nat, n: nat)
    ensures Shr(x, n) % 2 == 1 <==> Bit(x, n)
    decreases n
  {
    if n > 0 { ShrBit(x / 2, n - 1); }
  }

  lemma {:induction false} ShrBelow(x: nat, n: nat)
    requires x < Pow2(n)
    ensures Shr(x, n) == 0
    decreases n
  {
    if n > 0 { ShrBelow(x / 2, n - 1); }
  }
}
