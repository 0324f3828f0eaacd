/**
 * The bit-field codec of `avrzero/instruction.py` (`Opcode.binary_mask`,
 * `Opcode.map_int`, `Opcode.get_int`).
 *
 * Each helper is a loop in the source; here each loop is a method proved
 * equal to a recursive specification function (`SelectMask`, `Scatter`,
 * `Gather`), and what the codec promises is proved about those functions.
 */
module Codec {
  import opened Bits

  /**
   * The mask with bit i set iff the character i places from the end of
   * `code` (the pattern is written most significant character first) is one
   * of `select`.
   */
  function SelectMask(code: string, select: string): nat
  {
    if code == [] then 0
    else (if code[0] in select then Pow2(|code| - 1) else 0) + SelectMask(code[1..], select)
  }

  /** `value`'s bit k placed in the k-th set bit of `mask`, counting from bit 0. */
  function Scatter(value: nat, mask: nat): nat
  {
    if mask == 0 then 0
    else if mask % 2 == 1 then 2 * Scatter(value / 2, mask / 2) + value % 2
    else 2 * Scatter(value, mask / 2)
  }

  /** The bits of `packed` under the set bits of `mask`, squeezed together. */
  function Gather(packed: nat, mask: nat): nat
  {
    if mask == 0 then 0
    else if mask % 2 == 1 then 2 * Gather(packed / 2, mask / 2) + packed % 2
    else Gather(packed / 2, mask / 2)
  }

  // ---------------------------------------------------------------------------
  // The source's loops
  // ---------------------------------------------------------------------------

  /** `Opcode.binary_mask`: walk the reversed pattern, setting bit i on a hit. */
  method BinaryMask(code: string, select: string) returns (mask: nat)
    ensures mask == SelectMask(code, select)
    ensures forall i: nat :: Bit(mask, i) <==> i < |code| && code[|code| - 1 - i] in select
  {
    mask := 0;
    var i := 0;
    while i < |code|
      invariant 0 <= i <= |code|
      invariant mask == SelectMask(code[|code| - i..], select)
    {
      SelectMaskBound(code[|code| - i..], select);
      assert code[|code| - (i + 1)..][1..] == code[|code| - i..];
      if code[|code| - 1 - i] in select {
        OrBelowShifted(mask, 1, i);
        mask := Or(mask, Pow2(i));
      }
      i := i + 1;
    }
    assert code[|code| - i..] == code;
    forall i: nat ensures Bit(mask, i) <==> i < |code| && code[|code| - 1 - i] in select {
      SelectMaskBit(code, select, i);
    }
  }

  /** `Opcode.map_int`: deal the low bits of `integer` into the set bits of `mask`. */
  method MapInt(integer: nat, mask: nat) returns (mapped: nat)
    ensures mapped == Scatter(integer, mask)
  {
    mapped := 0;
    var value: nat, rest: nat, weight: nat := integer, mask, 0;
    while rest != 0
      invariant mapped < Pow2(weight)
      invariant Scatter(integer, mask) == mapped + Pow2(weight) * Scatter(value, rest)
      decreases rest
    {
      if rest % 2 == 1 {
        MapIntStepOdd(Scatter(integer, mask), mapped, value, rest, weight);
        mapped := Or(mapped, (value % 2) * Pow2(weight));
        value := value / 2;
      } else {
        MapIntStepEven(Scatter(integer, mask), mapped, value, rest, weight);
      }
      rest := rest / 2;
      weight := weight + 1;
    }
  }

  /** `Opcode.get_int`: read the bits of `mapped` under `mask`, most significant first. */
  method GetInt(mapped: nat, mask: nat) returns (integer: nat)
    ensures integer == Gather(mapped, mask)
  {
    var bitLen: int := BitLength(mask) - 1;
    integer := 0;
    BitLengthBound(mask);
    ShrBelow(mask, BitLength(mask));
    while bitLen >= 0
      invariant -1 <= bitLen
      invariant integer == Gather(Shr(mapped, bitLen + 1), Shr(mask, bitLen + 1))
      decreases bitLen + 1
    {
      GatherStep(mapped, mask, bitLen);
      AndPow2(mask, bitLen);
      AndPow2(mapped, bitLen);
      OrOne(integer);
      if And(mask, Pow2(bitLen)) != 0 {
        integer := integer * 2;
        if And(mapped, Pow2(bitLen)) != 0 {
          integer := Or(integer, 1);
        }
      }
      bitLen := bitLen - 1;
    }
  }

  // ---------------------------------------------------------------------------
  // What the codec promises
  // ---------------------------------------------------------------------------

  /** Bit i of the mask is set iff the pattern character for bit i is selected. */
  lemma {:induction false} SelectMaskBit(code: string, select: string, i: nat)
    ensures Bit(SelectMask(code, select), i) <==> i < |code| && code[|code| - 1 - i] in select
    decreases |code|
  {
    if code == [] {
      ZeroHasNoBits(i);
    } else {
      var n := |code| - 1;
      var top := if code[0] in select then 1 else 0;
      SelectMaskBound(code[1..], select);
      OrBelowShifted(SelectMask(code[1..], select), top, n);
      assert SelectMask(code, select) == Or(SelectMask(code[1..], select), top * Pow2(n));
      BitOr(SelectMask(code[1..], select), top * Pow2(n), i);
      BitShiftLeft(top, n, i);
      if i >= n {
        assert Bit(top, i - n) <==> i == n && top == 1 by {
          if i > n { BitBelow(top, 1, i - n); }
        }
      }
      SelectMaskBit(code[1..], select, i);
      if i < n {
        assert code[1..][|code[1..]| - 1 - i] == code[|code| - 1 - i];
      }
    }
  }

  lemma {:induction false} SelectMaskBound(code: string, select: string)
    ensures SelectMask(code, select) < Pow2(|code|)
    decreases |code|
  {
    if code != [] {
      SelectMaskBound(code[1..], select);
    }
  }

  /** `map_int(v, m) & ~m == 0`: scattering only sets bits inside the mask. */
  lemma {:induction false} ScatterInsideMask(value: nat, mask: nat)
    ensures AndNot(Scatter(value, mask), mask) == 0
  {
    forall i: nat ensures Bit(AndNot(Scatter(value, mask), mask), i) == Bit(0, i) {
      BitAndNot(Scatter(value, mask), mask, i);
      ScatterBitInMask(value, mask, i);
      ZeroHasNoBits(i);
    }
    BitsEqual(AndNot(Scatter(value, mask), mask), 0);
  }

  /**
   * Where the mask's low bits are all set, scattering leaves the value's
   * bits where they are.
   */
  lemma {:induction false} ScatterLowRun(value: nat, mask: nat, i: nat)
    requires forall j: nat :: j <= i ==> Bit(mask, j)
    ensures Bit(Scatter(value, mask), i) == Bit(value, i)
    decreases i
  {
    assert Bit(mask, 0);
    var rest := Scatter(value / 2, mask / 2);
    assert Scatter(value, mask) == 2 * rest + value % 2;
    if i > 0 {
      forall j: nat | j <= i - 1 ensures Bit(mask / 2, j) {
        assert Bit(mask, j + 1);
      }
      ScatterLowRun(value / 2, mask / 2, i - 1);
      assert (2 * rest + value % 2) / 2 == rest;
    }
  }

  lemma {:induction false} ScatterBitInMask(value: nat, mask: nat, i: nat)
    ensures Bit(Scatter(value, mask), i) ==> Bit(mask, i)
    decreases mask
  {
    if mask == 0 {
      ZeroHasNoBits(i);
    } else if i > 0 {
      if mask % 2 == 1 {
        ScatterBitInMask(value / 2, mask / 2, i - 1);
      } else {
        ScatterBitInMask(value, mask / 2, i - 1);
      }
    }
  }

  /** Bits of the value beyond the mask's population count are dropped. */
  lemma {:induction false} ScatterDropsHighBits(value: nat, mask: nat)
    ensures Scatter(value, mask) == Scatter(value % Pow2(PopCount(mask)), mask)
    decreases mask
  {
    if mask != 0 {
      var n := PopCount(mask / 2);
      if mask % 2 == 1 {
        ModPow2Succ(value, n);
        var low := value % Pow2(n + 1);
        assert low / 2 == (value / 2) % Pow2(n) && low % 2 == value % 2;
        ScatterDropsHighBits(value / 2, mask / 2);
      } else {
        ScatterDropsHighBits(value, mask / 2);
      }
    }
  }

  /** `get_int(map_int(v, m), m) == v` for every v that fits the mask. */
  lemma {:induction false} GatherScatter(value: nat, mask: nat)
    requires value < Pow2(PopCount(mask))
    ensures Gather(Scatter(value, mask), mask) == value
    decreases mask
  {
    if mask != 0 {
      if mask % 2 == 1 {
        GatherScatter(value / 2, mask / 2);
      } else {
        GatherScatter(value, mask / 2);
      }
    }
  }

  /** `map_int(get_int(x, m), m) == x & m`: the other way round. */
  lemma {:induction false} ScatterGather(packed: nat, mask: nat)
    ensures Scatter(Gather(packed, mask), mask) == And(packed, mask)
    decreases mask
  {
    if mask != 0 {
      ScatterGather(packed / 2, mask / 2);
      var g := Gather(packed / 2, mask / 2);
      if mask % 2 == 1 {
        var whole := 2 * g + packed % 2;
        assert whole / 2 == g && whole % 2 == packed % 2;
      }
    }
  }

  /** `get_int(x, m) < 2^popcount(m)`. */
  lemma {:induction false} GatherBound(packed: nat, mask: nat)
    ensures Gather(packed, mask) < Pow2(PopCount(mask))
    decreases mask
  {
    if mask != 0 {
      GatherBound(packed / 2, mask / 2);
    }
  }

  /** Only the bits of `packed` under the mask matter. */
  lemma {:induction false} GatherMasked(packed: nat, mask: nat)
    ensures Gather(packed, mask) == Gather(And(packed, mask), mask)
    decreases mask
  {
    if mask != 0 {
      GatherMasked(packed / 2, mask / 2);
      if packed == 0 {
        assert And(packed, mask) == 0;
      } else {
        assert And(packed, mask) / 2 == And(packed / 2, mask / 2);
        assert Gather(And(packed / 2, mask / 2), mask / 2) == Gather(packed / 2, mask / 2);
      }
    }
  }

  /** Two numbers that agree on the mask's bits gather to the same value. */
  lemma GatherAgrees(x: nat, y: nat, mask: nat)
    requires forall i: nat :: Bit(mask, i) ==> Bit(x, i) == Bit(y, i)
    ensures Gather(x, mask) == Gather(y, mask)
  {
    forall i: nat ensures Bit(And(x, mask), i) == Bit(And(y, mask), i) {
      BitAnd(x, mask, i);
      BitAnd(y, mask, i);
    }
    BitsEqual(And(x, mask), And(y, mask));
    GatherMasked(x, mask);
    GatherMasked(y, mask);
  }

  // ---------------------------------------------------------------------------
  // Helpers for the loops
  // ---------------------------------------------------------------------------

  /** One step of `map_int`'s loop, on a set mask bit. */
  lemma MapIntStepOdd(total: nat, mapped: nat, value: nat, rest: nat, weight: nat)
    requires rest % 2 == 1 && mapped < Pow2(weight)
    requires total == mapped + Pow2(weight) * Scatter(value, rest)
    ensures Or(mapped, (value % 2) * Pow2(weight)) < Pow2(weight + 1)
    ensures total == Or(mapped, (value % 2) * Pow2(weight)) + Pow2(weight + 1) * Scatter(value / 2, rest / 2)
  {
    var p := Pow2(weight);
    var bit := value % 2;
    var s := Scatter(value / 2, rest / 2);
    assert Scatter(value, rest) == 2 * s + bit;
    OrBelowShifted(mapped, bit, weight);
    MulSplit(p, s, bit);
    BitTimes(bit, p);
  }

  /** One step of `map_int`'s loop, on a clear mask bit. */
  lemma MapIntStepEven(total: nat, mapped: nat, value: nat, rest: nat, weight: nat)
    requires rest != 0 && rest % 2 == 0 && mapped < Pow2(weight)
    requires total == mapped + Pow2(weight) * Scatter(value, rest)
    ensures mapped < Pow2(weight + 1)
    ensures total == mapped + Pow2(weight + 1) * Scatter(value, rest / 2)
  {
    var p := Pow2(weight);
    var s := Scatter(value, rest / 2);
    assert Scatter(value, rest) == 2 * s;
    MulSplit(p, s, 0);
  }

  lemma BitTimes(bit: nat, p: nat)
    requires bit < 2
    ensures bit * p <= p
  {
  }

  lemma MulSplit(p: nat, s: nat, bit: nat)
    ensures p * (2 * s + bit) == bit * p + (2 * p) * s
  {
  }

  /** One step of `get_int`'s loop, at bit `b`. */
  lemma GatherStep(x: nat, m: nat, b: nat)
    ensures Bit(m, b) ==> Gather(Shr(x, b), Shr(m, b))
                          == 2 * Gather(Shr(x, b + 1), Shr(m, b + 1)) + (if Bit(x, b) then 1 else 0)
    ensures !Bit(m, b) ==> Gather(Shr(x, b), Shr(m, b)) == Gather(Shr(x, b + 1), Shr(m, b + 1))
  {
    ShrSucc(x, b);
    ShrSucc(m, b);
    ShrBit(x, b);
    ShrBit(m, b);
  }

  lemma AndPow2(x: nat, b: nat)
    ensures And(x, Pow2(b)) != 0 <==> Bit(x, b)
  {
    BitAnd(x, Pow2(b), b);
    BitPow2(b, b);
    if And(x, Pow2(b)) == 0 {
      ZeroHasNoBits(b);
    } else {
      forall i: nat ensures Bit(And(x, Pow2(b)), i) == (i == b && Bit(x, b)) {
        BitAnd(x, Pow2(b), i);
        BitPow2(b, i);
      }
      if !Bit(x, b) {
        forall i: nat ensures Bit(And(x, Pow2(b)), i) == Bit(0, i) {
          ZeroHasNoBits(i);
        }
        BitsEqual(And(x, Pow2(b)), 0);
      }
    }
  }

  lemma OrOne(k: nat)
    ensures Or(2 * k, 1) == 2 * k + 1
  {
    OrZero(k);
  }
}
