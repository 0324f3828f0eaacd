/**
 * The registers of `avrzero/register.py` as values: an 8-bit cell that keeps
 * what it is given modulo 256, its bit reads and writes, the 16-bit view over
 * a pair of cells, and the names of the status-register bits.  The cells
 * themselves live in the machine's memory (see `Machines`); here are the
 * operations the register objects perform on the numbers they hold.
 */
module Registers {
  import opened Bits

  /** `Register.N_BITS` for a cell, and the number of values it holds. */
  const CellBits: nat := 8
  const CellBase: nat := 256
  /** `PointerRegister.N_BITS`, and the number of values a pointer holds. */
  const PointerBase: nat := 65536

  lemma Pow2Cell()
    ensures Pow2(CellBits) == CellBase
  {
    assert Pow2(0) == 1 && Pow2(1) == 2 && Pow2(2) == 4 && Pow2(3) == 8;
  }

  /** What a cell holds. */
  type Byte = v: nat | v < 256

  /**
   * The `val` setter: `val % (1 << N_BITS)`.  Python's `%` by a positive
   * divisor is never negative, as Dafny's is.
   */
  function CellValue(v: int): (r: Byte)
    ensures r < CellBase
    ensures (v - r) % CellBase == 0
    ensures 0 <= v < CellBase ==> r == v
  {
    v % CellBase
  }

  /** `__getitem__`: `(val & (1 << idx)) >> idx`, which is 0 or 1. */
  function ReadBit(val: nat, idx: nat): (b: nat)
    ensures b == if Bit(val, idx) then 1 else 0
  {
    ReadBitValue(val, idx);
    Shr(And(val, Pow2(idx)), idx)
  }

  lemma ReadBitValue(val: nat, idx: nat)
    ensures Shr(And(val, Pow2(idx)), idx) == if Bit(val, idx) then 1 else 0
  {
    var masked := And(val, Pow2(idx));
    forall i: nat ensures Bit(masked, i) == (i == idx && Bit(val, idx)) {
      BitAnd(val, Pow2(idx), i);
      BitPow2(idx, i);
    }
    var single := if Bit(val, idx) then Pow2(idx) else 0;
    forall i: nat ensures Bit(masked, i) == Bit(single, i) {
      BitPow2(idx, i);
      ZeroHasNoBits(i);
    }
    BitsEqual(masked, single);
    ShrExact(idx, if Bit(val, idx) then 1 else 0);
  }

  /** Shifting `b << n` back down by `n` gives `b`. */
  lemma {:induction false} ShrExact(n: nat, b: nat)
    ensures Shr(b * Pow2(n), n) == b
    decreases n
  {
    if n > 0 {
      assert b * Pow2(n) / 2 == b * Pow2(n - 1);
      ShrExact(n - 1, b);
    }
  }

  /**
   * `__setitem__`: `val &= ~(1 << idx)` and then `val |= bit << idx`, each
   * assignment going through the `val` setter.  Every bit of the cell other
   * than `idx` keeps its value and bit `idx` becomes `bit`.
   */
  function WriteBit(val: nat, idx: nat, bit: bool): (r: nat)
    ensures r < CellBase
    ensures forall j :: 0 <= j < CellBits ==> (Bit(r, j) <==> if j == idx then bit else Bit(val, j))
  {
    var cleared := CellValue(AndNot(val, Pow2(idx)));
    var written := CellValue(Or(cleared, (if bit then 1 else 0) * Pow2(idx)));
    WriteBitBits(val, idx, bit);
    written
  }

  lemma WriteBitBits(val: nat, idx: nat, bit: bool)
    ensures var cleared := CellValue(AndNot(val, Pow2(idx)));
      var r := CellValue(Or(cleared, (if bit then 1 else 0) * Pow2(idx)));
      forall j :: 0 <= j < CellBits ==> (Bit(r, j) <==> if j == idx then bit else Bit(val, j))
  {
    var cleared := CellValue(AndNot(val, Pow2(idx)));
    var add := (if bit then 1 else 0) * Pow2(idx);
    var r := CellValue(Or(cleared, add));
    Pow2Cell();
    forall j | 0 <= j < CellBits
      ensures Bit(r, j) <==> if j == idx then bit else Bit(val, j)
    {
      BitMod(Or(cleared, add), CellBits, j);
      BitOr(cleared, add, j);
      BitMod(AndNot(val, Pow2(idx)), CellBits, j);
      BitAndNot(val, Pow2(idx), j);
      BitPow2(idx, j);
      BitShiftLeft(if bit then 1 else 0, idx, j);
      if j == idx {
        assert Bit(if bit then 1 else 0, 0) == bit;
      }
    }
  }

  /** The two cells behind a `PointerRegister`, high byte first. */
  datatype Pair = Pair(hi: Byte, lo: Byte)

  /**
   * `PointerRegister.val`: `r1.val << 8 | r2.val`.  The low cell holds a
   * byte, so the `|` adds it below the shifted high cell; `PointerValueBits`
   * proves the two forms equal.  The high cell is the quotient by 256 and the
   * low cell the remainder.
   */
  function PointerValue(hi: nat, lo: Byte): (v: nat)
    ensures v / CellBase == hi && v % CellBase == lo
  {
    hi * CellBase + lo
  }

  /** The sum is the shift-and-or of `PointerRegister.val`. */
  lemma PointerValueBits(hi: nat, lo: Byte)
    ensures PointerValue(hi, lo) == Or(hi * Pow2(CellBits), lo)
  {
    Pow2Cell();
    OrBelowShifted(lo, hi, CellBits);
    OrCommutes(lo, hi * Pow2(CellBits));
  }

  /**
   * The `PointerRegister.val` setter: `r1.val = val >> 8` and
   * `r2.val = val & 0xFF`, each through the cell setter.  On Python's
   * unbounded integers `>> 8` is floor division by 256 and `& 0xFF` the
   * non-negative remainder, which is what Dafny's `/` and `%` compute, also
   * for a negative `val` such as a stack pointer decremented below zero.
   * Reading the pointer back gives `val` modulo 2^16.
   */
  function PointerWrite(val: int): (p: Pair)
    ensures p.hi < CellBase && p.lo < CellBase
    ensures PointerValue(p.hi, p.lo) == val % PointerBase
  {
    var p := Pair(CellValue(val / CellBase), CellValue(val % CellBase));
    PointerWrap(val);
    p
  }

  lemma PointerWrap(val: int)
    ensures (val / CellBase) % CellBase * CellBase + val % CellBase == val % PointerBase
  {
    var q := val / CellBase;
    var r := val % CellBase;
    var h := q % CellBase;
    var q2 := q / CellBase;
    assert val == q * CellBase + r;
    assert q == q2 * CellBase + h;
    assert val == q2 * PointerBase + (h * CellBase + r);
    DivModUnique(val, PointerBase, q2, h * CellBase + r);
  }

  /** Writing a pointer with the value it reads gives back its two cells. */
  lemma PointerWriteValue(hi: nat, lo: nat)
    requires hi < CellBase && lo < CellBase
    ensures PointerWrite(PointerValue(hi, lo)) == Pair(hi, lo)
  {
    var v := hi * CellBase + lo;
    DivModUnique(v, CellBase, hi, lo);
  }

  // The bit layout of `StatusRegister.BIT_NAMES`.
  const Carry: nat := 0
  const Zero: nat := 1
  const Negative: nat := 2
  const Overflow: nat := 3
  const Sign: nat := 4
  const HalfCarry: nat := 5
  const BitCopy: nat := 6
  const Interrupt: nat := 7
}
