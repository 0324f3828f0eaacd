/**
 * The state of an `avrzero.machine.Machine` as a value, and what its stack,
 * `reset` and `load_program` do to it.  Data memory is one sequence of
 * `RAMEND + 1` byte cells; the general registers, the X/Y/Z pointers, the
 * stack pointer and the status register are fixed addresses in it, so a write
 * through one name is seen through every other name of the same cell.  The
 * program counter is a pointer over two cells of its own, kept here as the
 * 16-bit number it reads as.
 */
module MachineState {
  import opened Bits
  import opened Registers

  /** `RAMEND`, fixed at its default. */
  const RamEnd: nat := 0xFFFF
  const MemorySize: nat := 0x10000

  /** A `PointerRegister`: the addresses of its high and low cells. */
  datatype Pointer = Pointer(hi: nat, lo: nat)

  const X := Pointer(27, 26)
  const Y := Pointer(29, 28)
  const Z := Pointer(31, 30)
  const SP := Pointer(0x5E, 0x5D)
  /** `StatusRegister.from_(memory[0x5F])` */
  const SREG: nat := 0x5F
  /** `len(machine.R)`: the general registers are `memory[0x00:0x20]`. */
  const RegisterCount: nat := 32

  /** Data memory of `RAMEND + 1` cells. */
  predicate ValidMemory(mem: seq<Byte>)
  {
    |mem| == MemorySize
  }

  datatype State = State(mem: seq<Byte>, pc: nat)

  predicate Valid(s: State)
  {
    ValidMemory(s.mem) && s.pc < PointerBase
  }

  /** Reading a pointer register. */
  function Read(mem: seq<Byte>, p: Pointer): (v: nat)
    requires ValidMemory(mem) && p.hi < MemorySize && p.lo < MemorySize
    ensures v < PointerBase
  {
    PointerValue(mem[p.hi], mem[p.lo])
  }

  /** Assigning a pointer register: both of its cells, nothing else. */
  function Write(mem: seq<Byte>, p: Pointer, v: int): (r: seq<Byte>)
    requires ValidMemory(mem) && p.hi < MemorySize && p.lo < MemorySize && p.hi != p.lo
    ensures ValidMemory(r)
    ensures Read(r, p) == v % PointerBase
    ensures forall a :: 0 <= a < MemorySize && a != p.hi && a != p.lo ==> r[a] == mem[a]
  {
    var w := PointerWrite(v);
    mem[p.hi := w.hi][p.lo := w.lo]
  }

  /** Assigning a cell through its `val` setter. */
  function Store(mem: seq<Byte>, a: nat, v: int): (r: seq<Byte>)
    requires ValidMemory(mem) && a < MemorySize
    ensures ValidMemory(r) && r[a] == v % CellBase
    ensures forall b :: 0 <= b < MemorySize && b != a ==> r[b] == mem[b]
  {
    mem[a := CellValue(v)]
  }

  /** Assigning the program counter: `PC.val = v` reads back as `v` modulo 2^16. */
  function PcWrite(v: int): (pc: nat)
    ensures pc == v % PointerBase
  {
    var w := PointerWrite(v);
    PointerValue(w.hi, w.lo)
  }

  // ---------------------------------------------------------------------------
  // The stack
  // ---------------------------------------------------------------------------

  /** `_push_stack`: `SP.val -= 1`, then `memory[SP.val].val = val`. */
  function PushByte(mem: seq<Byte>, val: int): (r: seq<Byte>)
    requires ValidMemory(mem)
    ensures ValidMemory(r)
  {
    var lowered := Write(mem, SP, Read(mem, SP) - 1);
    Store(lowered, Read(lowered, SP), val)
  }

  /** A cell value taken off the stack, and the memory after taking it. */
  datatype Popped = Popped(mem: seq<Byte>, val: nat)

  /** `_pop_stack`: read `memory[SP.val]`, then `SP.val += 1`. */
  function PopByte(mem: seq<Byte>): (r: Popped)
    requires ValidMemory(mem)
    ensures ValidMemory(r.mem) && r.val < CellBase
  {
    var sp := Read(mem, SP);
    Popped(Write(mem, SP, sp + 1), mem[sp])
  }

  /**
   * `push_stack(val, n_byte)`: push `val & 0xFF` and shift `val` right by 8,
   * `n_byte` times, so the least significant byte goes deepest.  On a
   * non-negative `val` the mask and the shift are `% 256` and `/ 256`.
   */
  function PushStack(mem: seq<Byte>, val: nat, n: nat): (r: seq<Byte>)
    requires ValidMemory(mem)
    ensures ValidMemory(r)
    decreases n
  {
    if n == 0 then mem
    else PushStack(PushByte(mem, val % CellBase), val / CellBase, n - 1)
  }

  /** `pop_stack` from the accumulated `val`: `val = val << 8 | _pop_stack()`. */
  function PopStackFrom(mem: seq<Byte>, n: nat, val: nat): (r: Popped)
    requires ValidMemory(mem)
    ensures ValidMemory(r.mem)
    decreases n
  {
    if n == 0 then Popped(mem, val)
    else
      var p := PopByte(mem);
      PopStackFrom(p.mem, n - 1, PointerValue(val, p.val))
  }

  /** `pop_stack(n_byte)`: the first byte popped ends up most significant. */
  function PopStack(mem: seq<Byte>, n: nat): (r: Popped)
    requires ValidMemory(mem)
    ensures ValidMemory(r.mem)
  {
    PopStackFrom(mem, n, 0)
  }

  /** `256^n`: an `n`-byte stack value is taken modulo this. */
  function StackBase(n: nat): (b: nat)
    ensures b >= 1
  {
    if n == 0 then 1 else CellBase * StackBase(n - 1)
  }

  /** Popping `n + 1` bytes is popping `n` and then one more. */
  lemma {:induction false} PopLast(mem: seq<Byte>, n: nat, val: nat)
    requires ValidMemory(mem)
    ensures var p := PopStackFrom(mem, n, val);
      var q := PopByte(p.mem);
      PopStackFrom(mem, n + 1, val) == Popped(q.mem, PointerValue(p.val, q.val))
    decreases n
  {
    var first := PopByte(mem);
    assert PopStackFrom(mem, n + 1, val) == PopStackFrom(first.mem, n, PointerValue(val, first.val));
    if n > 0 {
      assert PopStackFrom(mem, n, val) == PopStackFrom(first.mem, n - 1, PointerValue(val, first.val));
      PopLast(first.mem, n - 1, PointerValue(val, first.val));
    }
  }

  /**
   * The stack area `[sp - n, sp)` lies above the stack pointer's own cells,
   * so pushing `n` bytes from `sp` never overwrites the stack pointer.
   */
  predicate Room(mem: seq<Byte>, n: nat)
    requires ValidMemory(mem)
  {
    Read(mem, SP) >= SREG + n
  }

  /**
   * One byte pushed: SP drops by one modulo 2^16 (from 0 it wraps to
   * `RAMEND`), the byte is stored at the new SP, and no other cell but SP's
   * own changes.  SP reads the new top unless the store itself lands on one
   * of SP's cells.
   */
  lemma PushByteEffect(mem: seq<Byte>, val: int)
    requires ValidMemory(mem)
    ensures var r := PushByte(mem, val);
      var t := (Read(mem, SP) - 1) % PointerBase;
      r[t] == val % CellBase
      && (t != SP.hi && t != SP.lo ==> Read(r, SP) == t)
      && forall a :: 0 <= a < MemorySize && a != t && a != SP.hi && a != SP.lo ==> r[a] == mem[a]
  {
  }

  /** A push at SP = 0, as after `reset` and one pop, wraps SP to `RAMEND` and stores the byte there. */
  lemma PushWrapsAtZero(mem: seq<Byte>, val: int)
    requires ValidMemory(mem) && Read(mem, SP) == 0
    ensures Read(PushByte(mem, val), SP) == RamEnd && PushByte(mem, val)[RamEnd] == val % CellBase
  {
    PushByteEffect(mem, val);
  }

  /**
   * `push_stack(val, n)` where there is room: SP drops by `n`, byte `i` of
   * `val` (least significant first) lies at `sp - 1 - i`, and no other cell
   * but SP's own changes.
   */
  lemma PushStackEffect(mem: seq<Byte>, val: nat, n: nat)
    requires ValidMemory(mem) && Room(mem, n)
    ensures Pushed(mem, PushStack(mem, val, n), val, n, Read(mem, SP))
  {
    PushStackAt(mem, val, n, Read(mem, SP));
  }

  /** `after` is `before` with the `n` bytes of `val` pushed from `sp` down. */
  predicate Pushed(before: seq<Byte>, after: seq<Byte>, val: nat, n: nat, sp: int)
    requires ValidMemory(before) && ValidMemory(after)
  {
    Read(after, SP) == sp - n
    && (forall i :: 0 <= i < n && 0 <= sp - 1 - i < MemorySize ==> after[sp - 1 - i] == val / StackBase(i) % CellBase)
    && forall a :: 0 <= a < MemorySize && !(sp - n <= a < sp) && a != SP.hi && a != SP.lo ==> after[a] == before[a]
  }

  /** `PushStackEffect` with the stack pointer's starting value named `sp`. */
  lemma {:induction false} PushStackAt(mem: seq<Byte>, val: nat, n: nat, sp: nat)
    requires ValidMemory(mem) && Room(mem, n) && sp == Read(mem, SP)
    ensures Pushed(mem, PushStack(mem, val, n), val, n, sp)
    decreases n
  {
    if n > 0 {
      var mem1 := PushByte(mem, val % CellBase);
      PushByteEffect(mem, val % CellBase);
      assert (sp - 1) % PointerBase == sp - 1;
      PushStackAt(mem1, val / CellBase, n - 1, sp - 1);
      PushStackStep(mem, mem1, PushStack(mem, val, n), val, n, sp);
    }
  }

  /** The inductive step of `PushStackAt`: the first byte below the `n - 1` pushed after it. */
  lemma PushStackStep(mem: seq<Byte>, mem1: seq<Byte>, r: seq<Byte>, val: nat, n: nat, sp: nat)
    requires ValidMemory(mem) && ValidMemory(mem1) && ValidMemory(r) && n > 0 && SREG + n <= sp < MemorySize
    requires mem1[sp - 1] == val % CellBase
    requires forall a :: 0 <= a < MemorySize && a != sp - 1 && a != SP.hi && a != SP.lo ==> mem1[a] == mem[a]
    requires Pushed(mem1, r, val / CellBase, n - 1, sp - 1)
    ensures Pushed(mem, r, val, n, sp)
  {
    forall i | 0 <= i < n && 0 <= sp - 1 - i < MemorySize
      ensures r[sp - 1 - i] == val / StackBase(i) % CellBase
    {
      if i > 0 {
        assert r[sp - 1 - 1 - (i - 1)] == val / CellBase / StackBase(i - 1) % CellBase;
        StackShift(val, i);
      }
    }
  }

  /** Shifting right by 8 and then by `8 i` is shifting right by `8 (i + 1)`. */
  lemma StackShift(val: nat, i: nat)
    requires i > 0
    ensures val / CellBase / StackBase(i - 1) == val / StackBase(i)
  {
    var p := StackBase(i - 1);
    assert StackBase(i) == CellBase * p;
    var q := val / CellBase;
    assert val == q / p * (CellBase * p) + (q % p * CellBase + val % CellBase);
    DivModUnique(val, CellBase * p, q / p, q % p * CellBase + val % CellBase);
  }

  /**
   * One byte popped: the top cell is read, SP rises by one modulo 2^16 (from
   * `RAMEND` it wraps to 0), and only SP's cells change.
   */
  lemma PopByteEffect(mem: seq<Byte>)
    requires ValidMemory(mem)
    ensures var r := PopByte(mem);
      var sp := Read(mem, SP);
      r.val == mem[sp] && Read(r.mem, SP) == (sp + 1) % PointerBase
      && forall a :: 0 <= a < MemorySize && a != SP.hi && a != SP.lo ==> r.mem[a] == mem[a]
  {
  }

  /**
   * `pop_stack(n)` right after `push_stack(val, n)` returns `val` modulo
   * `256^n` and leaves every cell outside the `n` stack cells, the stack
   * pointer's included, as it was before the push.
   */
  lemma PushPop(mem: seq<Byte>, val: nat, n: nat)
    requires ValidMemory(mem) && Room(mem, n)
    ensures var sp := Read(mem, SP);
      var r := PopStack(PushStack(mem, val, n), n);
      r.val == val % StackBase(n)
      && Read(r.mem, SP) == sp
      && forall a :: 0 <= a < MemorySize && !(sp - n <= a < sp) ==> r.mem[a] == mem[a]
  {
    PushPopAt(mem, val, n, Read(mem, SP));
  }

  /** SP reads `sp` again in `after`, and only the `n` cells below `sp` differ from `before`. */
  predicate Restored(before: seq<Byte>, after: seq<Byte>, sp: int, n: nat)
    requires ValidMemory(before) && ValidMemory(after)
  {
    Read(after, SP) == sp && forall a :: 0 <= a < MemorySize && !(sp - n <= a < sp) ==> after[a] == before[a]
  }

  /** `pop_stack(n)` right after `push_stack(val, n)`. */
  function PushedThenPopped(mem: seq<Byte>, val: nat, n: nat): (r: Popped)
    requires ValidMemory(mem)
    ensures ValidMemory(r.mem)
  {
    PopStack(PushStack(mem, val, n), n)
  }

  /** `PushPop` with the stack pointer's starting value named `sp`. */
  lemma {:induction false} PushPopAt(mem: seq<Byte>, val: nat, n: nat, sp: nat)
    requires ValidMemory(mem) && Room(mem, n) && sp == Read(mem, SP)
    ensures var r := PushedThenPopped(mem, val, n);
      r.val == val % StackBase(n) && Restored(mem, r.mem, sp, n)
    decreases n
  {
    if n > 0 {
      var mem1 := PushByte(mem, val % CellBase);
      assert Read(mem1, SP) == sp - 1 by {
        PushByteEffect(mem, val % CellBase);
      }
      PushPopAt(mem1, val / CellBase, n - 1, sp - 1);
      PushPopStep(mem, val, n, sp);
    }
  }

  /** The inductive step of `PushPopAt`, given its claim for the `n - 1` bytes pushed after the first. */
  lemma PushPopStep(mem: seq<Byte>, val: nat, n: nat, sp: nat)
    requires ValidMemory(mem) && n > 0 && Room(mem, n) && sp == Read(mem, SP)
    requires var mem1 := PushByte(mem, val % CellBase);
      var r := PushedThenPopped(mem1, val / CellBase, n - 1);
      r.val == val / CellBase % StackBase(n - 1) && Restored(mem1, r.mem, sp - 1, n - 1)
    ensures var r := PushedThenPopped(mem, val, n);
      r.val == val % StackBase(n) && Restored(mem, r.mem, sp, n)
  {
    var mem1 := PushByte(mem, val % CellBase);
    var pushed := PushStack(mem1, val / CellBase, n - 1);
    assert PushStack(mem, val, n) == pushed;
    var inner := PopStack(pushed, n - 1);
    PopStackLast(pushed, n);
    PushByteEffect(mem, val % CellBase);
    PushPopLast(mem, mem1, inner, val, n, sp);
  }

  /** Popping `n` bytes is popping `n - 1` and then one more. */
  lemma PopStackLast(mem: seq<Byte>, n: nat)
    requires ValidMemory(mem) && n > 0
    ensures var p := PopStack(mem, n - 1);
      var q := PopByte(p.mem);
      PopStack(mem, n) == Popped(q.mem, PointerValue(p.val, q.val))
  {
    PopLast(mem, n - 1, 0);
  }

  /** The last step of `PushPop`: popping the byte pushed first. */
  lemma PushPopLast(mem: seq<Byte>, mem1: seq<Byte>, inner: Popped, val: nat, n: nat, sp: nat)
    requires ValidMemory(mem) && ValidMemory(mem1) && ValidMemory(inner.mem) && n > 0 && Room(mem, n)
    requires sp == Read(mem, SP)
    requires Read(mem1, SP) == sp - 1 && mem1[sp - 1] == val % CellBase
      && (forall a :: 0 <= a < MemorySize && a != sp - 1 && a != SP.hi && a != SP.lo ==> mem1[a] == mem[a])
    requires inner.val == val / CellBase % StackBase(n - 1) && Restored(mem1, inner.mem, sp - 1, n - 1)
    ensures var last := PopByte(inner.mem);
      inner.val * CellBase + last.val == val % StackBase(n) && Restored(mem, last.mem, sp, n)
  {
    var last := PopByte(inner.mem);
    PopByteEffect(inner.mem);
    assert Read(inner.mem, SP) == sp - 1;
    assert inner.mem[sp - 1] == mem1[sp - 1];
    assert last.val == val % CellBase;
    forall a | 0 <= a < MemorySize && !(sp - n <= a < sp)
      ensures last.mem[a] == mem[a]
    {
      if a == SP.hi || a == SP.lo {
        SpCells(mem, last.mem);
      }
    }
    StackValue(val, n);
  }

  /** Two memories whose stack pointers read the same have the same stack-pointer cells. */
  lemma SpCells(m1: seq<Byte>, m2: seq<Byte>)
    requires ValidMemory(m1) && ValidMemory(m2) && Read(m1, SP) == Read(m2, SP)
    ensures m1[SP.hi] == m2[SP.hi] && m1[SP.lo] == m2[SP.lo]
  {
    PointerWriteValue(m1[SP.hi], m1[SP.lo]);
    PointerWriteValue(m2[SP.hi], m2[SP.lo]);
  }

  /** The arithmetic of `PushPop`: the high bytes and the low byte make up `val mod 256^n`. */
  lemma StackValue(val: nat, n: nat)
    requires n > 0
    ensures val / CellBase % StackBase(n - 1) * CellBase + val % CellBase == val % StackBase(n)
  {
    var p := StackBase(n - 1);
    assert StackBase(n) == CellBase * p;
    var q := val / CellBase;
    var r := val % CellBase;
    assert val == q * CellBase + r;
    assert q == q / p * p + q % p;
    assert val == q / p * (CellBase * p) + (q % p * CellBase + r);
    DivModUnique(val, CellBase * p, q / p, q % p * CellBase + r);
  }

  // ---------------------------------------------------------------------------
  // Reset and loading a program
  // ---------------------------------------------------------------------------

  /** `reset`: `SP.val = RAMEND` and `PC.val = 0`. */
  function Reset(s: State): (r: State)
    requires Valid(s)
    ensures Valid(r) && Read(r.mem, SP) == RamEnd && r.pc == 0
    ensures forall a :: 0 <= a < MemorySize && a != SP.hi && a != SP.lo ==> r.mem[a] == s.mem[a]
  {
    State(Write(s.mem, SP, RamEnd), PcWrite(0))
  }

  /** The flash after `load_program(program)`: `program[:flash_size]`, then zeros. */
  function Loaded(program: seq<nat>, flashSize: nat): (flash: seq<nat>)
    ensures |flash| == flashSize
    ensures forall i :: 0 <= i < flashSize ==> flash[i] == if i < |program| then program[i] else 0
  {
    seq(flashSize, i requires 0 <= i < flashSize => if i < |program| then program[i] else 0)
  }
}
