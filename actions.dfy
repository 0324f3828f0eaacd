/**
 * The twelve actions registered in `avrzero/instruction.py` (`adc` … `ret`),
 * each as the state it leaves behind.  An action reads and writes the one
 * data memory through its aliases (R, X, SP, SREG) and the program counter;
 * `Execute` is the `instruction.action(machine, **operand_map)` call of
 * `Machine.step`.  An `IndexError` escaping an action (the LD forms index the
 * 32 general registers by X) is a `Failed` outcome that carries the state as
 * far as the action got.
 */
module Actions {
  import opened Bits
  import opened Registers
  import opened MachineState
  import opened Operands
  import opened Opcodes
  import opened Instructions
  import opened Registry

  /** An exception escaping `Machine.step`. */
  datatype Fault =
    | RegisterIndex(index: nat) // `machine.R[machine.X.val]` with X past the 32 registers
    | OperandIndex              // `get_operand_map`: too few words, or a field past its domain

  /** What an action leaves: the new state, or the state at the point it raised. */
  datatype Outcome = Done(state: State) | Failed(state: State, fault: Fault)

  /** `Rd[i]` used as a truth value: `(val & (1 << i)) >> i` is 0 or 1. */
  predicate Flag(val: nat, i: nat)
  {
    ReadBit(val, i) == 1
  }

  /**
   * The status register after the flag lines of `adc`/`add`.  Those lines
   * name the status register itself where the sum was meant, so every "bit
   * of the result" they read is a bit of the status register.  In order:
   * the half-carry becomes bit 3 of Rd and of Rr together (its second
   * disjunct can never hold); the overflow value, computed from bit 7 of
   * the operands and the status register's bit 7, goes to a plain attribute
   * rather than a bit, so it only feeds the sign flag, which becomes the old
   * negative flag differing from it; the negative flag becomes a copy of
   * bit 7; the zero flag is cleared, as the register object is never false;
   * the carry is computed from bit 7 of the operands and of the status
   * register.
   */
  function SourceAddFlags(sreg: Byte, rd: Byte, rr: Byte): (r: Byte)
    ensures Bit(r, HalfCarry) == (Bit(rd, 3) && Bit(rr, 3))
    ensures Bit(r, Sign) == (Bit(sreg, Negative) != (
      (Bit(rd, 7) && Bit(rr, 7) && !Bit(sreg, Interrupt)) || (!Bit(rd, 7) && !Bit(rr, 7) && Bit(sreg, Interrupt))))
    ensures Bit(r, Negative) == Bit(sreg, Interrupt)
    ensures !Bit(r, Zero)
    ensures Bit(r, Carry) == (
      (Bit(rd, 7) && Bit(rr, 7)) || (Bit(rr, 7) && !Bit(sreg, Interrupt)) || (!Bit(sreg, Interrupt) && Bit(rd, 7)))
    ensures Bit(r, Overflow) == Bit(sreg, Overflow)
    ensures Bit(r, BitCopy) == Bit(sreg, BitCopy) && Bit(r, Interrupt) == Bit(sreg, Interrupt)
  {
    var h := (Flag(rd, 3) && Flag(rr, 3)) || (Flag(rr, 3) && !Flag(sreg, 3) && !Flag(sreg, 3) && Flag(rd, 3));
    var s1 := WriteBit(sreg, HalfCarry, h);
    assert Flag(s1, 7) == Bit(sreg, Interrupt) && Flag(s1, Negative) == Bit(sreg, Negative);
    var v := (Flag(rd, 7) && Flag(rr, 7) && !Flag(s1, 7)) || (!Flag(rd, 7) && !Flag(rr, 7) && Flag(s1, 7));
    var s2 := WriteBit(s1, Sign, Flag(s1, Negative) != v);
    assert Flag(s2, 7) == Bit(sreg, Interrupt);
    var s3 := WriteBit(s2, Negative, Flag(s2, 7));
    var s4 := WriteBit(s3, Zero, false);
    assert Flag(s4, 7) == Bit(sreg, Interrupt);
    var c := (Flag(rd, 7) && Flag(rr, 7)) || (Flag(rr, 7) && !Flag(s4, 7)) || (!Flag(s4, 7) && Flag(rd, 7));
    WriteBit(s4, Carry, c)
  }

  /** `machine.PC.val += 1` */
  function Advance(pc: nat): (next: nat)
    ensures next == (pc + 1) % PointerBase
  {
    PcWrite(pc + 1)
  }

  /**
   * `add` (`carryIn` false) and `adc` (`carryIn` true): `R[d]` becomes the
   * sum of the two registers, plus the carry flag read before the flag lines
   * for `adc`, modulo 256; the flag lines write the status register; PC
   * advances by one.  Nothing else changes.
   */
  function AddAction(s: State, d: nat, r: nat, carryIn: bool): (t: State)
    requires Valid(s) && d < RegisterCount && r < RegisterCount
    ensures Valid(t)
    ensures var c := if carryIn && Bit(s.mem[SREG], Carry) then 1 else 0;
      t.mem[d] == (s.mem[d] + s.mem[r] + c) % CellBase
    ensures t.mem[SREG] == SourceAddFlags(s.mem[SREG], s.mem[d], s.mem[r])
    ensures forall a :: 0 <= a < MemorySize && a != d && a != SREG ==> t.mem[a] == s.mem[a]
    ensures t.pc == (s.pc + 1) % PointerBase
  {
    var rd := s.mem[d];
    var rr := s.mem[r];
    var sreg := s.mem[SREG];
    var val := rd + rr + (if carryIn then ReadBit(sreg, Carry) else 0);
    var flags := SourceAddFlags(sreg, rd, rr);
    State(Store(Store(s.mem, SREG, flags), d, val), Advance(s.pc))
  }

  /** `bclr`: `machine.SREG[s] = 0`, then PC advances. */
  function Bclr(s: State, b: nat): (t: State)
    requires Valid(s) && b < CellBits
    ensures Valid(t)
    ensures !Bit(t.mem[SREG], b)
    ensures forall j :: 0 <= j < CellBits && j != b ==> (Bit(t.mem[SREG], j) <==> Bit(s.mem[SREG], j))
    ensures forall a :: 0 <= a < MemorySize && a != SREG ==> t.mem[a] == s.mem[a]
    ensures t.pc == (s.pc + 1) % PointerBase
  {
    State(Store(s.mem, SREG, WriteBit(s.mem[SREG], b, false)), Advance(s.pc))
  }

  /** `call`: `push_stack(PC.val + 2, 2)`, then `PC.val = k`. */
  function Call(s: State, k: nat): (t: State)
    requires Valid(s)
    ensures Valid(t)
    ensures t.mem == PushStack(s.mem, s.pc + 2, 2)
    ensures t.pc == k % PointerBase
  {
    State(PushStack(s.mem, s.pc + 2, 2), PcWrite(k))
  }

  /**
   * `ld`: `R[d].val = R[X.val].val`.  PC does not move.  An X of 32 or more
   * indexes past the general registers and raises.
   */
  function Ld(s: State, d: nat): (o: Outcome)
    requires Valid(s) && d < RegisterCount
    ensures var x := Read(s.mem, X);
      if x < RegisterCount then
        o.Done? && Valid(o.state) && o.state.pc == s.pc && o.state.mem[d] == s.mem[x]
        && forall a :: 0 <= a < MemorySize && a != d ==> o.state.mem[a] == s.mem[a]
      else o == Failed(s, RegisterIndex(x))
  {
    var x := Read(s.mem, X);
    if x < RegisterCount then Done(State(Store(s.mem, d, s.mem[x]), s.pc))
    else Failed(s, RegisterIndex(x))
  }

  /**
   * `ld_post_inc`: the load of `ld`, then `X.val += 1`, X read again after
   * the load (which may itself have written one of X's cells).
   */
  function LdPostInc(s: State, d: nat): (o: Outcome)
    requires Valid(s) && d < RegisterCount
    ensures var x := Read(s.mem, X);
      if x < RegisterCount then
        var loaded := Store(s.mem, d, s.mem[x]);
        o.Done? && Valid(o.state) && o.state.pc == s.pc
        && Read(o.state.mem, X) == (Read(loaded, X) + 1) % PointerBase
        && forall a :: 0 <= a < MemorySize && a != X.hi && a != X.lo ==> o.state.mem[a] == loaded[a]
      else o == Failed(s, RegisterIndex(x))
  {
    var x := Read(s.mem, X);
    if x < RegisterCount then
      var loaded := Store(s.mem, d, s.mem[x]);
      Done(State(Write(loaded, X, Read(loaded, X) + 1), s.pc))
    else Failed(s, RegisterIndex(x))
  }

  /**
   * `ld_pre_dec`: `X.val -= 1`, then the load of `ld` through the new X.
   * The decrement has happened when the load raises.
   */
  function LdPreDec(s: State, d: nat): (o: Outcome)
    requires Valid(s) && d < RegisterCount
    ensures var lowered := Write(s.mem, X, Read(s.mem, X) - 1);
      var x := Read(lowered, X);
      x == (Read(s.mem, X) - 1) % PointerBase
      && if x < RegisterCount then
        o.Done? && Valid(o.state) && o.state.pc == s.pc && o.state.mem[d] == lowered[x]
        && forall a :: 0 <= a < MemorySize && a != d ==> o.state.mem[a] == lowered[a]
      else o == Failed(State(lowered, s.pc), RegisterIndex(x))
  {
    var lowered := Write(s.mem, X, Read(s.mem, X) - 1);
    var x := Read(lowered, X);
    if x < RegisterCount then Done(State(Store(lowered, d, lowered[x]), s.pc))
    else Failed(State(lowered, s.pc), RegisterIndex(x))
  }

  /** `ldi`: `R[d].val = k`, then PC advances. */
  function Ldi(s: State, d: nat, k: nat): (t: State)
    requires Valid(s) && d < RegisterCount
    ensures Valid(t) && t.mem[d] == k % CellBase
    ensures forall a :: 0 <= a < MemorySize && a != d ==> t.mem[a] == s.mem[a]
    ensures t.pc == (s.pc + 1) % PointerBase
  {
    State(Store(s.mem, d, k), Advance(s.pc))
  }

  /** `nop`: only PC advances. */
  function Nop(s: State): (t: State)
    requires Valid(s)
    ensures Valid(t) && t.mem == s.mem && t.pc == (s.pc + 1) % PointerBase
  {
    State(s.mem, Advance(s.pc))
  }

  /** `pop`: `R[d].val = pop_stack()`, then PC advances. */
  function Pop(s: State, d: nat): (t: State)
    requires Valid(s) && d < RegisterCount
    ensures Valid(t)
    ensures var p := PopStack(s.mem, 1);
      t.mem[d] == p.val && forall a :: 0 <= a < MemorySize && a != d ==> t.mem[a] == p.mem[a]
    ensures t.pc == (s.pc + 1) % PointerBase
  {
    var p := PopStack(s.mem, 1);
    State(Store(p.mem, d, p.val), Advance(s.pc))
  }

  /** `push`: `push_stack(R[d].val)`, then PC advances. */
  function Push(s: State, d: nat): (t: State)
    requires Valid(s) && d < RegisterCount
    ensures Valid(t) && t.mem == PushStack(s.mem, s.mem[d], 1)
    ensures t.pc == (s.pc + 1) % PointerBase
  {
    State(PushStack(s.mem, s.mem[d], 1), Advance(s.pc))
  }

  /** `ret`: `PC.val = pop_stack(2)`. */
  function Ret(s: State): (t: State)
    requires Valid(s)
    ensures Valid(t)
    ensures var p := PopStack(s.mem, 2);
      t.mem == p.mem && t.pc == p.val % PointerBase
  {
    var p := PopStack(s.mem, 2);
    State(p.mem, PcWrite(p.val))
  }

  /** The operand maps `get_operand_map` can hand to an action. */
  predicate Supplied(k: Kind, m: map<char, int>)
  {
    InDomain(Registered(k).opcode.operands, m)
  }

  /**
   * `instruction.action(machine, **operand_map)` for the registered action
   * `k`.  Only the three LD forms can raise.
   */
  function Execute(k: Kind, s: State, m: map<char, int>): (o: Outcome)
    requires Valid(s) && Supplied(k, m)
    ensures k !in {LD, LDPostInc, LDPreDec} ==> o.Done?
    ensures Valid(o.state)
  {
    SuppliedValues(k, m);
    match k
    case ADC => Done(AddAction(s, m['d'], m['r'], true))
    case ADD => Done(AddAction(s, m['d'], m['r'], false))
    case BCLR => Done(Bclr(s, m['s']))
    case CALL => Done(Call(s, m['k']))
    case LD => Ld(s, m['d'])
    case LDPostInc => LdPostInc(s, m['d'])
    case LDPreDec => LdPreDec(s, m['d'])
    case LDI => Done(Ldi(s, m['d'], m['k']))
    case NOP => Done(Nop(s))
    case POP => Done(Pop(s, m['d']))
    case PUSH => Done(Push(s, m['d']))
    case RET => Done(Ret(s))
  }

  /** The values an operand map in the domains of `k`'s operands supplies. */
  lemma SuppliedValues(k: Kind, m: map<char, int>)
    requires Supplied(k, m)
    ensures k in {ADC, ADD} ==> 'd' in m && 'r' in m && 0 <= m['d'] < 32 && 0 <= m['r'] < 32
    ensures k in {LD, LDPostInc, LDPreDec, POP, PUSH} ==> 'd' in m && 0 <= m['d'] < 32
    ensures k == LDI ==> 'd' in m && 'k' in m && 16 <= m['d'] < 32 && 0 <= m['k'] < 256
    ensures k == BCLR ==> 's' in m && 0 <= m['s'] < 8
    ensures k == CALL ==> 'k' in m && 0 <= m['k'] < 64000
  {
    var ops := Registered(k).opcode.operands;
    match k
    case ADC => assert ops[0] == D && ops[1] == R;
    case ADD => assert ops[0] == D && ops[1] == R;
    case BCLR => assert ops[0] == S;
    case CALL => assert ops[0] == K22;
    case LD => assert ops[0] == D;
    case LDPostInc => assert ops[0] == D;
    case LDPreDec => assert ops[0] == D;
    case LDI => assert ops[0] == D16 && ops[1] == K8;
    case NOP =>
    case POP => assert ops[0] == D;
    case PUSH => assert ops[0] == D;
    case RET =>
  }

  /**
   * PUSH Rd then POP Re: `R[e]` holds what `R[d]` held, the stack pointer is
   * back where it was, PC has advanced twice, and only `R[e]` and the one
   * stack cell used differ from before.
   */
  lemma {:induction false} PushThenPop(s: State, d: nat, e: nat)
    requires Valid(s) && d < RegisterCount && e < RegisterCount && Room(s.mem, 1)
    ensures var t := Pop(Push(s, d), e);
      var sp := Read(s.mem, SP);
      t.mem[e] == s.mem[d] && Read(t.mem, SP) == sp && t.pc == (s.pc + 2) % PointerBase
      && forall a :: 0 <= a < MemorySize && a != e && a != sp - 1 ==> t.mem[a] == s.mem[a]
  {
    var sp := Read(s.mem, SP);
    var pushed := Push(s, d);
    var p := PopStack(pushed.mem, 1);
    PushPopByte(s.mem, s.mem[d]);
    var t := Pop(pushed, e);
    assert t.pc == (s.pc + 2) % PointerBase by {
      AdvanceTwice(s.pc);
    }
    assert Read(t.mem, SP) == sp by {
      SpUntouched(p.mem, t.mem, e);
    }
  }

  /** One byte pushed and popped comes back whole, and SP is restored. */
  lemma PushPopByte(mem: seq<Byte>, v: Byte)
    requires ValidMemory(mem) && Room(mem, 1)
    ensures var sp := Read(mem, SP);
      var p := PopStack(PushStack(mem, v, 1), 1);
      p.val == v && Read(p.mem, SP) == sp
      && forall a :: 0 <= a < MemorySize && a != sp - 1 ==> p.mem[a] == mem[a]
  {
    PushPop(mem, v, 1);
    assert StackBase(1) == CellBase;
  }

  /** Two one-word advances of PC are one two-word advance. */
  lemma AdvanceTwice(pc: nat)
    requires pc < PointerBase
    ensures Advance(Advance(pc)) == (pc + 2) % PointerBase
  {
    if pc + 1 == PointerBase {
      assert Advance(pc) == 0;
    } else {
      assert Advance(pc) == pc + 1;
    }
  }

  /** A write to a general register leaves the stack pointer as it reads. */
  lemma SpUntouched(m1: seq<Byte>, m2: seq<Byte>, e: nat)
    requires ValidMemory(m1) && ValidMemory(m2) && e < RegisterCount
    requires forall a :: 0 <= a < MemorySize && a != e ==> m2[a] == m1[a]
    ensures Read(m2, SP) == Read(m1, SP)
  {
    assert m2[SP.hi] == m1[SP.hi] && m2[SP.lo] == m1[SP.lo];
  }

  /**
   * CALL k at PC = p and then RET: PC is `p + 2` (modulo 2^16), the stack
   * pointer is back where it was, and only the two stack cells used differ.
   */
  lemma {:induction false} CallThenRet(s: State, k: nat)
    requires Valid(s) && Room(s.mem, 2)
    ensures var t := Ret(Call(s, k));
      var sp := Read(s.mem, SP);
      t.pc == (s.pc + 2) % PointerBase && Read(t.mem, SP) == sp
      && forall a :: 0 <= a < MemorySize && !(sp - 2 <= a < sp) ==> t.mem[a] == s.mem[a]
  {
    CallRetPc(s, k);
    CallRetMemory(s, k);
  }

  lemma CallRetPc(s: State, k: nat)
    requires Valid(s) && Room(s.mem, 2)
    ensures Ret(Call(s, k)).pc == (s.pc + 2) % PointerBase
  {
    var v := PopStack(PushStack(s.mem, s.pc + 2, 2), 2).val;
    assert Ret(Call(s, k)).pc == v % PointerBase by {
      CallRetStack(s, k);
    }
    assert v == (s.pc + 2) % PointerBase by {
      PushPopWord(s.mem, s.pc + 2);
    }
    ModTwice(s.pc + 2, v);
  }

  lemma ModTwice(x: nat, v: nat)
    requires v == x % PointerBase
    ensures v % PointerBase == v
  {
  }

  lemma CallRetMemory(s: State, k: nat)
    requires Valid(s) && Room(s.mem, 2)
    ensures var r := Ret(Call(s, k)).mem;
      var sp := Read(s.mem, SP);
      Read(r, SP) == sp && forall a :: 0 <= a < MemorySize && !(sp - 2 <= a < sp) ==> r[a] == s.mem[a]
  {
    CallRetStack(s, k);
    PushPop(s.mem, s.pc + 2, 2);
  }

  /** Two bytes pushed and popped give back the value modulo 2^16. */
  lemma PushPopWord(mem: seq<Byte>, v: nat)
    requires ValidMemory(mem) && Room(mem, 2)
    ensures PopStack(PushStack(mem, v, 2), 2).val == v % PointerBase
  {
    PushPop(mem, v, 2);
    assert StackBase(2) == PointerBase;
  }

  /** CALL then RET is a two-byte push of the return address and a two-byte pop into PC. */
  lemma CallRetStack(s: State, k: nat)
    requires Valid(s)
    ensures var p := PopStack(PushStack(s.mem, s.pc + 2, 2), 2);
      Ret(Call(s, k)) == State(p.mem, p.val % PointerBase)
  {
  }

  /**
   * Every action but CALL, RET and the three LD forms moves PC one word on;
   * CALL and RET set it, and the LD forms leave it.
   */
  lemma Advances(k: Kind, s: State, m: map<char, int>)
    requires Valid(s) && Supplied(k, m)
    ensures k in {ADC, ADD, BCLR, LDI, NOP, POP, PUSH} ==> Execute(k, s, m).state.pc == (s.pc + 1) % PointerBase
    ensures k in {LD, LDPostInc, LDPreDec} ==> Execute(k, s, m).state.pc == s.pc
    ensures k == CALL ==> 'k' in m && Execute(k, s, m).state.pc == m['k'] % PointerBase
  {
    if k in {ADC, ADD} {
      AddAdvances(k, s, m);
    } else if k in {BCLR, LDI, NOP, POP, PUSH} {
      OthersAdvance(k, s, m);
    } else if k in {LD, LDPostInc, LDPreDec} {
      LoadsStay(k, s, m);
    } else if k == CALL {
      SuppliedValues(k, m);
      assert Execute(k, s, m).state == Call(s, m['k']);
    }
  }

  lemma AddAdvances(k: Kind, s: State, m: map<char, int>)
    requires Valid(s) && Supplied(k, m) && k in {ADC, ADD}
    ensures Execute(k, s, m).state.pc == (s.pc + 1) % PointerBase
  {
    var d, r := AddOperands(k, s, m);
    AddActionPc(s, d, r, k == ADC);
  }

  lemma AddActionPc(s: State, d: nat, r: nat, carryIn: bool)
    requires Valid(s) && d < RegisterCount && r < RegisterCount
    ensures AddAction(s, d, r, carryIn).pc == (s.pc + 1) % PointerBase
  {
  }

  /** ADC and ADD run `AddAction` on the registers their map names. */
  lemma AddOperands(k: Kind, s: State, m: map<char, int>) returns (d: nat, r: nat)
    requires Valid(s) && Supplied(k, m) && k in {ADC, ADD}
    ensures d < RegisterCount && r < RegisterCount
    ensures Execute(k, s, m).state == AddAction(s, d, r, k == ADC)
  {
    SuppliedValues(k, m);
    d, r := m['d'], m['r'];
  }

  lemma OthersAdvance(k: Kind, s: State, m: map<char, int>)
    requires Valid(s) && Supplied(k, m) && k in {BCLR, LDI, NOP, POP, PUSH}
    ensures Execute(k, s, m).state.pc == (s.pc + 1) % PointerBase
  {
    SuppliedValues(k, m);
    var t := Execute(k, s, m).state;
    match k
    case BCLR => assert t == Bclr(s, m['s']);
    case LDI => assert t == Ldi(s, m['d'], m['k']);
    case NOP => assert t == Nop(s);
    case POP => assert t == Pop(s, m['d']);
    case PUSH => assert t == Push(s, m['d']);
  }

  lemma LoadsStay(k: Kind, s: State, m: map<char, int>)
    requires Valid(s) && Supplied(k, m) && k in {LD, LDPostInc, LDPreDec}
    ensures Execute(k, s, m).state.pc == s.pc
  {
    SuppliedValues(k, m);
    var t := Execute(k, s, m).state;
    match k
    case LD => assert t == Ld(s, m['d']).state;
    case LDPostInc => assert t == LdPostInc(s, m['d']).state;
    case LDPreDec => assert t == LdPreDec(s, m['d']).state;
  }
}
