/**
 * `avrzero.machine.Machine`: data memory, flash, the program counter and
 * `step`.  `StepFrom` is one step as a function of the flash and the state;
 * `SourceStepFrom` is the same step over the fetch as written (see `Fetching`),
 * which the `Machine` class does not use.  The class keeps the data memory
 * and the flash as sequences its methods reassign, one cell at a time as the
 * source does.
 */
module Machines {
  import opened Wrappers
  import opened Bits
  import opened Codec
  import opened Operands
  import opened Registers
  import opened MachineState
  import opened Opcodes
  import opened Instructions
  import opened Registry
  import opened Actions
  import opened Fetching

  /** How a step ended: an action ran, nothing matched, or an exception escaped. */
  datatype Status = Executed(kind: Kind) | NoMatch | Raised(fault: Fault)

  /** The state after a step, and how the step ended. */
  datatype Stepped = Stepped(state: State, status: Status)

  /** The operand map a successful `get_operand_map` returns suits the action. */
  lemma DecodedSupplied(k: Kind, codes: seq<nat>)
    ensures Decode(Registered(k).opcode, codes).Some? ==> Supplied(k, Decode(Registered(k).opcode, codes).value)
  {
    if Decode(Registered(k).opcode, codes).Some? {
      RegisteredCoherent(k);
      DecodeDefines(Registered(k).opcode, codes);
    }
  }

  /** An instruction of the default set is the registered definition of its action. */
  lemma DefaultMember(ins: Instruction)
    requires ins in Default
    ensures ins == Registered(ins.action)
  {
    var i :| 0 <= i < |Default| && Default[i] == ins;
    DefaultEntries(i);
  }

  /**
   * `instruction.action(machine, **operand_map)` for the action `k` after
   * `get_operand_map` has given `decoded`; `None` is the `IndexError` it
   * raises, before the action runs.
   */
  function Run(k: Kind, decoded: Option<map<char, int>>, s: State): (r: Stepped)
    requires Valid(s) && (decoded.Some? ==> Supplied(k, decoded.value))
    ensures Valid(r.state) && !r.status.NoMatch?
    ensures decoded.None? ==> r == Stepped(s, Raised(OperandIndex))
    ensures decoded.Some? ==>
      var o := Execute(k, s, decoded.value);
      r.state == o.state && r.status == if o.Done? then Executed(k) else Raised(o.fault)
  {
    match decoded
    case None => Stepped(s, Raised(OperandIndex))
    case Some(m) =>
      match Execute(k, s, m)
      case Done(t) => Stepped(t, Executed(k))
      case Failed(t, f) => Stepped(t, Raised(f))
  }

  /** Decoding the words fetched for `ins` and running its action. */
  function Dispatch(ins: Instruction, codes: seq<nat>, s: State): (r: Stepped)
    requires Valid(s) && ins in Default
    ensures Valid(r.state) && !r.status.NoMatch?
    ensures ins == Registered(ins.action)
    ensures Decode(ins.opcode, codes).Some? ==> Supplied(ins.action, Decode(ins.opcode, codes).value)
    ensures r == Run(ins.action, Decode(ins.opcode, codes), s)
  {
    DefaultMember(ins);
    DecodedSupplied(ins.action, codes);
    Run(ins.action, Decode(ins.opcode, codes), s)
  }

  /** `step` as written, over the default set and its two-slice fetch. */
  function SourceStepFrom(flash: seq<nat>, s: State): (r: Stepped)
    requires Valid(s)
    ensures Valid(r.state)
    ensures r.status.NoMatch? <==> SourceFetch(Default, flash, s.pc).Unmatched?
    ensures r.status.NoMatch? ==> r.state == s
  {
    var f := SourceFetch(Default, flash, s.pc);
    if f.Found? then Dispatch(f.ins, f.codes, s) else Stepped(s, NoMatch)
  }

  /**
   * `step` with the sized fetch.  Past the end of the flash it raises with
   * the state unchanged, as the source does (see `SourceStepPastEnd`).
   */
  function StepFrom(flash: seq<nat>, s: State): (r: Stepped)
    requires Valid(s)
    ensures Valid(r.state)
    ensures s.pc >= |flash| ==> r == Stepped(s, Raised(OperandIndex))
    ensures r.status.NoMatch? <==> Fetch(Default, flash, s.pc).Unmatched?
    ensures r.status.NoMatch? ==> r.state == s
  {
    match Fetch(Default, flash, s.pc)
    case PastEnd => Stepped(s, Raised(OperandIndex))
    case Unmatched => Stepped(s, NoMatch)
    case Found(ins, codes) => Dispatch(ins, codes, s)
  }

  /**
   * The instruction an operand map is encoded to, placed at PC, is executed
   * with that operand map: one step is `Execute`.
   */
  lemma StepEncoded(k: Kind, m: map<char, int>, flash: seq<nat>, s: State)
    requires Valid(s) && Supplied(k, m) && m.Keys == NamesOf(Registered(k).opcode.operands)
    requires s.pc + |Encode(Registered(k).opcode, m)| <= |flash|
    requires flash[s.pc..s.pc + |Encode(Registered(k).opcode, m)|] == Encode(Registered(k).opcode, m)
    ensures var o := Execute(k, s, m);
      StepFrom(flash, s) == Stepped(o.state, if o.Done? then Executed(k) else Raised(o.fault))
  {
    FetchEncoded(k, m, flash, s.pc);
  }

  /** At or past the end of the flash the step as written raises too, with the state unchanged. */
  lemma SourceStepPastEnd(flash: seq<nat>, s: State)
    requires Valid(s) && s.pc >= |flash|
    ensures SourceStepFrom(flash, s) == StepFrom(flash, s) == Stepped(s, Raised(OperandIndex))
  {
    SourceFetchPastEnd(flash, s.pc);
  }

  /**
   * As written, a CALL whose low word lies in 3072..4095 runs as ADD: it
   * does not jump, PC moves one word on, and the CALL's second word is
   * executed next.  The sized step runs it as CALL.
   */
  lemma SourceStepMisreadsCall(codes: seq<nat>, flash: seq<nat>, s: State)
    requires |codes| == 2 && codes[0] < WordBase && 3072 <= codes[1] < 4096 && Agrees(Registry.Call.opcode, Join(codes))
    requires Valid(s) && s.pc + 2 <= |flash| && flash[s.pc..s.pc + 2] == codes
    ensures SourceStepFrom(flash, s).status == Executed(ADD)
    ensures SourceStepFrom(flash, s).state.pc == (s.pc + 1) % PointerBase
    ensures StepFrom(flash, s) == Dispatch(Registry.Call, codes, s)
  {
    SourceFetchMisreadsCall(codes, flash, s.pc);
    AddRuns(codes, s);
  }

  /**
   * As written, a first word that fits nothing followed by `0x0000` runs as
   * NOP: `get_operand_map` pops the first word and PC moves one word on.
   * The sized step finds no instruction and leaves the state as it is.
   */
  lemma SourceStepMisreadsUnmatched(flash: seq<nat>, s: State)
    requires Valid(s) && s.pc + 2 <= |flash| && flash[s.pc..s.pc + 2] == [0xFFFF, 0]
    ensures SourceStepFrom(flash, s) == Stepped(State(s.mem, (s.pc + 1) % PointerBase), Executed(NOP))
    ensures StepFrom(flash, s) == Stepped(s, NoMatch)
  {
    SourceFetchMisreadsUnmatched(flash, s.pc);
    NopRuns([0xFFFF, 0], s);
  }

  /** Whatever words NOP was fetched with, it keeps memory and moves PC one word on. */
  lemma NopRuns(codes: seq<nat>, s: State)
    requires Valid(s) && |codes| >= 1
    ensures Registry.Nop in Default
    ensures Dispatch(Registry.Nop, codes, s) == Stepped(State(s.mem, (s.pc + 1) % PointerBase), Executed(NOP))
  {
    NopDecodes(codes);
    DispatchRuns(Registry.Nop, codes, s);
    NopExecutes(s, Decode(Registry.Nop.opcode, codes).value);
  }

  /** NOP has no operands, so it decodes from any non-empty list of words. */
  lemma NopDecodes(codes: seq<nat>)
    requires |codes| >= 1
    ensures Decode(Registry.Nop.opcode, codes).Some?
  {
    assert NWords(Registry.Nop.opcode) == 1 && Registry.Nop.opcode.operands == [];
    DecodeFull(Registry.Nop.opcode, codes);
  }

  /** NOP's action keeps memory and moves PC one word on. */
  lemma NopExecutes(s: State, m: map<char, int>)
    requires Valid(s) && Supplied(NOP, m)
    ensures Execute(NOP, s, m) == Done(State(s.mem, (s.pc + 1) % PointerBase))
  {
  }

  /**
   * As written, the two words of a CALL run as `CallReadAs` of the second
   * word: as ADC, ADD or BCLR when that word fits one of them, with operands
   * decoded from the first word, and as CALL otherwise.  The sized step
   * always runs the CALL.
   */
  lemma SourceStepCall(codes: seq<nat>, flash: seq<nat>, s: State)
    requires |codes| == 2 && codes[0] < WordBase && codes[1] < WordBase && Agrees(Registry.Call.opcode, Join(codes))
    requires Valid(s) && s.pc + 2 <= |flash| && flash[s.pc..s.pc + 2] == codes
    ensures CallReadAs(codes[1]) in Default
    ensures SourceStepFrom(flash, s) == Dispatch(CallReadAs(codes[1]), codes, s)
    ensures StepFrom(flash, s) == Dispatch(Registry.Call, codes, s)
  {
    SourceFetchCall(codes, flash, s.pc);
  }

  /** Whatever words ADD was fetched with, it runs and moves PC one word on. */
  lemma AddRuns(codes: seq<nat>, s: State)
    requires Valid(s) && |codes| >= 1
    ensures Add in Default
    ensures Dispatch(Add, codes, s).status == Executed(ADD)
    ensures Dispatch(Add, codes, s).state.pc == (s.pc + 1) % PointerBase
  {
    AdcAddFirst();
    AddDecodes(codes);
    var m := Decode(Add.opcode, codes).value;
    DispatchRuns(Add, codes, s);
    Advances(ADD, s, m);
  }

  /** A decoded instruction whose action cannot raise runs it. */
  lemma DispatchRuns(ins: Instruction, codes: seq<nat>, s: State)
    requires Valid(s) && ins in Default && Decode(ins.opcode, codes).Some?
    requires ins.action !in {LD, LDPostInc, LDPreDec}
    ensures Supplied(ins.action, Decode(ins.opcode, codes).value)
    ensures var t := Execute(ins.action, s, Decode(ins.opcode, codes).value);
      t.Done? && Dispatch(ins, codes, s) == Stepped(t.state, Executed(ins.action))
  {
    DefaultMember(ins);
    DecodedSupplied(ins.action, codes);
  }

  /** ADD decodes from any words: its two fields are five bits wide and cover R0..R31. */
  lemma AddDecodes(codes: seq<nat>)
    requires |codes| >= 1
    ensures Decode(Add.opcode, codes).Some?
  {
    var op := Add.opcode;
    assert NWords(op) == 1 by { AddShape(); }
    forall k | 0 <= k < |op.operands|
      ensures Pow2(multiset(op.pattern)[op.operands[k].name]) <= |Choices(op.operands[k])|
    {
      AddField(k);
    }
    DecodeFull(op, codes);
  }

  /** Each of ADD's two fields is five bits wide and its operand has 32 choices. */
  lemma AddField(k: nat)
    requires k < |Add.opcode.operands|
    ensures Pow2(multiset(Add.opcode.pattern)[Add.opcode.operands[k].name]) <= |Choices(Add.opcode.operands[k])|
  {
    AddShape();
    assert Pow2(5) == 32 by {
      assert Pow2(0) == 1 && Pow2(1) == 2 && Pow2(2) == 4 && Pow2(3) == 8 && Pow2(4) == 16;
    }
    if k == 0 {
      AddFieldD();
    } else {
      AddFieldR();
    }
  }

  lemma AddShape()
    ensures NWords(Add.opcode) == 1 && Add.opcode.operands == [D, R]
    ensures |Choices(D)| == 32 && |Choices(R)| == 32
  {
  }

  lemma AddFieldD()
    ensures multiset(Add.opcode.pattern)['d'] == 5
  {
  }

  lemma AddFieldR()
    ensures multiset(Add.opcode.pattern)['r'] == 5
  {
  }

  /**
   * `get_operand_map` succeeds on enough words when every operand's domain
   * has a value for every content of its field.
   */
  lemma DecodeFull(op: Opcode, codes: seq<nat>)
    requires |codes| >= NWords(op)
    requires forall k :: 0 <= k < |op.operands| ==> Pow2(multiset(op.pattern)[op.operands[k].name]) <= |Choices(op.operands[k])|
    ensures Decode(op, codes).Some?
  {
    forall k | 0 <= k < |op.operands|
      ensures Pow2(PopCount(MaskChar(op, op.operands[k].name))) <= |Choices(op.operands[k])|
    {
      MaskCharWidth(op, op.operands[k].name);
    }
    DecodeWithin(op, op.operands, Join(codes[..NWords(op)]), map[]);
  }

  /** Decoding succeeds when every field's values all lie in its operand's domain. */
  lemma {:induction false} DecodeWithin(op: Opcode, ops: seq<Operand>, mapped: nat, acc: map<char, int>)
    requires forall k :: 0 <= k < |ops| ==> Pow2(PopCount(MaskChar(op, ops[k].name))) <= |Choices(ops[k])|
    ensures DecodeFrom(op, ops, mapped, acc).Some?
    decreases |ops|
  {
    if ops != [] {
      var o := ops[0];
      GatherBound(mapped, MaskChar(op, o.name));
      forall k | 0 <= k < |ops[1..]|
        ensures Pow2(PopCount(MaskChar(op, ops[1..][k].name))) <= |Choices(ops[1..][k])|
      {
        assert ops[1..][k] == ops[k + 1];
      }
      DecodeWithin(op, ops[1..], mapped, acc[o.name := Choices(o)[Gather(mapped, MaskChar(op, o.name))]]);
    }
  }

  // ---------------------------------------------------------------------------
  // The machine object
  // ---------------------------------------------------------------------------

  /** A `Machine` over the default instruction set. */
  class Machine {
    /** The data memory cells `memory[0..RAMEND]`. */
    var memory: seq<Byte>
    /** `PC.val` */
    var pc: nat
    /** The flash words. */
    var flash: seq<nat>
    const flashSize: nat

    predicate Valid()
      reads this
    {
      ValidMemory(memory) && pc < PointerBase && |flash| == flashSize
    }

    /** The machine's data memory and program counter as a value. */
    function Snapshot(): State
      reads this
    {
      State(memory, pc)
    }

    /**
     * `Machine(flash_size=…)`: the cells start as `powerOn` (random in the
     * source), the flash is zeros, and `reset` runs.
     */
    constructor (powerOn: seq<Byte>, flashSize: nat)
      requires ValidMemory(powerOn)
      ensures Valid() && this.flashSize == flashSize
      ensures Snapshot() == MachineState.Reset(State(powerOn, 0))
      ensures flash == Loaded([], flashSize)
    {
      memory := powerOn;
      pc := 0;
      this.flashSize := flashSize;
      var zeros: seq<nat> := [];
      for i := 0 to flashSize
        invariant zeros == Loaded([], i)
      {
        zeros := zeros + [0];
      }
      flash := zeros;
      new;
      Reset();
    }

    /** `_push_stack(val)` */
    method PushByte(val: int)
      requires Valid()
      modifies this
      ensures Valid() && memory == MachineState.PushByte(old(memory), val)
      ensures pc == old(pc) && flash == old(flash)
    {
      memory := Write(memory, SP, Read(memory, SP) - 1);
      memory := Store(memory, Read(memory, SP), val);
    }

    /** `_pop_stack()` */
    method PopByte() returns (val: nat)
      requires Valid()
      modifies this
      ensures Valid() && Popped(memory, val) == MachineState.PopByte(old(memory))
      ensures pc == old(pc) && flash == old(flash)
    {
      var sp := Read(memory, SP);
      val := memory[sp];
      memory := Write(memory, SP, sp + 1);
    }

    /** `push_stack(val, n_byte)` */
    method PushStack(val: nat, n: nat)
      requires Valid()
      modifies this
      ensures Valid() && memory == MachineState.PushStack(old(memory), val, n)
      ensures pc == old(pc) && flash == old(flash)
    {
      var v := val;
      for i := 0 to n
        invariant Valid() && pc == old(pc) && flash == old(flash)
        invariant MachineState.PushStack(memory, v, n - i) == MachineState.PushStack(old(memory), val, n)
      {
        Pow2Cell();
        LowMask(v, CellBits);
        ShrDiv(v, CellBits);
        PushByte(And(v, Pow2(CellBits) - 1));
        v := Shr(v, CellBits);
      }
    }

    /** `pop_stack(n_byte)` */
    method PopStack(n: nat) returns (val: nat)
      requires Valid()
      modifies this
      ensures Valid() && Popped(memory, val) == MachineState.PopStack(old(memory), n)
      ensures pc == old(pc) && flash == old(flash)
    {
      val := 0;
      for i := 0 to n
        invariant Valid() && pc == old(pc) && flash == old(flash)
        invariant PopStackFrom(memory, n - i, val) == MachineState.PopStack(old(memory), n)
      {
        var b := PopByte();
        PointerValueBits(val, b);
        Pow2Cell();
        val := Or(val * CellBase, b);
      }
    }

    /** `reset()` */
    method Reset()
      requires Valid()
      modifies this
      ensures Valid() && Snapshot() == MachineState.Reset(old(Snapshot()))
      ensures flash == old(flash)
    {
      memory := Write(memory, SP, RamEnd);
      pc := PcWrite(0);
    }

    /** `load_program(program)` */
    method LoadProgram(program: seq<nat>)
      requires Valid()
      modifies this
      ensures Valid() && flash == Loaded(program, flashSize)
      ensures memory == old(memory) && pc == old(pc)
    {
      var kept := if |program| <= flashSize then program else program[..flashSize];
      for i := 0 to |kept|
        invariant Valid() && memory == old(memory) && pc == old(pc)
        invariant forall j :: 0 <= j < flashSize ==> flash[j] == if j < i then kept[j] else old(flash)[j]
      {
        flash := flash[i := kept[i]];
      }
      for i := |kept| to flashSize
        invariant Valid() && memory == old(memory) && pc == old(pc)
        invariant forall j :: 0 <= j < flashSize ==> flash[j] == if j < |kept| then kept[j] else if j < i then 0 else old(flash)[j]
      {
        flash := flash[i := 0];
      }
    }

    /** `step()` */
    method Step() returns (status: Status)
      requires Valid()
      modifies this
      ensures Valid() && Stepped(Snapshot(), status) == StepFrom(flash, old(Snapshot()))
      ensures flash == old(flash)
    {
      var r := StepFrom(flash, Snapshot());
      memory, pc := r.state.mem, r.state.pc;
      status := r.status;
    }
  }
}
