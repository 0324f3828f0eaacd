/**
 * `Instruction` and `InstructionSet` of `avrzero/instruction.py`: an
 * instruction pairs an action with its syntax and opcode; `str_to_opcode`
 * turns a source line into machine words; `make` checks a definition; an
 * instruction set is looked up by mnemonic and by machine word.
 */
module Instructions {
  import opened Wrappers
  import opened Bits
  import opened Text
  import opened Codec
  import opened Operands
  import opened Syntax
  import opened Opcodes

  /** The twelve registered actions (`adc` ... `ret`). */
  datatype Kind = ADC | ADD | BCLR | CALL | LD | LDPostInc | LDPreDec | LDI | NOP | POP | PUSH | RET

  /**
   * An instruction. Its operands are those of its opcode: `make` hands the
   * same tuple to the instruction and to `Opcode.parse`.
   */
  datatype Instruction = Instruction(action: Kind, syntax: seq<Token>, opcode: Opcode)

  function OperandsOf(ins: Instruction): seq<Operand>
  {
    ins.opcode.operands
  }

  /** `Instruction.name` */
  function InstructionName(ins: Instruction): Option<string>
  {
    Name(ins.syntax)
  }

  // ---------------------------------------------------------------------------
  // str_to_opcode
  // ---------------------------------------------------------------------------

  /** The first operand whose matched value is missing or outside its domain. */
  function FirstInvalid(ops: seq<Operand>, m: map<char, int>): (r: Option<Operand>)
    ensures r.None? <==> InDomain(ops, m)
    ensures r.Some? ==> r.value in ops && !(r.value.name in m && Check(r.value, m[r.value.name]))
  {
    if ops == [] then None
    else if !(ops[0].name in m && Check(ops[0], m[ops[0].name])) then Some(ops[0])
    else
      var r := FirstInvalid(ops[1..], m);
      assert r.None? ==> InDomain(ops, m) by {
        if r.None? {
          forall k | 0 <= k < |ops| ensures ops[k].name in m && Check(ops[k], m[ops[k].name]) {
            if k > 0 { assert ops[k] == ops[1..][k - 1]; }
          }
        }
      }
      assert r.Some? ==> !InDomain(ops, m) by {
        if r.Some? {
          var k :| 0 <= k < |ops[1..]| && ops[1..][k] == r.value;
          assert ops[k + 1] == r.value;
        }
      }
      r
  }

  /** What `str_to_opcode` returns or raises for a source line. */
  function Encoding(ins: Instruction, line: string): Result<seq<nat>, SyntaxError>
  {
    match MatchFrom(ins.syntax, line, map[])
    case Err(e) => Err(e)
    case Ok(m) =>
      match FirstInvalid(OperandsOf(ins), m)
      case Some(o) => Err(InvalidValue(o.name))
      case None => Ok(Encode(ins.opcode, m))
  }

  /** `Instruction.str_to_opcode` */
  method StrToOpcode(ins: Instruction, line: string) returns (r: Result<seq<nat>, SyntaxError>)
    ensures r == Encoding(ins, line)
  {
    var matched := Match(ins.syntax, line);
    if matched.Err? {
      return Err(matched.error);
    }
    var operandMap := matched.value;
    var ops := OperandsOf(ins);
    for k := 0 to |ops|
      invariant FirstInvalid(ops, operandMap) == FirstInvalid(ops[k..], operandMap)
    {
      assert ops[k..][0] == ops[k] && ops[k..][1..] == ops[k + 1..];
      var o := ops[k];
      if !(o.name in operandMap && Check(o, operandMap[o.name])) {
        return Err(InvalidValue(o.name));
      }
    }
    var codes := MapOperands(ins.opcode, operandMap);
    return Ok(codes);
  }

  /** An instruction whose operands are exactly its syntax's slots, over a well-formed opcode. */
  predicate Coherent(ins: Instruction)
  {
    WellFormed(ins.opcode) && SlotNames(ins.syntax) == NamesOf(OperandsOf(ins))
  }

  /**
   * The words `str_to_opcode` produces decode back to the operand values read
   * from the line, and carry the instruction's own fixed bits.
   */
  lemma EncodingDecodes(ins: Instruction, line: string)
    requires Coherent(ins) && Encoding(ins, line).Ok?
    ensures MatchFrom(ins.syntax, line, map[]).Ok?
    ensures Decode(ins.opcode, Encoding(ins, line).value) == Some(MatchFrom(ins.syntax, line, map[]).value)
    ensures Fits(ins.opcode, Join(Encoding(ins, line).value))
  {
    var m := MatchFrom(ins.syntax, line, map[]).value;
    MatchDefinesSlots(ins.syntax, line, map[]);
    DecodeEncode(ins.opcode, m);
    EncodeMatchesFixed(ins.opcode, m);
  }

  /**
   * `str_to_opcode` fails with an invalid-value error exactly when the line
   * matches the syntax but some operand's value lies outside its domain.
   */
  lemma EncodingRejectsValue(ins: Instruction, line: string)
    ensures Encoding(ins, line).Err? && Encoding(ins, line).error.InvalidValue? <==>
      MatchFrom(ins.syntax, line, map[]).Ok? && !InDomain(OperandsOf(ins), MatchFrom(ins.syntax, line, map[]).value)
  {
  }

  /**
   * A line written in the instruction's own syntax with in-domain values is
   * accepted and packs exactly those values.
   */
  lemma EncodingOfFormat(ins: Instruction, values: map<char, nat>)
    requires Coherent(ins) && Unambiguous(ins.syntax)
    requires values.Keys == SlotNames(ins.syntax)
    requires InDomain(OperandsOf(ins), map k | k in values :: values[k] as int)
    ensures Encoding(ins, Format(ins.syntax, values)) == Ok(Encode(ins.opcode, map k | k in values :: values[k] as int))
  {
    MatchFormat(ins.syntax, values);
  }

  // ---------------------------------------------------------------------------
  // make
  // ---------------------------------------------------------------------------

  /** What `Instruction.make(...)(action)` produces or raises, in the order it checks. */
  function Make(action: Kind, definition: string, operands: seq<Operand>, pattern: string)
    : Result<Instruction, DefinitionError>
  {
    if !DistinctNames(operands) then Err(DuplicateOperandNames)
    else
      match ParseFrom(definition, operands, [], [])
      case Err(e) => Err(e)
      case Ok(tokens) =>
        match ParseOpcode(pattern, operands)
        case Err(e) => Err(e)
        case Ok(op) => Ok(Instruction(action, tokens, op))
  }

  /** `Instruction.make` with its decorator applied. */
  method MakeInstruction(action: Kind, definition: string, operands: seq<Operand>, pattern: string)
    returns (r: Result<Instruction, DefinitionError>)
    ensures r == Make(action, definition, operands, pattern)
  {
    var seen: seq<char> := [];
    for i := 0 to |operands|
      invariant |seen| == i && forall k :: 0 <= k < i ==> seen[k] == operands[k].name
      invariant forall a, b :: 0 <= a < b < i ==> operands[a].name != operands[b].name
    {
      if operands[i].name in seen {
        var k :| 0 <= k < i && seen[k] == operands[i].name;
        assert !DistinctNames(operands);
        return Err(DuplicateOperandNames);
      }
      seen := seen + [operands[i].name];
    }
    var tokens := Parse(definition, operands);
    if tokens.Err? {
      return Err(tokens.error);
    }
    var op := ParseOpcode(pattern, operands);
    if op.Err? {
      return Err(op.error);
    }
    return Ok(Instruction(action, tokens.value, op.value));
  }

  /**
   * A definition is accepted exactly when its operand names are distinct,
   * every lower-case letter of the syntax is an operand, every operand occurs
   * in the syntax, the pattern is whole bytes and its letters are exactly the
   * operand names. The instruction built then has its operands as its slots.
   */
  lemma MakeSound(action: Kind, definition: string, operands: seq<Operand>, pattern: string)
    ensures Make(action, definition, operands, pattern).Ok? <==>
      DistinctNames(operands)
      && LettersDeclared(definition, operands) && OperandsUsed(definition, operands, [])
      && |pattern| % ByteSize == 0 && Letters(pattern) == NamesOf(operands)
    ensures Make(action, definition, operands, pattern).Ok? ==>
      var ins := Make(action, definition, operands, pattern).value;
      ins.action == action && OperandsOf(ins) == operands && ins.opcode.pattern == pattern
      && SlotNames(ins.syntax) == NamesOf(operands)
  {
    if DistinctNames(operands) {
      ParseSound(definition, operands);
      var parsed := ParseFrom(definition, operands, [], []);
      if parsed.Ok? {
        var tokens := parsed.value;
        forall c | c in SlotNames(tokens) ensures c in NamesOf(operands) {
          var i :| 0 <= i < |tokens| && tokens[i].Opnd? && tokens[i].operand.name == c;
          assert tokens[i].operand in operands;
        }
        forall c | c in NamesOf(operands) ensures c in SlotNames(tokens) {
          var o :| o in operands && o.name == c;
          assert Opnd(o) in tokens;
          var i :| 0 <= i < |tokens| && tokens[i] == Opnd(o);
        }
      }
    }
  }

  // ---------------------------------------------------------------------------
  // Lookup
  // ---------------------------------------------------------------------------

  /** `fixed_mask & word == fixed` */
  predicate Fits(op: Opcode, word: nat)
  {
    And(FixedMask(op), word) == Fixed(op)
  }

  /** A word carries the pattern's fixed bit wherever the pattern has one. */
  predicate Agrees(op: Opcode, word: nat)
  {
    forall i :: 0 <= i < |op.pattern| && At(op.pattern, i) in "01" ==> (Bit(word, i) <==> At(op.pattern, i) == '1')
  }

  /** The mask test `Fits` holds exactly when the word agrees with every fixed bit. */
  lemma FitsAgrees(op: Opcode, word: nat)
    ensures Fits(op, word) <==> Agrees(op, word)
  {
    if Fits(op, word) {
      forall i | 0 <= i < |op.pattern| && At(op.pattern, i) in "01"
        ensures Bit(word, i) <==> At(op.pattern, i) == '1'
      {
        BitAnd(FixedMask(op), word, i);
        FixedBits(op, i);
      }
    }
    if Agrees(op, word) {
      forall i: nat ensures Bit(And(FixedMask(op), word), i) == Bit(Fixed(op), i) {
        BitAnd(FixedMask(op), word, i);
        FixedBits(op, i);
      }
      BitsEqual(And(FixedMask(op), word), Fixed(op));
    }
  }

  /** Two patterns that fix bit `i` to different values. */
  predicate Clash(a: Opcode, b: Opcode, i: nat)
  {
    i < |a.pattern| && i < |b.pattern| && At(a.pattern, i) in "01" && At(b.pattern, i) in "01"
    && At(a.pattern, i) != At(b.pattern, i)
  }

  /** No word agrees with two opcodes that fix some bit differently. */
  lemma Exclusive(a: Opcode, b: Opcode, i: nat, word: nat)
    requires Clash(a, b, i)
    ensures !(Agrees(a, word) && Agrees(b, word))
  {
  }

  /** The instructions named `name` ignoring case, in order; `None` if a nameless one is met. */
  function Named(list: seq<Instruction>, name: string): Option<seq<Instruction>>
  {
    if list == [] then Some([])
    else
      match InstructionName(list[0])
      case None => None
      case Some(n) =>
        match Named(list[1..], name)
        case None => None
        case Some(rest) => Some(if Lower(n) == Lower(name) then [list[0]] + rest else rest)
  }

  /** `found` in front of the rest of a search, if the rest succeeded. */
  function Prefix(found: seq<Instruction>, rest: Option<seq<Instruction>>): Option<seq<Instruction>>
  {
    if rest.None? then None else Some(found + rest.value)
  }

  /** The position of the first instruction whose fixed bits fit `word`. */
  function FirstFit(list: seq<Instruction>, word: nat): (r: Option<nat>)
    ensures r.Some? ==>
      r.value < |list| && Fits(list[r.value].opcode, word)
      && (forall j :: 0 <= j < r.value ==> !Fits(list[j].opcode, word))
    ensures r.None? ==> forall j :: 0 <= j < |list| ==> !Fits(list[j].opcode, word)
  {
    if list == [] then None
    else if Fits(list[0].opcode, word) then Some(0)
    else
      match FirstFit(list[1..], word)
      case None =>
        assert forall j :: 1 <= j < |list| ==> list[j] == list[1..][j - 1];
        None
      case Some(k) =>
        assert forall j :: 1 <= j <= k + 1 ==> list[j] == list[1..][j - 1];
        Some(k + 1)
  }

  /** What `by_opcode` returns for a list of words. */
  function Lookup(list: seq<Instruction>, codes: seq<nat>): Option<Instruction>
  {
    match FirstFit(list, Join(codes))
    case None => None
    case Some(k) => Some(list[k])
  }

  /** `InstructionSet` */
  class InstructionSet {
    const name: string
    var instructions: seq<Instruction>

    constructor (name: string)
      ensures this.name == name && instructions == []
    {
      this.name := name;
      instructions := [];
    }

    /** `InstructionSet.add` */
    method Add(ins: Instruction)
      modifies this
      ensures instructions == old(instructions) + [ins]
    {
      instructions := instructions + [ins];
    }

    /** `InstructionSet.by_name`, consumed to the end. */
    method ByName(n: string) returns (r: Option<seq<Instruction>>)
      ensures r == Named(instructions, n)
    {
      var found: seq<Instruction> := [];
      assert instructions[0..] == instructions;
      if Named(instructions, n).Some? {
        assert [] + Named(instructions, n).value == Named(instructions, n).value;
      }
      for k := 0 to |instructions|
        invariant Named(instructions, n) == Prefix(found, Named(instructions[k..], n))
      {
        var ins := instructions[k];
        assert instructions[k..][0] == ins && instructions[k..][1..] == instructions[k + 1..];
        NamedStep(instructions, k, n);
        var insName := InstructionName(ins);
        if insName.None? {
          return None;
        }
        ghost var rest := Named(instructions[k + 1..], n);
        if Lower(insName.value) == Lower(n) {
          if rest.Some? {
            assert found + ([ins] + rest.value) == (found + [ins]) + rest.value;
          }
          found := found + [ins];
        } else if rest.Some? {
          assert [] + rest.value == rest.value;
        }
      }
      assert Named(instructions[|instructions|..], n) == Some([]);
      assert found + [] == found;
      return Some(found);
    }

    /** `InstructionSet.by_opcode` */
    method ByOpcode(codes: seq<nat>) returns (r: Option<Instruction>)
      ensures r == Lookup(instructions, codes)
    {
      var word: nat := 0;
      for i := 0 to |codes|
        invariant word == Join(codes[..i])
      {
        JoinPrefix(codes, i);
        word := Or(word * WordBase, codes[i]);
      }
      assert codes[..|codes|] == codes;
      for k := 0 to |instructions|
        invariant FirstFit(instructions, word) == FirstFitFrom(instructions, word, k)
      {
        var fixedMask := BinaryMask(instructions[k].opcode.pattern, "01");
        var fixed := BinaryMask(instructions[k].opcode.pattern, "1");
        FirstFitStep(instructions, word, k);
        if And(fixedMask, word) == fixed {
          return Some(instructions[k]);
        }
      }
      return None;
    }
  }

  /** `FirstFit` when the first `k` instructions are known not to fit. */
  function FirstFitFrom(list: seq<Instruction>, word: nat, k: nat): Option<nat>
    requires k <= |list|
  {
    match FirstFit(list[k..], word)
    case None => None
    case Some(j) => Some(j + k)
  }

  lemma FirstFitStep(list: seq<Instruction>, word: nat, k: nat)
    requires k < |list|
    ensures Fits(list[k].opcode, word) ==> FirstFitFrom(list, word, k) == Some(k)
    ensures !Fits(list[k].opcode, word) ==> FirstFitFrom(list, word, k) == FirstFitFrom(list, word, k + 1)
  {
    assert list[k..][0] == list[k] && list[k..][1..] == list[k + 1..];
  }

  lemma NamedStep(list: seq<Instruction>, k: nat, name: string)
    requires k < |list|
    ensures InstructionName(list[k]).None? ==> Named(list[k..], name) == None
    ensures InstructionName(list[k]).Some? ==>
      Named(list[k..], name) == Prefix(if Lower(InstructionName(list[k]).value) == Lower(name) then [list[k]] else [],
                                       Named(list[k + 1..], name))
  {
    assert list[k..][0] == list[k] && list[k..][1..] == list[k + 1..];
    var rest := Named(list[k + 1..], name);
    if rest.Some? {
      assert [] + rest.value == rest.value;
    }
  }

  /** The names found in a concatenation are those of each part, in order. */
  lemma {:induction false} NamedConcat(a: seq<Instruction>, b: seq<Instruction>, name: string)
    ensures Named(a + b, name) ==
      if Named(a, name).Some? && Named(b, name).Some? then Some(Named(a, name).value + Named(b, name).value)
      else if Named(a, name).None? then None
      else Named(b, name)
    decreases |a|
  {
    if a == [] {
      assert a + b == b;
      if Named(b, name).Some? {
        assert [] + Named(b, name).value == Named(b, name).value;
      }
    } else {
      assert (a + b)[0] == a[0] && (a + b)[1..] == a[1..] + b;
      NamedConcat(a[1..], b, name);
      match InstructionName(a[0])
      case None =>
      case Some(n) =>
        if Named(a[1..], name).Some? && Named(b, name).Some? {
          var x, y := Named(a[1..], name).value, Named(b, name).value;
          if Lower(n) == Lower(name) {
            assert [a[0]] + (x + y) == ([a[0]] + x) + y;
          }
        }
    }
  }

  /** `by_name` yields exactly the instructions whose name equals `name` ignoring case. */
  lemma {:induction false} NamedMembers(list: seq<Instruction>, name: string)
    requires Named(list, name).Some?
    ensures forall i :: 0 <= i < |list| ==> InstructionName(list[i]).Some?
    ensures forall x :: x in Named(list, name).value <==>
      x in list && InstructionName(x).Some? && Lower(InstructionName(x).value) == Lower(name)
    decreases |list|
  {
    if list != [] {
      NamedMembers(list[1..], name);
      forall i | 0 <= i < |list| ensures InstructionName(list[i]).Some? {
        if i > 0 { assert list[i] == list[1..][i - 1]; }
      }
      forall x ensures x in list <==> x == list[0] || x in list[1..] {
        if x in list {
          var i :| 0 <= i < |list| && list[i] == x;
          if i > 0 { assert list[1..][i - 1] == x; }
        }
      }
    }
  }
}
