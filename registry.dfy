/**
 * The default instruction set of `avrzero/instruction.py`: the twelve
 * instructions registered by `@Instruction.make`, in registration order, and
 * what their opcode patterns imply for decoding a machine word.
 */
module Registry {
  import opened Wrappers
  import opened Bits
  import opened Operands
  import opened Syntax
  import opened Opcodes
  import opened Instructions
  import opened Text

  // Operands used by the definitions.
  const D := Operand('d', Span(0, 32))
  const R := Operand('r', Span(0, 32))
  const S := Operand('s', Span(0, 8))
  const K22 := Operand('k', Span(0, 64000))
  const D16 := Operand('d', Span(16, 32))
  const K8 := Operand('k', Span(0, 256))

  /** `ADC Rd, Rr` */
  const Adc := Instruction(ADC, [Lit("ADC"), Space, Lit("R"), Opnd(D), Lit(","), Space, Lit("R"), Opnd(R)],
    Opcode("000111rdddddrrrr", [D, R]))

  /** `ADD Rd, Rr` */
  const Add := Instruction(ADD, [Lit("ADD"), Space, Lit("R"), Opnd(D), Lit(","), Space, Lit("R"), Opnd(R)],
    Opcode("000011rdddddrrrr", [D, R]))

  /** `BCLR s` */
  const Bclr := Instruction(BCLR, [Lit("BCLR"), Space, Opnd(S)],
    Opcode("100101001sss1000", [S]))

  /** `CALL k` */
  const Call := Instruction(CALL, [Lit("CALL"), Space, Opnd(K22)],
    Opcode("1001010kkkkk111kkkkkkkkkkkkkkkkk", [K22]))

  /** `LD Rd, X` */
  const Ld := Instruction(LD, [Lit("LD"), Space, Lit("R"), Opnd(D), Lit(","), Space, Lit("X")],
    Opcode("1001000ddddd1100", [D]))

  /** `LD Rd, X+` */
  const LdPostInc := Instruction(LDPostInc, [Lit("LD"), Space, Lit("R"), Opnd(D), Lit(","), Space, Lit("X"), Lit("+")],
    Opcode("1001000ddddd1101", [D]))

  /** `LD Rd, -X` */
  const LdPreDec := Instruction(LDPreDec, [Lit("LD"), Space, Lit("R"), Opnd(D), Lit(","), Space, Lit("-"), Lit("X")],
    Opcode("1001000ddddd1110", [D]))

  /** `LDI Rd, k` */
  const Ldi := Instruction(LDI, [Lit("LDI"), Space, Lit("R"), Opnd(D16), Lit(","), Space, Opnd(K8)],
    Opcode("1110kkkkddddkkkk", [D16, K8]))

  /** `NOP` */
  const Nop := Instruction(NOP, [Lit("NOP")],
    Opcode("0000000000000000", []))

  /** `POP Rd` */
  const Pop := Instruction(POP, [Lit("POP"), Space, Lit("R"), Opnd(D)],
    Opcode("1001000ddddd1111", [D]))

  /** `PUSH Rd` */
  const Push := Instruction(PUSH, [Lit("PUSH"), Space, Lit("R"), Opnd(D)],
    Opcode("1001001ddddd1111", [D]))

  /** `RET` */
  const Ret := Instruction(RET, [Lit("RET")],
    Opcode("1001010100001000", []))

  /** `InstructionSet.default` after the twelve registrations. */
  const Default: seq<Instruction> := [Adc, Add, Bclr, Call, Ld, LdPostInc, LdPreDec, Ldi, Nop, Pop, Push, Ret]

  /** The registered instruction carrying each action. */
  function Registered(k: Kind): (ins: Instruction)
    ensures ins.action == k && ins in Default
  {
    match k
    case ADC => Adc
    case ADD => Add
    case BCLR => Bclr
    case CALL => Call
    case LD => Ld
    case LDPostInc => LdPostInc
    case LDPreDec => LdPreDec
    case LDI => Ldi
    case NOP => Nop
    case POP => Pop
    case PUSH => Push
    case RET => Ret
  }

  /** The arguments of an `@Instruction.make(...)` registration. */
  datatype Definition = Definition(syntax: string, operands: seq<Operand>, pattern: string)

  /** The definition each action is registered with. */
  function DefinitionOf(k: Kind): Definition
  {
    match k
    case ADC => Definition("ADC Rd, Rr", [D, R], "000111rdddddrrrr")
    case ADD => Definition("ADD Rd, Rr", [D, R], "000011rdddddrrrr")
    case BCLR => Definition("BCLR s", [S], "100101001sss1000")
    case CALL => Definition("CALL k", [K22], "1001010kkkkk111kkkkkkkkkkkkkkkkk")
    case LD => Definition("LD Rd, X", [D], "1001000ddddd1100")
    case LDPostInc => Definition("LD Rd, X+", [D], "1001000ddddd1101")
    case LDPreDec => Definition("LD Rd, -X", [D], "1001000ddddd1110")
    case LDI => Definition("LDI Rd, k", [D16, K8], "1110kkkkddddkkkk")
    case NOP => Definition("NOP", [], "0000000000000000")
    case POP => Definition("POP Rd", [D], "1001000ddddd1111")
    case PUSH => Definition("PUSH Rd", [D], "1001001ddddd1111")
    case RET => Definition("RET", [], "1001010100001000")
  }

  /** `make` succeeds with `ins` once each of its checks is known to pass. */
  lemma MadeFrom(k: Kind, d: Definition, ins: Instruction)
    requires DistinctNames(d.operands) && ins.action == k
    requires ParseFrom(d.syntax, d.operands, [], []) == Ok(ins.syntax)
    requires ParseOpcode(d.pattern, d.operands) == Ok(ins.opcode)
    ensures Make(k, d.syntax, d.operands, d.pattern) == Ok(ins)
  {
  }

  /** The letters of a pattern made of `0`, `1` and the characters of `letters`, each used. */
  lemma LettersAre(p: string, letters: string)
    requires forall i :: 0 <= i < |p| ==> p[i] in "01" || p[i] in letters
    requires forall j :: 0 <= j < |letters| ==> letters[j] in p && letters[j] !in "01"
    ensures Letters(p) == set c | c in letters
  {
  }

  lemma AdcPatternParsed()
    ensures ParseOpcode("000111rdddddrrrr", [D, R]) == Ok(Adc.opcode)
  {
    LettersAre("000111rdddddrrrr", "dr");
    assert NamesOf([D, R]) == {'d', 'r'};
  }

  lemma AdcMade()
    ensures Make(ADC, DefinitionOf(ADC).syntax, DefinitionOf(ADC).operands, DefinitionOf(ADC).pattern) == Ok(Adc)
  {
    AdcParsed();
    AdcPatternParsed();
    MadeFrom(ADC, DefinitionOf(ADC), Adc);
  }

  lemma AddPatternParsed()
    ensures ParseOpcode("000011rdddddrrrr", [D, R]) == Ok(Add.opcode)
  {
    LettersAre("000011rdddddrrrr", "dr");
    assert NamesOf([D, R]) == {'d', 'r'};
  }

  lemma AddMade()
    ensures Make(ADD, DefinitionOf(ADD).syntax, DefinitionOf(ADD).operands, DefinitionOf(ADD).pattern) == Ok(Add)
  {
    AddParsed();
    AddPatternParsed();
    MadeFrom(ADD, DefinitionOf(ADD), Add);
  }

  lemma BclrPatternParsed()
    ensures ParseOpcode("100101001sss1000", [S]) == Ok(Bclr.opcode)
  {
    LettersAre("100101001sss1000", "s");
    assert NamesOf([S]) == {'s'};
  }

  lemma BclrMade()
    ensures Make(BCLR, DefinitionOf(BCLR).syntax, DefinitionOf(BCLR).operands, DefinitionOf(BCLR).pattern) == Ok(Bclr)
  {
    BclrParsed();
    BclrPatternParsed();
    MadeFrom(BCLR, DefinitionOf(BCLR), Bclr);
  }

  lemma CallPatternParsed()
    ensures ParseOpcode("1001010kkkkk111kkkkkkkkkkkkkkkkk", [K22]) == Ok(Call.opcode)
  {
    LettersAre("1001010kkkkk111kkkkkkkkkkkkkkkkk", "k");
    assert NamesOf([K22]) == {'k'};
  }

  lemma CallMade()
    ensures Make(CALL, DefinitionOf(CALL).syntax, DefinitionOf(CALL).operands, DefinitionOf(CALL).pattern) == Ok(Call)
  {
    CallParsed();
    CallPatternParsed();
    MadeFrom(CALL, DefinitionOf(CALL), Call);
  }

  lemma LdPatternParsed()
    ensures ParseOpcode("1001000ddddd1100", [D]) == Ok(Ld.opcode)
  {
    LettersAre("1001000ddddd1100", "d");
    assert NamesOf([D]) == {'d'};
  }

  lemma LdMade()
    ensures Make(LD, DefinitionOf(LD).syntax, DefinitionOf(LD).operands, DefinitionOf(LD).pattern) == Ok(Ld)
  {
    LdParsed();
    LdPatternParsed();
    MadeFrom(LD, DefinitionOf(LD), Ld);
  }

  lemma LdPostIncPatternParsed()
    ensures ParseOpcode("1001000ddddd1101", [D]) == Ok(LdPostInc.opcode)
  {
    LettersAre("1001000ddddd1101", "d");
    assert NamesOf([D]) == {'d'};
  }

  lemma LdPostIncMade()
    ensures Make(LDPostInc, DefinitionOf(LDPostInc).syntax, DefinitionOf(LDPostInc).operands, DefinitionOf(LDPostInc).pattern) == Ok(LdPostInc)
  {
    LdPostIncParsed();
    LdPostIncPatternParsed();
    MadeFrom(LDPostInc, DefinitionOf(LDPostInc), LdPostInc);
  }

  lemma LdPreDecPatternParsed()
    ensures ParseOpcode("1001000ddddd1110", [D]) == Ok(LdPreDec.opcode)
  {
    LettersAre("1001000ddddd1110", "d");
    assert NamesOf([D]) == {'d'};
  }

  lemma LdPreDecMade()
    ensures Make(LDPreDec, DefinitionOf(LDPreDec).syntax, DefinitionOf(LDPreDec).operands, DefinitionOf(LDPreDec).pattern) == Ok(LdPreDec)
  {
    LdPreDecParsed();
    LdPreDecPatternParsed();
    MadeFrom(LDPreDec, DefinitionOf(LDPreDec), LdPreDec);
  }

  lemma LdiPatternParsed()
    ensures ParseOpcode("1110kkkkddddkkkk", [D16, K8]) == Ok(Ldi.opcode)
  {
    LettersAre("1110kkkkddddkkkk", "dk");
    assert NamesOf([D16, K8]) == {'d', 'k'};
  }

  lemma LdiMade()
    ensures Make(LDI, DefinitionOf(LDI).syntax, DefinitionOf(LDI).operands, DefinitionOf(LDI).pattern) == Ok(Ldi)
  {
    LdiParsed();
    LdiPatternParsed();
    MadeFrom(LDI, DefinitionOf(LDI), Ldi);
  }

  lemma NopPatternParsed()
    ensures ParseOpcode("0000000000000000", []) == Ok(Nop.opcode)
  {
    LettersAre("0000000000000000", "");
    assert NamesOf([]) == {};
  }

  lemma NopMade()
    ensures Make(NOP, DefinitionOf(NOP).syntax, DefinitionOf(NOP).operands, DefinitionOf(NOP).pattern) == Ok(Nop)
  {
    NopParsed();
    NopPatternParsed();
    MadeFrom(NOP, DefinitionOf(NOP), Nop);
  }

  lemma PopPatternParsed()
    ensures ParseOpcode("1001000ddddd1111", [D]) == Ok(Pop.opcode)
  {
    LettersAre("1001000ddddd1111", "d");
    assert NamesOf([D]) == {'d'};
  }

  lemma PopMade()
    ensures Make(POP, DefinitionOf(POP).syntax, DefinitionOf(POP).operands, DefinitionOf(POP).pattern) == Ok(Pop)
  {
    PopParsed();
    PopPatternParsed();
    MadeFrom(POP, DefinitionOf(POP), Pop);
  }

  lemma PushPatternParsed()
    ensures ParseOpcode("1001001ddddd1111", [D]) == Ok(Push.opcode)
  {
    LettersAre("1001001ddddd1111", "d");
    assert NamesOf([D]) == {'d'};
  }

  lemma PushMade()
    ensures Make(PUSH, DefinitionOf(PUSH).syntax, DefinitionOf(PUSH).operands, DefinitionOf(PUSH).pattern) == Ok(Push)
  {
    PushParsed();
    PushPatternParsed();
    MadeFrom(PUSH, DefinitionOf(PUSH), Push);
  }

  lemma RetPatternParsed()
    ensures ParseOpcode("1001010100001000", []) == Ok(Ret.opcode)
  {
    LettersAre("1001010100001000", "");
    assert NamesOf([]) == {};
  }

  lemma RetMade()
    ensures Make(RET, DefinitionOf(RET).syntax, DefinitionOf(RET).operands, DefinitionOf(RET).pattern) == Ok(Ret)
  {
    RetParsed();
    RetPatternParsed();
    MadeFrom(RET, DefinitionOf(RET), Ret);
  }

  /**
   * Every registered instruction is exactly what `make` builds from its
   * definition: the syntax string parses into its tokens and the pattern
   * names exactly its operands.
   */
  lemma RegisteredMade(k: Kind)
    ensures Make(k, DefinitionOf(k).syntax, DefinitionOf(k).operands, DefinitionOf(k).pattern) == Ok(Registered(k))
  {
    match k
    case ADC => AdcMade();
    case ADD => AddMade();
    case BCLR => BclrMade();
    case CALL => CallMade();
    case LD => LdMade();
    case LDPostInc => LdPostIncMade();
    case LDPreDec => LdPreDecMade();
    case LDI => LdiMade();
    case NOP => NopMade();
    case POP => PopMade();
    case PUSH => PushMade();
    case RET => RetMade();
  }

  /** A run of upper-case letters only extends the pending literal token. */
  lemma {:induction false} UpperRunParsed(chars: string, operands: seq<Operand>, token: string, tokens: seq<Token>, n: nat)
    requires n <= |chars| && forall i :: 0 <= i < n ==> IsUpper(chars[i])
    ensures ParseFrom(chars, operands, token, tokens) == ParseFrom(chars[n..], operands, token + chars[..n], tokens)
    decreases n
  {
    if n == 0 {
      assert chars[0..] == chars && token + chars[..0] == token;
    } else {
      ParseStep(chars, operands, token, tokens);
      UpperRunParsed(chars[1..], operands, token + [chars[0]], tokens, n - 1);
      assert chars[1..][n - 1..] == chars[n..];
      assert token + [chars[0]] + chars[1..][..n - 1] == token + chars[..n];
    }
  }

  /** A definition that is a bare mnemonic parses into that one literal. */
  lemma MnemonicParsed(m: string, operands: seq<Operand>)
    requires |m| == 3 && IsUpper(m[0]) && IsUpper(m[1]) && IsUpper(m[2])
    ensures ParseFrom(m, operands, "", []) == ParseFrom([], operands, m, [])
  {
    UpperRunParsed(m, operands, "", [], 3);
    assert m[..3] == m && "" + m == m;
  }

  /** The register-pair operands `Rd, Rr` shared by ADC and ADD, after the mnemonic `m` and a space. */
  lemma PairParsed(tail: string, m: string)
    requires tail == "Rd, Rr"
    ensures ParseFrom(tail, [D, R], "", [Lit(m), Space])
         == ParseFrom([], [D, R], "", [Lit(m), Space, Lit("R"), Opnd(D), Lit(","), Space, Lit("R"), Opnd(R)])
  {
    assert tail[0] == 'R' && tail[1] == 'd' && tail[2] == ',' && tail[3] == ' ' && tail[4] == 'R' && tail[5] == 'r';
    RdCommaParsed(tail, [D, R], D, [Lit(m), Space]);
    assert [Lit(m), Space] + [Lit("R"), Opnd(D), Lit(","), Space] == [Lit(m), Space, Lit("R"), Opnd(D), Lit(","), Space];
    SecondOfPairParsed(tail[4..], [Lit(m), Space, Lit("R"), Opnd(D), Lit(","), Space]);
    assert [Lit(m), Space, Lit("R"), Opnd(D), Lit(","), Space] + [Lit("R"), Opnd(R)]
        == [Lit(m), Space, Lit("R"), Opnd(D), Lit(","), Space, Lit("R"), Opnd(R)];
  }

  /** `Rd, ` after any leading tokens, with `d` naming the operand `o`. */
  lemma RdCommaParsed(tail: string, ops: seq<Operand>, o: Operand, head: seq<Token>)
    requires |tail| >= 4 && tail[0] == 'R' && tail[1] == 'd' && tail[2] == ',' && tail[3] == ' '
    requires FindOperand(ops, 'd') == Some(o)
    ensures ParseFrom(tail, ops, "", head) == ParseFrom(tail[4..], ops, "", head + [Lit("R"), Opnd(o), Lit(","), Space])
  {
    assert tail[1..][0] == 'd' && tail[1..][1..] == tail[2..] && "" + ['R'] == "R";
    ParseStep(tail, ops, "", head);
    ParseStep(tail[1..], ops, "R", head);
    var t2 := Flush(head, "R") + [Opnd(o)];
    assert t2 == head + [Lit("R"), Opnd(o)];
    assert tail[2..][0] == ',' && tail[2..][1..] == tail[3..];
    ParseStep(tail[2..], ops, "", t2);
    var t3 := Flush(t2, "") + [Lit([','])];
    assert t3 == head + [Lit("R"), Opnd(o), Lit(",")];
    assert tail[3..][0] == ' ' && tail[3..][1..] == tail[4..];
    ParseStep(tail[3..], ops, "", t3);
    assert Flush(t3, "") + [Space] == head + [Lit("R"), Opnd(o), Lit(","), Space];
  }

  /** The second register `Rr` of a pair. */
  lemma SecondOfPairParsed(tail: string, head: seq<Token>)
    requires |tail| == 2 && tail[0] == 'R' && tail[1] == 'r'
    ensures ParseFrom(tail, [D, R], "", head) == ParseFrom([], [D, R], "", head + [Lit("R"), Opnd(R)])
  {
    var ops := [D, R];
    assert tail[1..][0] == 'r' && tail[1..][1..] == [] && "" + ['R'] == "R";
    ParseStep(tail, ops, "", head);
    ParseStep(tail[1..], ops, "R", head);
    assert FindOperand(ops, 'r') == Some(R);
    assert Flush(head, "R") + [Opnd(R)] == head + [Lit("R"), Opnd(R)];
  }

  /** The tokens of `LD Rd, ` that the three LD forms share. */
  const LdHead := [Lit("LD"), Space, Lit("R"), Opnd(D), Lit(","), Space]

  /** `LD Rd, ` followed by any addressing text. */
  lemma LdHeadParsed(def: string)
    requires |def| >= 7 && def[..7] == "LD Rd, "
    ensures ParseFrom(def, [D], "", []) == ParseFrom(def[7..], [D], "", LdHead)
  {
    assert def[0] == 'L' && def[1] == 'D' && def[2] == ' ';
    assert def[3] == 'R' && def[4] == 'd' && def[5] == ',' && def[6] == ' ';
    LdMnemonicParsed(def);
    LdRegisterParsed(def);
  }

  /** `LD ` gives the mnemonic literal and a space. */
  lemma LdMnemonicParsed(def: string)
    requires |def| >= 3 && def[0] == 'L' && def[1] == 'D' && def[2] == ' '
    ensures ParseFrom(def, [D], "", []) == ParseFrom(def[3..], [D], "", [Lit("LD"), Space])
  {
    var ops := [D];
    ParseStep(def, ops, "", []);
    assert "" + ['L'] == "L";
    assert def[1..][0] == 'D' && def[1..][1..] == def[2..];
    ParseStep(def[1..], ops, "L", []);
    assert "L" + ['D'] == "LD";
    assert def[2..][0] == ' ' && def[2..][1..] == def[3..];
    ParseStep(def[2..], ops, "LD", []);
    assert Flush([], "LD") + [Space] == [Lit("LD"), Space];
  }

  /** `Rd, ` gives the register literal, the `d` slot, the comma and a space. */
  lemma LdRegisterParsed(def: string)
    requires |def| >= 7 && def[3] == 'R' && def[4] == 'd' && def[5] == ',' && def[6] == ' '
    ensures ParseFrom(def[3..], [D], "", [Lit("LD"), Space]) == ParseFrom(def[7..], [D], "", LdHead)
  {
    var ops := [D];
    assert def[3..][0] == 'R' && def[3..][1..] == def[4..];
    ParseStep(def[3..], ops, "", [Lit("LD"), Space]);
    assert "" + ['R'] == "R";
    assert def[4..][0] == 'd' && def[4..][1..] == def[5..];
    ParseStep(def[4..], ops, "R", [Lit("LD"), Space]);
    assert FindOperand(ops, 'd') == Some(D);
    assert Flush([Lit("LD"), Space], "R") + [Opnd(D)] == [Lit("LD"), Space, Lit("R"), Opnd(D)];
    assert def[5..][0] == ',' && def[5..][1..] == def[6..];
    ParseStep(def[5..], ops, "", [Lit("LD"), Space, Lit("R"), Opnd(D)]);
    assert Flush([Lit("LD"), Space, Lit("R"), Opnd(D)], "") + [Lit([def[5]])] == [Lit("LD"), Space, Lit("R"), Opnd(D), Lit(",")];
    assert def[6..][0] == ' ' && def[6..][1..] == def[7..];
    ParseStep(def[6..], ops, "", [Lit("LD"), Space, Lit("R"), Opnd(D), Lit(",")]);
    assert Flush([Lit("LD"), Space, Lit("R"), Opnd(D), Lit(",")], "") + [Space] == LdHead;
  }

  /** The addressing text `X` of `LD Rd, X`. */
  lemma LdTailParsed(tail: string)
    requires tail == "X"
    ensures ParseFrom(tail, [D], "", LdHead) == Ok(LdHead + [Lit("X")])
  {
    assert tail[1..] == [] && "" + ['X'] == "X";
    ParseStep(tail, [D], "", LdHead);
    assert Missing([D], LdHead + [Lit("X")]) == {} by {
      assert Opnd(D) == (LdHead + [Lit("X")])[3];
    }
  }

  /** The addressing text `X+` of `LD Rd, X+`. */
  lemma LdPostIncTailParsed(tail: string)
    requires tail == "X+"
    ensures ParseFrom(tail, [D], "", LdHead) == Ok(LdHead + [Lit("X"), Lit("+")])
  {
    var ops := [D];
    assert tail[1..][0] == '+' && tail[1..][1..] == [] && "" + ['X'] == "X";
    ParseStep(tail, ops, "", LdHead);
    ParseStep(tail[1..], ops, "X", LdHead);
    assert Flush(LdHead, "X") + [Lit("+")] == LdHead + [Lit("X"), Lit("+")];
    assert Missing([D], LdHead + [Lit("X"), Lit("+")]) == {} by {
      assert Opnd(D) == (LdHead + [Lit("X"), Lit("+")])[3];
    }
  }

  /** The addressing text `-X` of `LD Rd, -X`. */
  lemma LdPreDecTailParsed(tail: string)
    requires tail == "-X"
    ensures ParseFrom(tail, [D], "", LdHead) == Ok(LdHead + [Lit("-"), Lit("X")])
  {
    var ops := [D];
    assert tail[0] == '-' && tail[1..][0] == 'X' && tail[1..][1..] == [] && "" + ['X'] == "X";
    ParseStep(tail, ops, "", LdHead);
    assert Flush(LdHead, "") + [Lit("-")] == LdHead + [Lit("-")];
    ParseStep(tail[1..], ops, "", LdHead + [Lit("-")]);
    assert LdHead + [Lit("-")] + [Lit("X")] == LdHead + [Lit("-"), Lit("X")];
    assert Missing([D], LdHead + [Lit("-"), Lit("X")]) == {} by {
      assert Opnd(D) == (LdHead + [Lit("-"), Lit("X")])[3];
    }
  }

  /** A mnemonic of `n` upper-case letters and a space give its literal and a space token. */
  lemma MnemonicSpaceParsed(def: string, ops: seq<Operand>, n: nat)
    requires 0 < n < |def| && def[n] == ' ' && forall i :: 0 <= i < n ==> IsUpper(def[i])
    ensures ParseFrom(def, ops, "", []) == ParseFrom(def[n + 1..], ops, "", [Lit(def[..n]), Space])
  {
    UpperRunParsed(def, ops, "", [], n);
    assert "" + def[..n] == def[..n];
    assert def[n..][0] == ' ' && def[n..][1..] == def[n + 1..];
    ParseStep(def[n..], ops, def[..n], []);
    assert Flush([], def[..n]) + [Space] == [Lit(def[..n]), Space];
  }

  /** A single operand slot `o` after the mnemonic `m` and a space, as in `BCLR s` and `CALL k`. */
  lemma SlotParsed(tail: string, o: Operand, m: string)
    requires tail == [o.name] && IsLower(o.name)
    ensures ParseFrom(tail, [o], "", [Lit(m), Space]) == ParseFrom([], [o], "", [Lit(m), Space, Opnd(o)])
  {
    assert tail[1..] == [];
    ParseStep(tail, [o], "", [Lit(m), Space]);
    assert FindOperand([o], o.name) == Some(o);
    assert Flush([Lit(m), Space], "") + [Opnd(o)] == [Lit(m), Space, Opnd(o)];
  }

  /** The register operand `Rd` after the mnemonic `m` and a space, as in `POP Rd` and `PUSH Rd`. */
  lemma RegisterParsed(tail: string, m: string)
    requires tail == "Rd"
    ensures ParseFrom(tail, [D], "", [Lit(m), Space]) == ParseFrom([], [D], "", [Lit(m), Space, Lit("R"), Opnd(D)])
  {
    var ops := [D];
    assert tail[1..][0] == 'd' && tail[1..][1..] == [] && "" + ['R'] == "R";
    ParseStep(tail, ops, "", [Lit(m), Space]);
    ParseStep(tail[1..], ops, "R", [Lit(m), Space]);
    assert FindOperand(ops, 'd') == Some(D);
    assert Flush([Lit(m), Space], "R") + [Opnd(D)] == [Lit(m), Space, Lit("R"), Opnd(D)];
  }

  /** The operands `Rd, k` of `LDI`. */
  lemma LdiTailParsed(tail: string)
    requires tail == "Rd, k"
    ensures ParseFrom(tail, [D16, K8], "", [Lit("LDI"), Space])
         == ParseFrom([], [D16, K8], "", [Lit("LDI"), Space, Lit("R"), Opnd(D16), Lit(","), Space, Opnd(K8)])
  {
    assert tail[0] == 'R' && tail[1] == 'd' && tail[2] == ',' && tail[3] == ' ' && tail[4] == 'k';
    assert FindOperand([D16, K8], 'd') == Some(D16);
    RdCommaParsed(tail, [D16, K8], D16, [Lit("LDI"), Space]);
    var head := [Lit("LDI"), Space] + [Lit("R"), Opnd(D16), Lit(","), Space];
    assert tail[4..][1..] == [];
    ParseStep(tail[4..], [D16, K8], "", head);
    assert FindOperand([D16, K8], 'k') == Some(K8);
    assert Flush(head, "") + [Opnd(K8)] == [Lit("LDI"), Space, Lit("R"), Opnd(D16), Lit(","), Space, Opnd(K8)];
  }

  /** `Syntax.parse` reads `ADC Rd, Rr` into the tokens of `Adc`. */
  lemma AdcParsed()
    ensures ParseFrom("ADC Rd, Rr", [D, R], [], []) == Ok(Adc.syntax)
  {
    var def := "ADC Rd, Rr";
    assert IsUpper(def[0]) && IsUpper(def[1]) && IsUpper(def[2]) && def[..3] == "ADC";
    MnemonicSpaceParsed(def, [D, R], 3);
    PairParsed(def[4..], "ADC");
    assert Missing([D, R], Adc.syntax) == {};
  }

  /** `Syntax.parse` reads `ADD Rd, Rr` into the tokens of `Add`. */
  lemma AddParsed()
    ensures ParseFrom("ADD Rd, Rr", [D, R], [], []) == Ok(Add.syntax)
  {
    var def := "ADD Rd, Rr";
    assert IsUpper(def[0]) && IsUpper(def[1]) && IsUpper(def[2]) && def[..3] == "ADD";
    MnemonicSpaceParsed(def, [D, R], 3);
    PairParsed(def[4..], "ADD");
    assert Missing([D, R], Add.syntax) == {};
  }

  /** `Syntax.parse` reads `BCLR s` into the tokens of `Bclr`. */
  lemma BclrParsed()
    ensures ParseFrom("BCLR s", [S], [], []) == Ok(Bclr.syntax)
  {
    var def := "BCLR s";
    assert IsUpper(def[0]) && IsUpper(def[1]) && IsUpper(def[2]) && IsUpper(def[3]) && def[..4] == "BCLR";
    MnemonicSpaceParsed(def, [S], 4);
    SlotParsed(def[5..], S, "BCLR");
    assert Missing([S], Bclr.syntax) == {};
  }

  /** `Syntax.parse` reads `CALL k` into the tokens of `Call`. */
  lemma CallParsed()
    ensures ParseFrom("CALL k", [K22], [], []) == Ok(Call.syntax)
  {
    var def := "CALL k";
    assert IsUpper(def[0]) && IsUpper(def[1]) && IsUpper(def[2]) && IsUpper(def[3]) && def[..4] == "CALL";
    MnemonicSpaceParsed(def, [K22], 4);
    SlotParsed(def[5..], K22, "CALL");
    assert Missing([K22], Call.syntax) == {};
  }

  /** `Syntax.parse` reads `LD Rd, X` into the tokens of `Ld`. */
  lemma LdParsed()
    ensures ParseFrom("LD Rd, X", [D], [], []) == Ok(Ld.syntax)
  {
    LdHeadParsed("LD Rd, X");
    assert LdHead + [Lit("X")] == Ld.syntax;
    LdTailParsed("LD Rd, X"[7..]);
  }

  /** `Syntax.parse` reads `LD Rd, X+` into the tokens of `LdPostInc`. */
  lemma LdPostIncParsed()
    ensures ParseFrom("LD Rd, X+", [D], [], []) == Ok(LdPostInc.syntax)
  {
    LdHeadParsed("LD Rd, X+");
    assert LdHead + [Lit("X"), Lit("+")] == LdPostInc.syntax;
    LdPostIncTailParsed("LD Rd, X+"[7..]);
  }

  /** `Syntax.parse` reads `LD Rd, -X` into the tokens of `LdPreDec`. */
  lemma LdPreDecParsed()
    ensures ParseFrom("LD Rd, -X", [D], [], []) == Ok(LdPreDec.syntax)
  {
    LdHeadParsed("LD Rd, -X");
    assert LdHead + [Lit("-"), Lit("X")] == LdPreDec.syntax;
    LdPreDecTailParsed("LD Rd, -X"[7..]);
  }

  /** `Syntax.parse` reads `LDI Rd, k` into the tokens of `Ldi`. */
  lemma LdiParsed()
    ensures ParseFrom("LDI Rd, k", [D16, K8], [], []) == Ok(Ldi.syntax)
  {
    var def := "LDI Rd, k";
    assert IsUpper(def[0]) && IsUpper(def[1]) && IsUpper(def[2]) && def[..3] == "LDI";
    MnemonicSpaceParsed(def, [D16, K8], 3);
    LdiTailParsed(def[4..]);
    assert Missing([D16, K8], Ldi.syntax) == {};
  }

  /** `Syntax.parse` reads `NOP` into the tokens of `Nop`. */
  lemma NopParsed()
    ensures ParseFrom("NOP", [], [], []) == Ok(Nop.syntax)
  {
    MnemonicParsed("NOP", []);
    assert Flush([], "NOP") == [Lit("NOP")];
    assert Missing([], [Lit("NOP")]) == {};
  }

  /** `Syntax.parse` reads `POP Rd` into the tokens of `Pop`. */
  lemma PopParsed()
    ensures ParseFrom("POP Rd", [D], [], []) == Ok(Pop.syntax)
  {
    var def := "POP Rd";
    assert IsUpper(def[0]) && IsUpper(def[1]) && IsUpper(def[2]) && def[..3] == "POP";
    MnemonicSpaceParsed(def, [D], 3);
    RegisterParsed(def[4..], "POP");
    assert Missing([D], Pop.syntax) == {};
  }

  /** `Syntax.parse` reads `PUSH Rd` into the tokens of `Push`. */
  lemma PushParsed()
    ensures ParseFrom("PUSH Rd", [D], [], []) == Ok(Push.syntax)
  {
    var def := "PUSH Rd";
    assert IsUpper(def[0]) && IsUpper(def[1]) && IsUpper(def[2]) && IsUpper(def[3]) && def[..4] == "PUSH";
    MnemonicSpaceParsed(def, [D], 4);
    RegisterParsed(def[5..], "PUSH");
    assert Missing([D], Push.syntax) == {};
  }

  /** `Syntax.parse` reads `RET` into the tokens of `Ret`. */
  lemma RetParsed()
    ensures ParseFrom("RET", [], [], []) == Ok(Ret.syntax)
  {
    MnemonicParsed("RET", []);
    assert Flush([], "RET") == [Lit("RET")];
    assert Missing([], [Lit("RET")]) == {};
  }

  /*
   * `WellFormed` for opcodes with no, one and two operands, stated over
   * parameters so that each registered pattern's letter counts are
   * established once, in a lemma of their own.
   */
  lemma NoOperands(op: Opcode)
    requires op.operands == [] && |op.pattern| % WordSize == 0
    ensures WellFormed(op)
  {
  }

  lemma OneOperand(op: Opcode, a: Operand, wa: nat)
    requires op.operands == [a] && |op.pattern| % WordSize == 0 && a.name !in "01"
    requires multiset(op.pattern)[a.name] == wa && |Choices(a)| <= Pow2(wa)
    ensures WellFormed(op)
  {
  }

  lemma TwoOperands(op: Opcode, a: Operand, wa: nat, b: Operand, wb: nat)
    requires op.operands == [a, b] && |op.pattern| % WordSize == 0
    requires a.name != b.name && a.name !in "01" && b.name !in "01"
    requires multiset(op.pattern)[a.name] == wa && |Choices(a)| <= Pow2(wa)
    requires multiset(op.pattern)[b.name] == wb && |Choices(b)| <= Pow2(wb)
    ensures WellFormed(op)
  {
  }

  lemma AdcWidthD()
    ensures multiset(Adc.opcode.pattern)['d'] == 5
  {
  }

  lemma AdcWidthR()
    ensures multiset(Adc.opcode.pattern)['r'] == 5
  {
  }

  lemma AdcLength()
    ensures |Adc.opcode.pattern| == 16
  {
  }

  lemma AdcWellFormed()
    ensures WellFormed(Adc.opcode)
  {
    AdcLength();
    AdcWidthD();
    AdcWidthR();
    assert Pow2(5) == 32;
    TwoOperands(Adc.opcode, D, 5, R, 5);
  }

  lemma AdcSlots()
    ensures SlotNames(Adc.syntax) == NamesOf(OperandsOf(Adc))
  {
    var t := Adc.syntax;
    assert t[3] == Opnd(D);
    assert t[7] == Opnd(R);
  }

  lemma AdcCoherent()
    ensures Coherent(Adc)
  {
    AdcWellFormed();
    AdcSlots();
  }

  lemma AdcUnambiguous()
    ensures Unambiguous(Adc.syntax)
  {
    var t := Adc.syntax;
    assert t[0] == Lit("ADC") && t[1] == Space && t[2] == Lit("R") && t[3] == Opnd(D);
    assert t[4] == Lit(",") && t[5] == Space && t[6] == Lit("R") && t[7] == Opnd(R);
  }

  lemma AddWidthD()
    ensures multiset(Add.opcode.pattern)['d'] == 5
  {
  }

  lemma AddWidthR()
    ensures multiset(Add.opcode.pattern)['r'] == 5
  {
  }

  lemma AddLength()
    ensures |Add.opcode.pattern| == 16
  {
  }

  lemma AddWellFormed()
    ensures WellFormed(Add.opcode)
  {
    AddLength();
    AddWidthD();
    AddWidthR();
    assert Pow2(5) == 32;
    TwoOperands(Add.opcode, D, 5, R, 5);
  }

  lemma AddSlots()
    ensures SlotNames(Add.syntax) == NamesOf(OperandsOf(Add))
  {
    var t := Add.syntax;
    assert t[3] == Opnd(D);
    assert t[7] == Opnd(R);
  }

  lemma AddCoherent()
    ensures Coherent(Add)
  {
    AddWellFormed();
    AddSlots();
  }

  lemma AddUnambiguous()
    ensures Unambiguous(Add.syntax)
  {
    var t := Add.syntax;
    assert t[0] == Lit("ADD") && t[1] == Space && t[2] == Lit("R") && t[3] == Opnd(D);
    assert t[4] == Lit(",") && t[5] == Space && t[6] == Lit("R") && t[7] == Opnd(R);
  }

  lemma BclrWidthS()
    ensures multiset(Bclr.opcode.pattern)['s'] == 3
  {
  }

  lemma BclrLength()
    ensures |Bclr.opcode.pattern| == 16
  {
  }

  lemma BclrWellFormed()
    ensures WellFormed(Bclr.opcode)
  {
    BclrLength();
    BclrWidthS();
    assert Pow2(3) == 8;
    OneOperand(Bclr.opcode, S, 3);
  }

  lemma BclrSlots()
    ensures SlotNames(Bclr.syntax) == NamesOf(OperandsOf(Bclr))
  {
    var t := Bclr.syntax;
    assert t[2] == Opnd(S);
  }

  lemma BclrCoherent()
    ensures Coherent(Bclr)
  {
    BclrWellFormed();
    BclrSlots();
  }

  lemma BclrUnambiguous()
    ensures Unambiguous(Bclr.syntax)
  {
    var t := Bclr.syntax;
    assert t[0] == Lit("BCLR") && t[1] == Space && t[2] == Opnd(S);
  }

  lemma CallWidthK()
    ensures multiset(Call.opcode.pattern)['k'] == 22
  {
  }

  lemma CallRange()
    ensures |Choices(K22)| <= Pow2(22)
  {
    Pow2Word();
    Pow2Monotone(16, 22);
  }

  lemma CallLength()
    ensures |Call.opcode.pattern| == 32
  {
  }

  lemma CallWellFormed()
    ensures WellFormed(Call.opcode)
  {
    CallLength();
    CallWidthK();
    CallRange();
    OneOperand(Call.opcode, K22, 22);
  }

  lemma CallSlots()
    ensures SlotNames(Call.syntax) == NamesOf(OperandsOf(Call))
  {
    var t := Call.syntax;
    assert t[2] == Opnd(K22);
  }

  lemma CallCoherent()
    ensures Coherent(Call)
  {
    CallWellFormed();
    CallSlots();
  }

  lemma CallUnambiguous()
    ensures Unambiguous(Call.syntax)
  {
    var t := Call.syntax;
    assert t[0] == Lit("CALL") && t[1] == Space && t[2] == Opnd(K22);
  }

  lemma LdWidthD()
    ensures multiset(Ld.opcode.pattern)['d'] == 5
  {
  }

  lemma LdLength()
    ensures |Ld.opcode.pattern| == 16
  {
  }

  lemma LdWellFormed()
    ensures WellFormed(Ld.opcode)
  {
    LdLength();
    LdWidthD();
    assert Pow2(5) == 32;
    OneOperand(Ld.opcode, D, 5);
  }

  lemma LdSlots()
    ensures SlotNames(Ld.syntax) == NamesOf(OperandsOf(Ld))
  {
    var t := Ld.syntax;
    assert t[3] == Opnd(D);
  }

  lemma LdCoherent()
    ensures Coherent(Ld)
  {
    LdWellFormed();
    LdSlots();
  }

  lemma LdUnambiguous()
    ensures Unambiguous(Ld.syntax)
  {
    var t := Ld.syntax;
    assert t[0] == Lit("LD") && t[1] == Space && t[2] == Lit("R") && t[3] == Opnd(D);
    assert t[4] == Lit(",") && t[5] == Space && t[6] == Lit("X");
  }

  lemma LdPostIncWidthD()
    ensures multiset(LdPostInc.opcode.pattern)['d'] == 5
  {
  }

  lemma LdPostIncLength()
    ensures |LdPostInc.opcode.pattern| == 16
  {
  }

  lemma LdPostIncWellFormed()
    ensures WellFormed(LdPostInc.opcode)
  {
    LdPostIncLength();
    LdPostIncWidthD();
    assert Pow2(5) == 32;
    OneOperand(LdPostInc.opcode, D, 5);
  }

  lemma LdPostIncSlots()
    ensures SlotNames(LdPostInc.syntax) == NamesOf(OperandsOf(LdPostInc))
  {
    var t := LdPostInc.syntax;
    assert t[3] == Opnd(D);
  }

  lemma LdPostIncCoherent()
    ensures Coherent(LdPostInc)
  {
    LdPostIncWellFormed();
    LdPostIncSlots();
  }

  lemma LdPostIncUnambiguous()
    ensures Unambiguous(LdPostInc.syntax)
  {
    var t := LdPostInc.syntax;
    assert t[0] == Lit("LD") && t[1] == Space && t[2] == Lit("R") && t[3] == Opnd(D);
    assert t[4] == Lit(",") && t[5] == Space && t[6] == Lit("X") && t[7] == Lit("+");
  }

  lemma LdPreDecWidthD()
    ensures multiset(LdPreDec.opcode.pattern)['d'] == 5
  {
  }

  lemma LdPreDecLength()
    ensures |LdPreDec.opcode.pattern| == 16
  {
  }

  lemma LdPreDecWellFormed()
    ensures WellFormed(LdPreDec.opcode)
  {
    LdPreDecLength();
    LdPreDecWidthD();
    assert Pow2(5) == 32;
    OneOperand(LdPreDec.opcode, D, 5);
  }

  lemma LdPreDecSlots()
    ensures SlotNames(LdPreDec.syntax) == NamesOf(OperandsOf(LdPreDec))
  {
    var t := LdPreDec.syntax;
    assert t[3] == Opnd(D);
  }

  lemma LdPreDecCoherent()
    ensures Coherent(LdPreDec)
  {
    LdPreDecWellFormed();
    LdPreDecSlots();
  }

  lemma LdPreDecUnambiguous()
    ensures Unambiguous(LdPreDec.syntax)
  {
    var t := LdPreDec.syntax;
    assert t[0] == Lit("LD") && t[1] == Space && t[2] == Lit("R") && t[3] == Opnd(D);
    assert t[4] == Lit(",") && t[5] == Space && t[6] == Lit("-") && t[7] == Lit("X");
  }

  lemma LdiWidthD()
    ensures multiset(Ldi.opcode.pattern)['d'] == 4
  {
  }

  lemma LdiWidthK()
    ensures multiset(Ldi.opcode.pattern)['k'] == 8
  {
  }

  lemma LdiLength()
    ensures |Ldi.opcode.pattern| == 16
  {
  }

  lemma LdiWellFormed()
    ensures WellFormed(Ldi.opcode)
  {
    LdiLength();
    LdiWidthD();
    LdiWidthK();
    assert Pow2(4) == 16;
    assert Pow2(8) == 256;
    TwoOperands(Ldi.opcode, D16, 4, K8, 8);
  }

  lemma LdiSlots()
    ensures SlotNames(Ldi.syntax) == NamesOf(OperandsOf(Ldi))
  {
    var t := Ldi.syntax;
    assert t[3] == Opnd(D16);
    assert t[6] == Opnd(K8);
  }

  lemma LdiCoherent()
    ensures Coherent(Ldi)
  {
    LdiWellFormed();
    LdiSlots();
  }

  lemma LdiUnambiguous()
    ensures Unambiguous(Ldi.syntax)
  {
    var t := Ldi.syntax;
    assert t[0] == Lit("LDI") && t[1] == Space && t[2] == Lit("R") && t[3] == Opnd(D16);
    assert t[4] == Lit(",") && t[5] == Space && t[6] == Opnd(K8);
  }

  lemma NopLength()
    ensures |Nop.opcode.pattern| == 16
  {
  }

  lemma NopWellFormed()
    ensures WellFormed(Nop.opcode)
  {
    NopLength();
    NoOperands(Nop.opcode);
  }

  lemma NopSlots()
    ensures SlotNames(Nop.syntax) == NamesOf(OperandsOf(Nop))
  {
    var t := Nop.syntax;
  }

  lemma NopCoherent()
    ensures Coherent(Nop)
  {
    NopWellFormed();
    NopSlots();
  }

  lemma NopUnambiguous()
    ensures Unambiguous(Nop.syntax)
  {
    var t := Nop.syntax;
    assert t[0] == Lit("NOP");
  }

  lemma PopWidthD()
    ensures multiset(Pop.opcode.pattern)['d'] == 5
  {
  }

  lemma PopLength()
    ensures |Pop.opcode.pattern| == 16
  {
  }

  lemma PopWellFormed()
    ensures WellFormed(Pop.opcode)
  {
    PopLength();
    PopWidthD();
    assert Pow2(5) == 32;
    OneOperand(Pop.opcode, D, 5);
  }

  lemma PopSlots()
    ensures SlotNames(Pop.syntax) == NamesOf(OperandsOf(Pop))
  {
    var t := Pop.syntax;
    assert t[3] == Opnd(D);
  }

  lemma PopCoherent()
    ensures Coherent(Pop)
  {
    PopWellFormed();
    PopSlots();
  }

  lemma PopUnambiguous()
    ensures Unambiguous(Pop.syntax)
  {
    var t := Pop.syntax;
    assert t[0] == Lit("POP") && t[1] == Space && t[2] == Lit("R") && t[3] == Opnd(D);
  }

  lemma PushWidthD()
    ensures multiset(Push.opcode.pattern)['d'] == 5
  {
  }

  lemma PushLength()
    ensures |Push.opcode.pattern| == 16
  {
  }

  lemma PushWellFormed()
    ensures WellFormed(Push.opcode)
  {
    PushLength();
    PushWidthD();
    assert Pow2(5) == 32;
    OneOperand(Push.opcode, D, 5);
  }

  lemma PushSlots()
    ensures SlotNames(Push.syntax) == NamesOf(OperandsOf(Push))
  {
    var t := Push.syntax;
    assert t[3] == Opnd(D);
  }

  lemma PushCoherent()
    ensures Coherent(Push)
  {
    PushWellFormed();
    PushSlots();
  }

  lemma PushUnambiguous()
    ensures Unambiguous(Push.syntax)
  {
    var t := Push.syntax;
    assert t[0] == Lit("PUSH") && t[1] == Space && t[2] == Lit("R") && t[3] == Opnd(D);
  }

  lemma RetLength()
    ensures |Ret.opcode.pattern| == 16
  {
  }

  lemma RetWellFormed()
    ensures WellFormed(Ret.opcode)
  {
    RetLength();
    NoOperands(Ret.opcode);
  }

  lemma RetSlots()
    ensures SlotNames(Ret.syntax) == NamesOf(OperandsOf(Ret))
  {
    var t := Ret.syntax;
  }

  lemma RetCoherent()
    ensures Coherent(Ret)
  {
    RetWellFormed();
    RetSlots();
  }

  lemma RetUnambiguous()
    ensures Unambiguous(Ret.syntax)
  {
    var t := Ret.syntax;
    assert t[0] == Lit("RET");
  }

  /** Every registered instruction packs and reads back faithfully. */
  lemma RegisteredCoherent(k: Kind)
    ensures Coherent(Registered(k)) && Unambiguous(Registered(k).syntax)
  {
    match k
    case ADC => AdcCoherent(); AdcUnambiguous();
    case ADD => AddCoherent(); AddUnambiguous();
    case BCLR => BclrCoherent(); BclrUnambiguous();
    case CALL => CallCoherent(); CallUnambiguous();
    case LD => LdCoherent(); LdUnambiguous();
    case LDPostInc => LdPostIncCoherent(); LdPostIncUnambiguous();
    case LDPreDec => LdPreDecCoherent(); LdPreDecUnambiguous();
    case LDI => LdiCoherent(); LdiUnambiguous();
    case NOP => NopCoherent(); NopUnambiguous();
    case POP => PopCoherent(); PopUnambiguous();
    case PUSH => PushCoherent(); PushUnambiguous();
    case RET => RetCoherent(); RetUnambiguous();
  }

  /** CALL is the only registered instruction two words long. */
  lemma Widths(i: nat)
    requires i < |Default|
    ensures NWords(Default[i].opcode) == if i == 3 then 2 else 1
  {
  }

  lemma AdcExcludes(k: Kind, word: nat)
    requires k != ADC && k != CALL
    ensures !(Agrees(Adc.opcode, word) && Agrees(Registered(k).opcode, word))
  {
    match k
    case ADD => Exclusive(Adc.opcode, Add.opcode, 12, word);
    case BCLR => Exclusive(Adc.opcode, Bclr.opcode, 11, word);
    case LD => Exclusive(Adc.opcode, Ld.opcode, 10, word);
    case LDPostInc => Exclusive(Adc.opcode, LdPostInc.opcode, 10, word);
    case LDPreDec => Exclusive(Adc.opcode, LdPreDec.opcode, 10, word);
    case LDI => Exclusive(Adc.opcode, Ldi.opcode, 12, word);
    case NOP => Exclusive(Adc.opcode, Nop.opcode, 10, word);
    case POP => Exclusive(Adc.opcode, Pop.opcode, 10, word);
    case PUSH => Exclusive(Adc.opcode, Push.opcode, 10, word);
    case RET => Exclusive(Adc.opcode, Ret.opcode, 11, word);
  }

  lemma AddExcludes(k: Kind, word: nat)
    requires k != ADD && k != CALL
    ensures !(Agrees(Add.opcode, word) && Agrees(Registered(k).opcode, word))
  {
    match k
    case ADC => Exclusive(Add.opcode, Adc.opcode, 12, word);
    case BCLR => Exclusive(Add.opcode, Bclr.opcode, 11, word);
    case LD => Exclusive(Add.opcode, Ld.opcode, 10, word);
    case LDPostInc => Exclusive(Add.opcode, LdPostInc.opcode, 10, word);
    case LDPreDec => Exclusive(Add.opcode, LdPreDec.opcode, 10, word);
    case LDI => Exclusive(Add.opcode, Ldi.opcode, 13, word);
    case NOP => Exclusive(Add.opcode, Nop.opcode, 10, word);
    case POP => Exclusive(Add.opcode, Pop.opcode, 10, word);
    case PUSH => Exclusive(Add.opcode, Push.opcode, 10, word);
    case RET => Exclusive(Add.opcode, Ret.opcode, 11, word);
  }

  lemma BclrExcludes(k: Kind, word: nat)
    requires k != BCLR && k != CALL
    ensures !(Agrees(Bclr.opcode, word) && Agrees(Registered(k).opcode, word))
  {
    match k
    case ADC => Exclusive(Bclr.opcode, Adc.opcode, 11, word);
    case ADD => Exclusive(Bclr.opcode, Add.opcode, 11, word);
    case LD => Exclusive(Bclr.opcode, Ld.opcode, 2, word);
    case LDPostInc => Exclusive(Bclr.opcode, LdPostInc.opcode, 0, word);
    case LDPreDec => Exclusive(Bclr.opcode, LdPreDec.opcode, 1, word);
    case LDI => Exclusive(Bclr.opcode, Ldi.opcode, 12, word);
    case NOP => Exclusive(Bclr.opcode, Nop.opcode, 3, word);
    case POP => Exclusive(Bclr.opcode, Pop.opcode, 0, word);
    case PUSH => Exclusive(Bclr.opcode, Push.opcode, 0, word);
    case RET => Exclusive(Bclr.opcode, Ret.opcode, 7, word);
  }

  lemma LdExcludes(k: Kind, word: nat)
    requires k != LD && k != CALL
    ensures !(Agrees(Ld.opcode, word) && Agrees(Registered(k).opcode, word))
  {
    match k
    case ADC => Exclusive(Ld.opcode, Adc.opcode, 10, word);
    case ADD => Exclusive(Ld.opcode, Add.opcode, 10, word);
    case BCLR => Exclusive(Ld.opcode, Bclr.opcode, 2, word);
    case LDPostInc => Exclusive(Ld.opcode, LdPostInc.opcode, 0, word);
    case LDPreDec => Exclusive(Ld.opcode, LdPreDec.opcode, 1, word);
    case LDI => Exclusive(Ld.opcode, Ldi.opcode, 12, word);
    case NOP => Exclusive(Ld.opcode, Nop.opcode, 2, word);
    case POP => Exclusive(Ld.opcode, Pop.opcode, 0, word);
    case PUSH => Exclusive(Ld.opcode, Push.opcode, 0, word);
    case RET => Exclusive(Ld.opcode, Ret.opcode, 2, word);
  }

  lemma LdPostIncExcludes(k: Kind, word: nat)
    requires k != LDPostInc && k != CALL
    ensures !(Agrees(LdPostInc.opcode, word) && Agrees(Registered(k).opcode, word))
  {
    match k
    case ADC => Exclusive(LdPostInc.opcode, Adc.opcode, 10, word);
    case ADD => Exclusive(LdPostInc.opcode, Add.opcode, 10, word);
    case BCLR => Exclusive(LdPostInc.opcode, Bclr.opcode, 0, word);
    case LD => Exclusive(LdPostInc.opcode, Ld.opcode, 0, word);
    case LDPreDec => Exclusive(LdPostInc.opcode, LdPreDec.opcode, 0, word);
    case LDI => Exclusive(LdPostInc.opcode, Ldi.opcode, 12, word);
    case NOP => Exclusive(LdPostInc.opcode, Nop.opcode, 0, word);
    case POP => Exclusive(LdPostInc.opcode, Pop.opcode, 1, word);
    case PUSH => Exclusive(LdPostInc.opcode, Push.opcode, 1, word);
    case RET => Exclusive(LdPostInc.opcode, Ret.opcode, 0, word);
  }

  lemma LdPreDecExcludes(k: Kind, word: nat)
    requires k != LDPreDec && k != CALL
    ensures !(Agrees(LdPreDec.opcode, word) && Agrees(Registered(k).opcode, word))
  {
    match k
    case ADC => Exclusive(LdPreDec.opcode, Adc.opcode, 10, word);
    case ADD => Exclusive(LdPreDec.opcode, Add.opcode, 10, word);
    case BCLR => Exclusive(LdPreDec.opcode, Bclr.opcode, 1, word);
    case LD => Exclusive(LdPreDec.opcode, Ld.opcode, 1, word);
    case LDPostInc => Exclusive(LdPreDec.opcode, LdPostInc.opcode, 0, word);
    case LDI => Exclusive(LdPreDec.opcode, Ldi.opcode, 12, word);
    case NOP => Exclusive(LdPreDec.opcode, Nop.opcode, 1, word);
    case POP => Exclusive(LdPreDec.opcode, Pop.opcode, 0, word);
    case PUSH => Exclusive(LdPreDec.opcode, Push.opcode, 0, word);
    case RET => Exclusive(LdPreDec.opcode, Ret.opcode, 1, word);
  }

  lemma LdiExcludes(k: Kind, word: nat)
    requires k != LDI && k != CALL
    ensures !(Agrees(Ldi.opcode, word) && Agrees(Registered(k).opcode, word))
  {
    match k
    case ADC => Exclusive(Ldi.opcode, Adc.opcode, 12, word);
    case ADD => Exclusive(Ldi.opcode, Add.opcode, 13, word);
    case BCLR => Exclusive(Ldi.opcode, Bclr.opcode, 12, word);
    case LD => Exclusive(Ldi.opcode, Ld.opcode, 12, word);
    case LDPostInc => Exclusive(Ldi.opcode, LdPostInc.opcode, 12, word);
    case LDPreDec => Exclusive(Ldi.opcode, LdPreDec.opcode, 12, word);
    case NOP => Exclusive(Ldi.opcode, Nop.opcode, 13, word);
    case POP => Exclusive(Ldi.opcode, Pop.opcode, 12, word);
    case PUSH => Exclusive(Ldi.opcode, Push.opcode, 12, word);
    case RET => Exclusive(Ldi.opcode, Ret.opcode, 12, word);
  }

  lemma NopExcludes(k: Kind, word: nat)
    requires k != NOP && k != CALL
    ensures !(Agrees(Nop.opcode, word) && Agrees(Registered(k).opcode, word))
  {
    match k
    case ADC => Exclusive(Nop.opcode, Adc.opcode, 10, word);
    case ADD => Exclusive(Nop.opcode, Add.opcode, 10, word);
    case BCLR => Exclusive(Nop.opcode, Bclr.opcode, 3, word);
    case LD => Exclusive(Nop.opcode, Ld.opcode, 2, word);
    case LDPostInc => Exclusive(Nop.opcode, LdPostInc.opcode, 0, word);
    case LDPreDec => Exclusive(Nop.opcode, LdPreDec.opcode, 1, word);
    case LDI => Exclusive(Nop.opcode, Ldi.opcode, 13, word);
    case POP => Exclusive(Nop.opcode, Pop.opcode, 0, word);
    case PUSH => Exclusive(Nop.opcode, Push.opcode, 0, word);
    case RET => Exclusive(Nop.opcode, Ret.opcode, 3, word);
  }

  lemma PopExcludes(k: Kind, word: nat)
    requires k != POP && k != CALL
    ensures !(Agrees(Pop.opcode, word) && Agrees(Registered(k).opcode, word))
  {
    match k
    case ADC => Exclusive(Pop.opcode, Adc.opcode, 10, word);
    case ADD => Exclusive(Pop.opcode, Add.opcode, 10, word);
    case BCLR => Exclusive(Pop.opcode, Bclr.opcode, 0, word);
    case LD => Exclusive(Pop.opcode, Ld.opcode, 0, word);
    case LDPostInc => Exclusive(Pop.opcode, LdPostInc.opcode, 1, word);
    case LDPreDec => Exclusive(Pop.opcode, LdPreDec.opcode, 0, word);
    case LDI => Exclusive(Pop.opcode, Ldi.opcode, 12, word);
    case NOP => Exclusive(Pop.opcode, Nop.opcode, 0, word);
    case PUSH => Exclusive(Pop.opcode, Push.opcode, 9, word);
    case RET => Exclusive(Pop.opcode, Ret.opcode, 0, word);
  }

  lemma PushExcludes(k: Kind, word: nat)
    requires k != PUSH && k != CALL
    ensures !(Agrees(Push.opcode, word) && Agrees(Registered(k).opcode, word))
  {
    match k
    case ADC => Exclusive(Push.opcode, Adc.opcode, 10, word);
    case ADD => Exclusive(Push.opcode, Add.opcode, 10, word);
    case BCLR => Exclusive(Push.opcode, Bclr.opcode, 0, word);
    case LD => Exclusive(Push.opcode, Ld.opcode, 0, word);
    case LDPostInc => Exclusive(Push.opcode, LdPostInc.opcode, 1, word);
    case LDPreDec => Exclusive(Push.opcode, LdPreDec.opcode, 0, word);
    case LDI => Exclusive(Push.opcode, Ldi.opcode, 12, word);
    case NOP => Exclusive(Push.opcode, Nop.opcode, 0, word);
    case POP => Exclusive(Push.opcode, Pop.opcode, 9, word);
    case RET => Exclusive(Push.opcode, Ret.opcode, 0, word);
  }

  lemma RetExcludes(k: Kind, word: nat)
    requires k != RET && k != CALL
    ensures !(Agrees(Ret.opcode, word) && Agrees(Registered(k).opcode, word))
  {
    match k
    case ADC => Exclusive(Ret.opcode, Adc.opcode, 11, word);
    case ADD => Exclusive(Ret.opcode, Add.opcode, 11, word);
    case BCLR => Exclusive(Ret.opcode, Bclr.opcode, 7, word);
    case LD => Exclusive(Ret.opcode, Ld.opcode, 2, word);
    case LDPostInc => Exclusive(Ret.opcode, LdPostInc.opcode, 0, word);
    case LDPreDec => Exclusive(Ret.opcode, LdPreDec.opcode, 1, word);
    case LDI => Exclusive(Ret.opcode, Ldi.opcode, 12, word);
    case NOP => Exclusive(Ret.opcode, Nop.opcode, 3, word);
    case POP => Exclusive(Ret.opcode, Pop.opcode, 0, word);
    case PUSH => Exclusive(Ret.opcode, Push.opcode, 0, word);
  }

  /** No word fits two different one-word instructions of the default set. */
  lemma DistinctAgrees(k1: Kind, k2: Kind, word: nat)
    requires k1 != k2 && k1 != CALL && k2 != CALL
    ensures !(Agrees(Registered(k1).opcode, word) && Agrees(Registered(k2).opcode, word))
  {
    match k1
    case ADC => AdcExcludes(k2, word);
    case ADD => AddExcludes(k2, word);
    case BCLR => BclrExcludes(k2, word);
    case LD => LdExcludes(k2, word);
    case LDPostInc => LdPostIncExcludes(k2, word);
    case LDPreDec => LdPreDecExcludes(k2, word);
    case LDI => LdiExcludes(k2, word);
    case NOP => NopExcludes(k2, word);
    case POP => PopExcludes(k2, word);
    case PUSH => PushExcludes(k2, word);
    case RET => RetExcludes(k2, word);
  }

  /**
   * A two-word opcode whose bit `j + 16` clashes with bit `j` of `op`: the
   * first word of any pair fitting the long opcode does not fit `op`.
   */
  lemma HighBitClash(op: Opcode, long: Opcode, a: nat, b: nat, j: nat)
    requires b < WordBase && Agrees(long, Join([a, b]))
    requires j < WordSize && j < |op.pattern| && j + WordSize < |long.pattern|
    requires At(op.pattern, j) in "01" && At(long.pattern, j + WordSize) in "01"
    requires At(op.pattern, j) != At(long.pattern, j + WordSize)
    ensures !Agrees(op, a)
  {
    var x := Join([a, b]);
    JoinShort(a, b);
    Pow2Word();
    DivModUnique(x, WordBase, a, b);
    BitShiftRight(x, WordSize, j, a);
    assert Bit(x, j + WordSize) <==> At(long.pattern, j + WordSize) == '1';
  }

  lemma CallBit17()
    ensures At(Call.opcode.pattern, 17) == '1'
  {
  }

  lemma CallBit25()
    ensures At(Call.opcode.pattern, 25) == '0'
  {
  }

  lemma CallBit26()
    ensures At(Call.opcode.pattern, 26) == '1'
  {
  }

  lemma CallBit27()
    ensures At(Call.opcode.pattern, 27) == '0'
  {
  }

  lemma CallBit28()
    ensures At(Call.opcode.pattern, 28) == '1'
  {
  }

  lemma AdcBit11()
    ensures At(Adc.opcode.pattern, 11) == '1'
  {
  }

  lemma AdcNotCallHead(a: nat, b: nat)
    requires b < WordBase && Agrees(Call.opcode, Join([a, b]))
    ensures !Agrees(Adc.opcode, a)
  {
    AdcBit11();
    CallBit27();
    HighBitClash(Adc.opcode, Call.opcode, a, b, 11);
  }

  lemma AddBit11()
    ensures At(Add.opcode.pattern, 11) == '1'
  {
  }

  lemma AddNotCallHead(a: nat, b: nat)
    requires b < WordBase && Agrees(Call.opcode, Join([a, b]))
    ensures !Agrees(Add.opcode, a)
  {
    AddBit11();
    CallBit27();
    HighBitClash(Add.opcode, Call.opcode, a, b, 11);
  }

  lemma BclrBit1()
    ensures At(Bclr.opcode.pattern, 1) == '0'
  {
  }

  lemma BclrNotCallHead(a: nat, b: nat)
    requires b < WordBase && Agrees(Call.opcode, Join([a, b]))
    ensures !Agrees(Bclr.opcode, a)
  {
    BclrBit1();
    CallBit17();
    HighBitClash(Bclr.opcode, Call.opcode, a, b, 1);
  }

  lemma LdBit1()
    ensures At(Ld.opcode.pattern, 1) == '0'
  {
  }

  lemma LdNotCallHead(a: nat, b: nat)
    requires b < WordBase && Agrees(Call.opcode, Join([a, b]))
    ensures !Agrees(Ld.opcode, a)
  {
    LdBit1();
    CallBit17();
    HighBitClash(Ld.opcode, Call.opcode, a, b, 1);
  }

  lemma LdPostIncBit1()
    ensures At(LdPostInc.opcode.pattern, 1) == '0'
  {
  }

  lemma LdPostIncNotCallHead(a: nat, b: nat)
    requires b < WordBase && Agrees(Call.opcode, Join([a, b]))
    ensures !Agrees(LdPostInc.opcode, a)
  {
    LdPostIncBit1();
    CallBit17();
    HighBitClash(LdPostInc.opcode, Call.opcode, a, b, 1);
  }

  lemma LdPreDecBit10()
    ensures At(LdPreDec.opcode.pattern, 10) == '0'
  {
  }

  lemma LdPreDecNotCallHead(a: nat, b: nat)
    requires b < WordBase && Agrees(Call.opcode, Join([a, b]))
    ensures !Agrees(LdPreDec.opcode, a)
  {
    LdPreDecBit10();
    CallBit26();
    HighBitClash(LdPreDec.opcode, Call.opcode, a, b, 10);
  }

  lemma LdiBit12()
    ensures At(Ldi.opcode.pattern, 12) == '0'
  {
  }

  lemma LdiNotCallHead(a: nat, b: nat)
    requires b < WordBase && Agrees(Call.opcode, Join([a, b]))
    ensures !Agrees(Ldi.opcode, a)
  {
    LdiBit12();
    CallBit28();
    HighBitClash(Ldi.opcode, Call.opcode, a, b, 12);
  }

  lemma NopBit1()
    ensures At(Nop.opcode.pattern, 1) == '0'
  {
  }

  lemma NopNotCallHead(a: nat, b: nat)
    requires b < WordBase && Agrees(Call.opcode, Join([a, b]))
    ensures !Agrees(Nop.opcode, a)
  {
    NopBit1();
    CallBit17();
    HighBitClash(Nop.opcode, Call.opcode, a, b, 1);
  }

  lemma PopBit10()
    ensures At(Pop.opcode.pattern, 10) == '0'
  {
  }

  lemma PopNotCallHead(a: nat, b: nat)
    requires b < WordBase && Agrees(Call.opcode, Join([a, b]))
    ensures !Agrees(Pop.opcode, a)
  {
    PopBit10();
    CallBit26();
    HighBitClash(Pop.opcode, Call.opcode, a, b, 10);
  }

  lemma PushBit9()
    ensures At(Push.opcode.pattern, 9) == '1'
  {
  }

  lemma PushNotCallHead(a: nat, b: nat)
    requires b < WordBase && Agrees(Call.opcode, Join([a, b]))
    ensures !Agrees(Push.opcode, a)
  {
    PushBit9();
    CallBit25();
    HighBitClash(Push.opcode, Call.opcode, a, b, 9);
  }

  lemma RetBit1()
    ensures At(Ret.opcode.pattern, 1) == '0'
  {
  }

  lemma RetNotCallHead(a: nat, b: nat)
    requires b < WordBase && Agrees(Call.opcode, Join([a, b]))
    ensures !Agrees(Ret.opcode, a)
  {
    RetBit1();
    CallBit17();
    HighBitClash(Ret.opcode, Call.opcode, a, b, 1);
  }

  /** The first word of a CALL fits none of the one-word instructions. */
  lemma CallFirstWord(k: Kind, a: nat, b: nat)
    requires k != CALL && b < WordBase
    requires Agrees(Call.opcode, Join([a, b]))
    ensures !Agrees(Registered(k).opcode, a)
  {
    match k
    case ADC => AdcNotCallHead(a, b);
    case ADD => AddNotCallHead(a, b);
    case BCLR => BclrNotCallHead(a, b);
    case LD => LdNotCallHead(a, b);
    case LDPostInc => LdPostIncNotCallHead(a, b);
    case LDPreDec => LdPreDecNotCallHead(a, b);
    case LDI => LdiNotCallHead(a, b);
    case NOP => NopNotCallHead(a, b);
    case POP => PopNotCallHead(a, b);
    case PUSH => PushNotCallHead(a, b);
    case RET => RetNotCallHead(a, b);
  }
}
