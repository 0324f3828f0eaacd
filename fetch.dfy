/**
 * The fetch half of `Machine.step` (`avrzero/machine.py`): which instruction
 * the words at PC select, and from which words its operands are read.
 *
 * `SourceFetch` is the fetch as the method does it: the one word at PC is
 * looked up with `by_opcode`, and if nothing fits, the two words at PC and
 * PC + 1.  `by_opcode` tests every instruction against the joined number,
 * whatever its length, so a one-word instruction is tested against the low
 * sixteen bits of a two-word fetch, which are the second word.
 * `Fetch` is the sized lookup the method evidently means: a fetch of `n`
 * words selects only among the instructions that are `n` words long.  Past
 * the end of the flash both raise (see `Machines`).
 */
module Fetching {
  import opened Wrappers
  import opened Bits
  import opened Codec
  import opened Operands
  import opened Opcodes
  import opened Instructions
  import opened Registry

  /** `flash[lo:hi]`: Python's slice stops at the end of the list. */
  function Slice(flash: seq<nat>, lo: nat, hi: nat): (r: seq<nat>)
    requires lo <= hi
    ensures |r| == if hi <= |flash| then hi - lo else if lo <= |flash| then |flash| - lo else 0
    ensures forall i :: 0 <= i < |r| ==> r[i] == flash[lo + i]
  {
    if lo >= |flash| then [] else flash[lo..if hi <= |flash| then hi else |flash|]
  }

  /** What a fetch selects: nothing, an instruction and the words it came from, or the end of the flash. */
  datatype Fetched = PastEnd | Unmatched | Found(ins: Instruction, codes: seq<nat>)

  /**
   * `step`'s fetch as written: the one-word slice at `pc`, and failing that
   * the two-word slice, each looked up with `by_opcode`.
   */
  function SourceFetch(list: seq<Instruction>, flash: seq<nat>, pc: nat): (r: Fetched)
    ensures r.Found? ==> (r.ins in list && Agrees(r.ins.opcode, Join(r.codes))
      && (r.codes == Slice(flash, pc, pc + 1) || r.codes == Slice(flash, pc, pc + 2)))
    ensures r.Unmatched? ==> forall j :: 0 <= j < |list| ==>
      !Agrees(list[j].opcode, Join(Slice(flash, pc, pc + 1))) && !Agrees(list[j].opcode, Join(Slice(flash, pc, pc + 2)))
    ensures !r.PastEnd?
  {
    var one := Slice(flash, pc, pc + 1);
    var two := Slice(flash, pc, pc + 2);
    LookupAgrees(list, one);
    LookupAgrees(list, two);
    match Lookup(list, one)
    case Some(ins) => Found(ins, one)
    case None =>
      match Lookup(list, two)
      case Some(ins) => Found(ins, two)
      case None => Unmatched
  }

  /** What `by_opcode` returns, in terms of `Agrees`. */
  lemma LookupAgrees(list: seq<Instruction>, codes: seq<nat>)
    ensures var r := Lookup(list, codes);
      (r.Some? ==> r.value in list && Agrees(r.value.opcode, Join(codes)))
      && (r.None? ==> forall j :: 0 <= j < |list| ==> !Agrees(list[j].opcode, Join(codes)))
  {
    forall j | 0 <= j < |list| {
      FitsAgrees(list[j].opcode, Join(codes));
    }
  }

  /**
   * An instruction as long as `codes` whose fixed bits the words carry
   * (`Agrees`, which is the mask test of `by_opcode` by `FitsAgrees`).
   */
  predicate SizedFits(ins: Instruction, codes: seq<nat>)
  {
    NWords(ins.opcode) == |codes| && Agrees(ins.opcode, Join(codes))
  }

  /** The position of the first instruction from `k` on that `SizedFits` the words. */
  function SizedFitFrom(list: seq<Instruction>, codes: seq<nat>, k: nat): (r: Option<nat>)
    requires k <= |list|
    ensures r.Some? ==> (k <= r.value < |list| && SizedFits(list[r.value], codes)
      && forall j :: k <= j < r.value ==> !SizedFits(list[j], codes))
    ensures r.None? ==> forall j :: k <= j < |list| ==> !SizedFits(list[j], codes)
    decreases |list| - k
  {
    if k == |list| then None
    else if SizedFits(list[k], codes) then Some(k)
    else SizedFitFrom(list, codes, k + 1)
  }

  /** The position of the first instruction that `SizedFits` the words. */
  function SizedFit(list: seq<Instruction>, codes: seq<nat>): (r: Option<nat>)
    ensures r.Some? ==> (r.value < |list| && SizedFits(list[r.value], codes)
      && forall j :: 0 <= j < r.value ==> !SizedFits(list[j], codes))
    ensures r.None? ==> forall j :: 0 <= j < |list| ==> !SizedFits(list[j], codes)
  {
    SizedFitFrom(list, codes, 0)
  }

  /**
   * The fetch with sized lookups: the one word at `pc` among one-word
   * instructions, and failing that the two words at `pc` among two-word
   * instructions.  Fetching at or past the end of the flash is `PastEnd`.
   */
  function Fetch(list: seq<Instruction>, flash: seq<nat>, pc: nat): (r: Fetched)
    ensures r.PastEnd? <==> pc >= |flash|
    ensures r.Found? ==> (r.ins in list && pc + |r.codes| <= |flash| && r.codes == flash[pc..pc + |r.codes|]
      && SizedFits(r.ins, r.codes))
  {
    if pc >= |flash| then PastEnd
    else
      var one := [flash[pc]];
      assert one == flash[pc..pc + 1];
      match SizedFit(list, one)
      case Some(k) => Found(list[k], one)
      case None =>
        if pc + 2 <= |flash| then
          var two := flash[pc..pc + 2];
          match SizedFit(list, two)
          case Some(k) => Found(list[k], two)
          case None => Unmatched
        else Unmatched
  }

  // ---------------------------------------------------------------------------
  // The default set: what its encodings fetch as
  // ---------------------------------------------------------------------------

  /** Where each action sits in `InstructionSet.default`. */
  function Position(k: Kind): (i: nat)
    ensures i < |Default| && Default[i] == Registered(k)
    ensures i == 3 <==> k == CALL
  {
    match k
    case ADC => 0
    case ADD => 1
    case BCLR => 2
    case CALL => 3
    case LD => 4
    case LDPostInc => 5
    case LDPreDec => 6
    case LDI => 7
    case NOP => 8
    case POP => 9
    case PUSH => 10
    case RET => 11
  }

  /** Every entry of the default set is the registered instruction of its action, in its place. */
  lemma DefaultEntries(i: nat)
    requires i < |Default|
    ensures Default[i] == Registered(Default[i].action) && Position(Default[i].action) == i
  {
  }

  /** The sized lookup finds the one instruction that fits. */
  lemma SizedFitUnique(list: seq<Instruction>, codes: seq<nat>, i: nat)
    requires i < |list| && SizedFits(list[i], codes)
    requires forall j :: 0 <= j < |list| && j != i ==> !SizedFits(list[j], codes)
    ensures SizedFit(list, codes) == Some(i)
  {
  }

  /** The fetch of one word that exactly one instruction fits. */
  lemma FetchOne(list: seq<Instruction>, flash: seq<nat>, pc: nat, i: nat)
    requires pc < |flash| && i < |list| && SizedFits(list[i], [flash[pc]])
    requires forall j :: 0 <= j < |list| && j != i ==> !SizedFits(list[j], [flash[pc]])
    ensures Fetch(list, flash, pc) == Found(list[i], [flash[pc]])
  {
    SizedFitUnique(list, [flash[pc]], i);
  }

  /** The fetch of two words that exactly one instruction fits, where no instruction fits the first word. */
  lemma FetchTwo(list: seq<Instruction>, flash: seq<nat>, pc: nat, i: nat)
    requires pc + 2 <= |flash| && i < |list|
    requires forall j :: 0 <= j < |list| ==> !SizedFits(list[j], [flash[pc]])
    requires SizedFits(list[i], flash[pc..pc + 2])
    requires forall j :: 0 <= j < |list| && j != i ==> !SizedFits(list[j], flash[pc..pc + 2])
    ensures Fetch(list, flash, pc) == Found(list[i], flash[pc..pc + 2])
  {
    SizedFitUnique(list, flash[pc..pc + 2], i);
  }

  /**
   * The only one-word instruction whose fixed bits fit the one word of
   * instruction `k`'s encoding is `k` itself.
   */
  lemma OneWordUnique(k: Kind, w: nat, j: nat)
    requires k != CALL && j < |Default| && j != Position(k)
    requires Agrees(Registered(k).opcode, w) && NWords(Default[j].opcode) == 1
    ensures !Agrees(Default[j].opcode, w)
  {
    DefaultEntries(j);
    Widths(j);
    DistinctAgrees(k, Default[j].action, w);
  }

  /** The first word of a CALL encoding fits no one-word instruction. */
  lemma CallHeadUnmatched(a: nat, b: nat, j: nat)
    requires b < WordBase && Agrees(Call.opcode, Join([a, b])) && j < |Default| && NWords(Default[j].opcode) == 1
    ensures !Agrees(Default[j].opcode, a)
  {
    DefaultEntries(j);
    Widths(j);
    CallFirstWord(Default[j].action, a, b);
  }

  /**
   * `map_operands` and then the sized fetch: the words an instruction of the
   * default set is encoded to, placed at PC, are fetched back as that
   * instruction, and `get_operand_map` reads back the operand map.
   */
  lemma FetchEncoded(k: Kind, m: map<char, int>, flash: seq<nat>, pc: nat)
    requires InDomain(Registered(k).opcode.operands, m) && m.Keys == NamesOf(Registered(k).opcode.operands)
    requires pc + |Encode(Registered(k).opcode, m)| <= |flash|
    requires flash[pc..pc + |Encode(Registered(k).opcode, m)|] == Encode(Registered(k).opcode, m)
    ensures Fetch(Default, flash, pc) == Found(Registered(k), Encode(Registered(k).opcode, m))
    ensures Decode(Registered(k).opcode, Encode(Registered(k).opcode, m)) == Some(m)
  {
    RegisteredCoherent(k);
    DecodeEncode(Registered(k).opcode, m);
    FetchEncodedWords(k, m, flash, pc);
  }

  /** The fetch half of `FetchEncoded`. */
  lemma FetchEncodedWords(k: Kind, m: map<char, int>, flash: seq<nat>, pc: nat)
    requires InDomain(Registered(k).opcode.operands, m)
    requires pc + |Encode(Registered(k).opcode, m)| <= |flash|
    requires flash[pc..pc + |Encode(Registered(k).opcode, m)|] == Encode(Registered(k).opcode, m)
    ensures Fetch(Default, flash, pc) == Found(Registered(k), Encode(Registered(k).opcode, m))
  {
    EncodedWords(k, m);
    if k == CALL {
      FetchCall(Encode(Registered(k).opcode, m), flash, pc);
    } else {
      FetchOneWord(k, Encode(Registered(k).opcode, m), flash, pc);
    }
  }

  /** An encoding of instruction `k` has its number of words, and its fixed bits. */
  lemma EncodedWords(k: Kind, m: map<char, int>)
    requires InDomain(Registered(k).opcode.operands, m)
    ensures var codes := Encode(Registered(k).opcode, m);
      |codes| == (if k == CALL then 2 else 1) && Agrees(Registered(k).opcode, Join(codes))
  {
    RegisteredCoherent(k);
    Widths(Position(k));
    EncodedAgrees(Registered(k).opcode, m);
  }

  /** An encoding has as many words as its pattern and carries the pattern's fixed bits. */
  lemma EncodedAgrees(op: Opcode, m: map<char, int>)
    requires WellFormed(op) && InDomain(op.operands, m)
    ensures |Encode(op, m)| == NWords(op) && Agrees(op, Join(Encode(op, m)))
  {
    EncodeJoins(op, m);
    EncodeMatchesFixed(op, m);
    FitsAgrees(op, Join(Encode(op, m)));
  }

  /** Two words agreeing with CALL's fixed bits are fetched as CALL. */
  lemma FetchCall(codes: seq<nat>, flash: seq<nat>, pc: nat)
    requires |codes| == 2 && codes[1] < WordBase && Agrees(Call.opcode, Join(codes))
    requires pc + 2 <= |flash| && flash[pc..pc + 2] == codes
    ensures Fetch(Default, flash, pc) == Found(Call, codes)
  {
    assert flash[pc] == codes[0] && flash[pc..pc + 2] == codes == [codes[0], codes[1]];
    CallHeadFitsNone(codes[0], codes[1]);
    CallFitsOnlyCall(codes);
    CallThird();
    FetchTwo(Default, flash, pc, 3);
  }

  lemma CallWidth()
    ensures NWords(Call.opcode) == 2
  {
    Widths(3);
  }

  lemma CallThird()
    ensures Default[3] == Call
  {
  }

  /** The first word of a CALL encoding is no one-word instruction, nor CALL, which needs two words. */
  lemma CallHeadFitsNone(a: nat, b: nat)
    requires b < WordBase && Agrees(Call.opcode, Join([a, b]))
    ensures forall j :: 0 <= j < |Default| ==> !SizedFits(Default[j], [a])
  {
    forall j | 0 <= j < |Default|
      ensures !SizedFits(Default[j], [a])
    {
      if NWords(Default[j].opcode) == 1 {
        JoinShort(a, b);
        CallHeadUnmatched(a, b, j);
      }
    }
  }

  /** Of the default instructions only CALL takes two words, and it fits a CALL encoding. */
  lemma CallFitsOnlyCall(codes: seq<nat>)
    requires |codes| == 2 && Agrees(Call.opcode, Join(codes))
    ensures SizedFits(Call, codes)
    ensures forall j :: 0 <= j < |Default| && j != 3 ==> !SizedFits(Default[j], codes)
  {
    forall j | 0 <= j < |Default| && j != 3
      ensures !SizedFits(Default[j], codes)
    {
      Widths(j);
    }
    CallWidth();
  }

  /** One word agreeing with the fixed bits of a one-word instruction is fetched as it. */
  lemma FetchOneWord(k: Kind, codes: seq<nat>, flash: seq<nat>, pc: nat)
    requires k != CALL && |codes| == 1 && Agrees(Registered(k).opcode, Join(codes))
    requires pc + 1 <= |flash| && flash[pc..pc + 1] == codes
    ensures Fetch(Default, flash, pc) == Found(Registered(k), codes)
  {
    var w := codes[0];
    assert codes == [w] && [flash[pc]] == codes;
    JoinShort(w, 0);
    forall j | 0 <= j < |Default| && j != Position(k)
      ensures !SizedFits(Default[j], codes)
    {
      if NWords(Default[j].opcode) == 1 {
        OneWordUnique(k, w, j);
      }
    }
    Widths(Position(k));
    FetchOne(Default, flash, pc, Position(k));
  }

  // ---------------------------------------------------------------------------
  // The fetch as written reads a CALL whose second word fits ADC, ADD or BCLR as that instruction
  // ---------------------------------------------------------------------------

  /** `by_opcode` returns the first instruction whose fixed bits the joined words carry. */
  lemma LookupFirst(list: seq<Instruction>, codes: seq<nat>, i: nat)
    requires i < |list| && Agrees(list[i].opcode, Join(codes))
    requires forall j :: 0 <= j < i ==> !Agrees(list[j].opcode, Join(codes))
    ensures Lookup(list, codes) == Some(list[i])
  {
    FitsAgrees(list[i].opcode, Join(codes));
    forall j | 0 <= j < i ensures !Fits(list[j].opcode, Join(codes)) {
      FitsAgrees(list[j].opcode, Join(codes));
    }
  }

  /** `by_opcode` returns `None` when no instruction's fixed bits are carried. */
  lemma LookupNone(list: seq<Instruction>, codes: seq<nat>)
    requires forall j :: 0 <= j < |list| ==> !Agrees(list[j].opcode, Join(codes))
    ensures Lookup(list, codes) == None
  {
    forall j | 0 <= j < |list| ensures !Fits(list[j].opcode, Join(codes)) {
      FitsAgrees(list[j].opcode, Join(codes));
    }
  }

  /** When nothing fits the word at PC, `step` goes on to the two words at PC. */
  lemma SourceFetchTwo(list: seq<Instruction>, flash: seq<nat>, pc: nat, ins: Instruction)
    requires pc + 2 <= |flash|
    requires Lookup(list, [flash[pc]]) == None && Lookup(list, flash[pc..pc + 2]) == Some(ins)
    ensures SourceFetch(list, flash, pc) == Found(ins, flash[pc..pc + 2])
  {
    assert Slice(flash, pc, pc + 1) == [flash[pc]];
    assert Slice(flash, pc, pc + 2) == flash[pc..pc + 2];
  }

  /** The operand map of `CALL k`. */
  function CallTo(k: nat): (m: map<char, int>)
    requires k < 64000
    ensures 'k' in m && m['k'] == k && InDomain(Call.opcode.operands, m)
  {
    var m := map['k' := k];
    assert Call.opcode.operands == [K22];
    m
  }

  /**
   * The low word of a two-word encoding whose low sixteen bits all belong
   * to one operand counted from zero is that operand's value modulo 2^16.
   */
  lemma LowWordSingle(op: Opcode, o: Operand, m: map<char, int>)
    requires op.operands == [o] && o.name in m && o.domain.Span? && o.domain.lo == 0 && Check(o, m[o.name])
    requires |op.pattern| == 2 * WordSize && o.name != '1'
    requires forall i :: 0 <= i < WordSize ==> At(op.pattern, i) == o.name
    ensures |Encode(op, m)| == 2 && Encode(op, m)[1] == m[o.name] % WordBase
  {
    var k: nat := m[o.name];
    SpanIndex(o, k);
    var part := Part(op, o, m);
    assert op.operands[1..] == [];
    var x := Or(Fixed(op), part);
    assert Pack(op, m) == PackFrom(op, op.operands[1..], m, x);
    forall i: nat | i < WordSize ensures Bit(x, i) == Bit(k, i) {
      forall j: nat | j <= i ensures Bit(MaskChar(op, o.name), j) {
        MaskCharBit(op, o.name, j);
      }
      ScatterLowRun(k, MaskChar(op, o.name), i);
      BitOr(Fixed(op), part, i);
      FixedBits(op, i);
    }
    Pow2Word();
    forall i: nat ensures Bit(x % WordBase, i) == Bit(k % WordBase, i) {
      BitMod(x, WordSize, i);
      BitMod(k, WordSize, i);
    }
    BitsEqual(x % WordBase, k % WordBase);
    assert Encode(op, m) == Words(x / WordBase, 1) + [x % WordBase];
  }

  /** The low sixteen bits of CALL's pattern all carry the target. */
  lemma CallLowChars()
    ensures forall i :: 0 <= i < WordSize ==> At(Call.opcode.pattern, i) == 'k'
  {
  }

  /**
   * A number whose low sixteen bits lie in 3072..4095 carries the fixed bits
   * of ADD (`000011`) and not those of ADC (`000111`).
   */
  lemma AddNotAdc(w: nat)
    requires 3072 <= w % WordBase < 4096
    ensures Agrees(Add.opcode, w) && !Agrees(Adc.opcode, w)
  {
    var y := w % WordBase;
    Pow2Word();
    assert Pow2(10) == 1024 by {
      assert Pow2(0) == 1 && Pow2(1) == 2 && Pow2(2) == 4 && Pow2(3) == 8 && Pow2(4) == 16;
      assert Pow2(5) == 32 && Pow2(6) == 64 && Pow2(7) == 128 && Pow2(8) == 256 && Pow2(9) == 512;
    }
    assert y / 1024 == 3;
    assert 3 < Pow2(2) by {
      assert Pow2(1) == 2;
    }
    forall i: nat | 10 <= i < WordSize ensures Bit(w, i) == (i < 12) {
      BitMod(w, WordSize, i);
      BitShiftRight(y, 10, i - 10, 3);
      if i >= 12 {
        BitBelow(3, 2, i - 10);
      } else if i == 11 {
        assert Bit(3, 1) by {
          assert 3 / 2 == 1;
        }
      }
    }
    AddAdcChars();
  }

  /** The fixed bits ADD and ADC have at positions 10..15. */
  lemma AddAdcChars()
    ensures |Add.opcode.pattern| == WordSize && |Adc.opcode.pattern| == WordSize
    ensures forall i :: 0 <= i < 10 ==> At(Add.opcode.pattern, i) !in "01"
    ensures forall i :: 10 <= i < WordSize ==> At(Add.opcode.pattern, i) == (if i < 12 then '1' else '0')
    ensures At(Adc.opcode.pattern, 12) == '1'
  {
  }

  /**
   * `step` as written fetches the two words of a CALL whose low word lies in
   * 3072..4095 as ADD: no instruction fits the first word, and of the two
   * words ADD, listed before CALL, tests only the low sixteen bits.  The
   * sized fetch reads the same words as CALL.  `CallWords` shows that the
   * low word of `CALL k` is `k`, so every `CALL k` with `k` in 3072..4095
   * is misread.
   */
  lemma SourceFetchMisreadsCall(codes: seq<nat>, flash: seq<nat>, pc: nat)
    requires |codes| == 2 && codes[0] < WordBase && 3072 <= codes[1] < 4096 && Agrees(Call.opcode, Join(codes))
    requires pc + 2 <= |flash| && flash[pc..pc + 2] == codes
    ensures SourceFetch(Default, flash, pc) == Found(Add, codes)
    ensures Fetch(Default, flash, pc) == Found(Call, codes)
  {
    assert codes == [flash[pc], codes[1]];
    MisreadHead(flash[pc], codes[1]);
    MisreadTwo(codes);
    SourceFetchTwo(Default, flash, pc, Add);
    FetchCall(codes, flash, pc);
  }

  /**
   * The instruction `step` as written takes a CALL for when the CALL's
   * second word is `w`: the first of ADC, ADD and BCLR, the one-word
   * instructions listed before CALL, whose fixed bits `w` carries, and
   * otherwise CALL itself.
   */
  function CallReadAs(w: nat): Instruction
  {
    if Agrees(Adc.opcode, w) then Adc
    else if Agrees(Add.opcode, w) then Add
    else if Agrees(Bclr.opcode, w) then Bclr
    else Call
  }

  /**
   * `step` as written fetches the two words of a CALL as `CallReadAs` of
   * its second word; so it misreads the CALL exactly when that word fits an
   * instruction registered before CALL.  The sized fetch reads CALL.
   */
  lemma SourceFetchCall(codes: seq<nat>, flash: seq<nat>, pc: nat)
    requires |codes| == 2 && codes[0] < WordBase && codes[1] < WordBase && Agrees(Call.opcode, Join(codes))
    requires pc + 2 <= |flash| && flash[pc..pc + 2] == codes
    ensures SourceFetch(Default, flash, pc) == Found(CallReadAs(codes[1]), codes)
    ensures Fetch(Default, flash, pc) == Found(Call, codes)
  {
    assert codes == [flash[pc], codes[1]];
    MisreadHead(flash[pc], codes[1]);
    assert Lookup(Default, codes) == Some(CallReadAs(codes[1])) by {
      LookupCallWords(codes);
    }
    SourceFetchTwo(Default, flash, pc, CallReadAs(codes[1]));
    FetchCall(codes, flash, pc);
  }

  /** `by_opcode` on a CALL's two words returns `CallReadAs` of the second word. */
  lemma LookupCallWords(codes: seq<nat>)
    requires |codes| == 2 && codes[1] < WordBase && Agrees(Call.opcode, Join(codes))
    ensures Lookup(Default, codes) == Some(CallReadAs(codes[1]))
  {
    var w := codes[1];
    var i := if Agrees(Adc.opcode, w) then 0 else if Agrees(Add.opcode, w) then 1 else if Agrees(Bclr.opcode, w) then 2 else 3;
    assert Default[0] == Adc && Default[1] == Add && Default[2] == Bclr && Default[3] == Call;
    forall j | 0 <= j < i ensures !Agrees(Default[j].opcode, Join(codes)) {
      assert !Agrees(Default[j].opcode, w);
      LowWordDecides(codes, j);
    }
    assert Agrees(Default[i].opcode, Join(codes)) by {
      if i < 3 {
        LowWordDecides(codes, i);
      }
    }
    assert Default[i] == CallReadAs(w);
    LookupFirst(Default, codes, i);
  }

  /** Against two words, ADC, ADD and BCLR (positions 0..2) test only the second. */
  lemma LowWordDecides(codes: seq<nat>, j: nat)
    requires |codes| == 2 && codes[1] < WordBase && j < 3
    ensures Agrees(Default[j].opcode, Join(codes)) == Agrees(Default[j].opcode, codes[1])
  {
    var x := Join(codes);
    assert x % WordBase == codes[1] by {
      assert codes == [codes[0], codes[1]];
      JoinShort(codes[0], codes[1]);
      DivModUnique(x, WordBase, codes[0], codes[1]);
    }
    OneWordLength(j);
    AgreesLowWord(Default[j].opcode, x);
  }

  /** A one-word pattern tests only the low sixteen bits of a number. */
  lemma AgreesLowWord(op: Opcode, x: nat)
    requires |op.pattern| <= WordSize
    ensures Agrees(op, x) == Agrees(op, x % WordBase)
  {
    Pow2Word();
    forall i | 0 <= i < |op.pattern| ensures Bit(x % WordBase, i) == Bit(x, i) {
      BitMod(x, WordSize, i);
    }
  }

  /** `CALL 38024`, the words `0x940E 0x9488`: its second word is `BCLR 0`, so it is fetched as BCLR. */
  lemma SourceFetchMisreadsCallAsBclr()
    ensures SourceFetch(Default, [0x940E, 0x9488], 0) == Found(Bclr, [0x940E, 0x9488])
    ensures Fetch(Default, [0x940E, 0x9488], 0) == Found(Call, [0x940E, 0x9488])
  {
    var codes := [0x940E, 0x9488];
    assert codes[..2] == codes;
    JoinShort(0x940E, 0x9488);
    assert Agrees(Call.opcode, Join(codes)) by {
      CallWordsAgreeWith(0x9488);
    }
    assert CallReadAs(0x9488) == Bclr by {
      BclrWord();
    }
    SourceFetchCall(codes, codes, 0);
  }

  /** ADC, ADD and BCLR have sixteen-character patterns. */
  lemma OneWordLength(j: nat)
    requires j < 3
    ensures |Default[j].opcode.pattern| == WordSize
  {
  }

  /** Any second word after `0x940E` leaves CALL's fixed bits, which all lie in the first word, in place. */
  lemma CallWordsAgreeWith(b: nat)
    requires b < WordBase
    ensures Agrees(Call.opcode, 0x940E * WordBase + b)
  {
    var x := 0x940E * WordBase + b;
    CallWordsAgree(0x940E, 0x0C00);
    Pow2Word();
    assert x / Pow2(16) == 0x940E;
    assert 0x940E0C00 / Pow2(16) == 0x940E;
    forall i | 0 <= i < |Call.opcode.pattern| && At(Call.opcode.pattern, i) in "01"
      ensures Bit(x, i) == Bit(0x940E0C00, i)
    {
      CallFixedPositions(i);
      BitShiftRight(x, 16, i - 16, 0x940E);
      BitShiftRight(0x940E0C00, 16, i - 16, 0x940E);
    }
  }

  /** `0x9488` is `BCLR 0`: it carries BCLR's fixed bits and not those of ADC or ADD. */
  lemma BclrWord()
    ensures Agrees(Bclr.opcode, 0x9488) && !Agrees(Adc.opcode, 0x9488) && !Agrees(Add.opcode, 0x9488)
  {
    assert Bit(0x9488, 15);
    assert At(Adc.opcode.pattern, 15) == '0' && At(Add.opcode.pattern, 15) == '0';
    forall i | 0 <= i < |Bclr.opcode.pattern| && At(Bclr.opcode.pattern, i) in "01"
      ensures Bit(0x9488, i) <==> At(Bclr.opcode.pattern, i) == '1'
    {
      BclrWordBit(i);
    }
  }

  lemma BclrWordBit(i: nat)
    requires i < |Bclr.opcode.pattern| && At(Bclr.opcode.pattern, i) in "01"
    ensures Bit(0x9488, i) <==> At(Bclr.opcode.pattern, i) == '1'
  {
    if i < 8 {
      assert !Bit(0x9488, 0) && !Bit(0x9488, 1) && !Bit(0x9488, 2) && Bit(0x9488, 3) && Bit(0x9488, 7);
    } else {
      assert Pow2(8) == 256 by {
        assert Pow2(0) == 1 && Pow2(1) == 2 && Pow2(2) == 4 && Pow2(3) == 8 && Pow2(4) == 16;
        assert Pow2(5) == 32 && Pow2(6) == 64 && Pow2(7) == 128;
      }
      assert 0x9488 / 256 == 0x94;
      BitShiftRight(0x9488, 8, i - 8, 0x94);
      assert !Bit(0x94, 0) && !Bit(0x94, 1) && Bit(0x94, 2) && !Bit(0x94, 3);
      assert Bit(0x94, 4) && !Bit(0x94, 5) && !Bit(0x94, 6) && Bit(0x94, 7);
    }
  }

  /** `CALL 3072`, the words `0x940E 0x0C00`, is fetched as ADD. */
  lemma SourceFetchMisreadsCall3072()
    ensures SourceFetch(Default, [0x940E, 0x0C00], 0) == Found(Add, [0x940E, 0x0C00])
    ensures Fetch(Default, [0x940E, 0x0C00], 0) == Found(Call, [0x940E, 0x0C00])
  {
    var codes := [0x940E, 0x0C00];
    JoinShort(0x940E, 0x0C00);
    CallWordsAgree(0x940E, 0x0C00);
    assert codes[..2] == codes;
    SourceFetchMisreadsCall(codes, codes, 0);
  }

  /** `0x940E 0x0C00` carries CALL's fixed bits. */
  lemma CallWordsAgree(a: nat, b: nat)
    requires a == 0x940E && b == 0x0C00
    ensures Agrees(Call.opcode, a * WordBase + b)
  {
    var x := a * WordBase + b;
    assert x == 0x940E0C00;
    forall i | 0 <= i < |Call.opcode.pattern| && At(Call.opcode.pattern, i) in "01"
      ensures Bit(x, i) <==> At(Call.opcode.pattern, i) == '1'
    {
      CallFixedPositions(i);
      BitOfLiteral(i);
    }
  }

  /** Where CALL's pattern has fixed bits, and which. */
  lemma CallFixedPositions(i: nat)
    requires i < |Call.opcode.pattern| && At(Call.opcode.pattern, i) in "01"
    ensures (17 <= i < 20 || 25 <= i < 32)
    ensures At(Call.opcode.pattern, i) == '1' <==> i in {17, 18, 19, 26, 28, 31}
  {
  }

  /** The bits of `0x940E0C00` at CALL's fixed positions. */
  lemma BitOfLiteral(i: nat)
    requires 17 <= i < 20 || 25 <= i < 32
    ensures Bit(0x940E0C00, i) <==> i in {17, 18, 19, 26, 28, 31}
  {
    assert Pow2(17) == 0x20000 by {
      Pow2Add(16, 1);
      Pow2Word();
    }
    assert 0x940E0C00 / 0x20000 == 0x4A07;
    BitShiftRight(0x940E0C00, 17, i - 17, 0x4A07);
    if i >= 25 {
      assert Pow2(8) == 256 by {
        Pow2Add(4, 4);
        assert Pow2(4) == 16 by {
          assert Pow2(0) == 1 && Pow2(1) == 2 && Pow2(2) == 4 && Pow2(3) == 8;
        }
      }
      assert 0x4A07 / 256 == 0x4A;
      BitShiftRight(0x4A07, 8, i - 25, 0x4A);
      assert !Bit(0x4A, 0) && Bit(0x4A, 1) && !Bit(0x4A, 2) && Bit(0x4A, 3);
      assert !Bit(0x4A, 4) && !Bit(0x4A, 5) && Bit(0x4A, 6);
    } else {
      assert Bit(0x4A07, 0) && Bit(0x4A07, 1) && Bit(0x4A07, 2);
    }
  }

  /** `CALL k` is encoded as two words, the second being `k` modulo 2^16. */
  lemma CallWords(k: nat)
    requires k < 64000
    ensures var codes := Encode(Call.opcode, CallTo(k));
      |codes| == 2 && codes[0] < WordBase && codes[1] == k % WordBase && Agrees(Call.opcode, Join(codes))
  {
    CallCoherent();
    EncodedAgrees(Call.opcode, CallTo(k));
    CallLowWord(k);
  }

  lemma CallLowWord(k: nat)
    requires k < 64000
    ensures |Encode(Call.opcode, CallTo(k))| == 2 && Encode(Call.opcode, CallTo(k))[1] == k % WordBase
  {
    CallLowChars();
    LowWordSingle(Call.opcode, K22, CallTo(k));
  }

  /** No instruction of the default set fits the first word of a CALL. */
  lemma MisreadHead(a: nat, b: nat)
    requires a < WordBase && b < WordBase && Agrees(Call.opcode, Join([a, b]))
    ensures Lookup(Default, [a]) == None
  {
    JoinShort(a, b);
    CallHeadFitsNone(a, b);
    CallHeadNotCall(a);
    forall j | 0 <= j < |Default| ensures !Agrees(Default[j].opcode, Join([a])) {
      if j != 3 {
        Widths(j);
        assert !SizedFits(Default[j], [a]);
      } else {
        CallThird();
      }
    }
    LookupNone(Default, [a]);
  }

  /** Two words whose second lies in 3072..4095 are looked up as ADD. */
  lemma MisreadTwo(codes: seq<nat>)
    requires |codes| == 2 && 3072 <= codes[1] < 4096
    ensures Lookup(Default, codes) == Some(Add)
  {
    assert codes == [codes[0], codes[1]];
    JoinShort(codes[0], codes[1]);
    assert Join(codes) % WordBase == codes[1];
    AddNotAdc(Join(codes));
    AdcAddFirst();
    LookupFirst(Default, codes, 1);
  }

  /** ADC and ADD open the default set. */
  lemma AdcAddFirst()
    ensures Default[0] == Adc && Default[1] == Add
  {
  }

  /** A single word cannot carry CALL's fixed bit 17. */
  lemma CallHeadNotCall(a: nat)
    requires a < WordBase
    ensures !Agrees(Call.opcode, a)
  {
    Pow2Word();
    Pow2Monotone(WordSize, 17);
    BitBelow(a, WordSize, 17);
    CallBit17();
  }

  // ---------------------------------------------------------------------------
  // The fetch as written runs a first word that fits nothing as the second word's instruction
  // ---------------------------------------------------------------------------

  /**
   * The words `0xFFFF 0x0000`: no instruction fits `0xFFFF`, but NOP's
   * one-word pattern fits the low word of `0xFFFF0000`, so the fetch as
   * written selects NOP.  The sized fetch selects nothing.
   */
  lemma SourceFetchMisreadsUnmatched(flash: seq<nat>, pc: nat)
    requires pc + 2 <= |flash| && flash[pc..pc + 2] == [0xFFFF, 0]
    ensures SourceFetch(Default, flash, pc) == Found(Nop, [0xFFFF, 0])
    ensures Fetch(Default, flash, pc) == Unmatched
  {
    assert flash[pc] == 0xFFFF;
    AllOnesLookup();
    HighOnesLookup();
    SourceFetchTwo(Default, flash, pc, Nop);
    AllOnesSized(flash, pc);
  }

  /** `by_opcode` finds nothing for the one word `0xFFFF`. */
  lemma AllOnesLookup()
    ensures Lookup(Default, [0xFFFF]) == None
  {
    JoinShort(0xFFFF, 0);
    forall j | 0 <= j < |Default| ensures !Agrees(Default[j].opcode, Join([0xFFFF])) {
      AllOnesRejects(j);
    }
    LookupNone(Default, [0xFFFF]);
  }

  /** `by_opcode` finds NOP for the two words `0xFFFF 0x0000`. */
  lemma HighOnesLookup()
    ensures Lookup(Default, [0xFFFF, 0]) == Some(Nop)
  {
    var codes := [0xFFFF, 0];
    JoinShort(0xFFFF, 0);
    forall j | 0 <= j < 8 ensures !Agrees(Default[j].opcode, Join(codes)) {
      HighOnesRejects(j);
    }
    NopFitsHighOnes();
    assert Default[8] == Nop;
    LookupFirst(Default, codes, 8);
  }

  /** NOP's all-zero pattern fits `0xFFFF0000`, whose low sixteen bits are clear. */
  lemma NopFitsHighOnes()
    ensures Agrees(Nop.opcode, 0xFFFF * WordBase)
  {
    var x := 0xFFFF * WordBase;
    assert x % WordBase == 0;
    AgreesLowWord(Nop.opcode, x);
    forall i | 0 <= i < |Nop.opcode.pattern| ensures !Bit(0, i) {
      ZeroHasNoBits(i);
    }
  }

  /** The sized fetch finds nothing for `0xFFFF 0x0000`. */
  lemma AllOnesSized(flash: seq<nat>, pc: nat)
    requires pc + 2 <= |flash| && flash[pc..pc + 2] == [0xFFFF, 0]
    ensures Fetch(Default, flash, pc) == Unmatched
  {
    var codes := [0xFFFF, 0];
    assert [flash[pc]] == [0xFFFF];
    JoinShort(0xFFFF, 0);
    forall j | 0 <= j < |Default| ensures !SizedFits(Default[j], [0xFFFF]) {
      AllOnesRejects(j);
    }
    forall j | 0 <= j < |Default| ensures !SizedFits(Default[j], codes) {
      Widths(j);
      if j == 3 {
        HighOnesRejects(j);
      }
    }
  }

  /** The word `0xFFFF` fits no instruction of the default set. */
  lemma AllOnesRejects(j: nat)
    requires j < |Default|
    ensures !Agrees(Default[j].opcode, 0xFFFF)
  {
    var op := Default[j].opcode;
    if j == 3 {
      CallHeadNotCall(0xFFFF);
    } else if j < 2 {
      OnesReject(op, 15);
    } else if j == 7 {
      OnesReject(op, 12);
    } else if j == 9 || j == 10 {
      OnesReject(op, 11);
    } else if j == 5 {
      OnesReject(op, 1);
    } else {
      OnesReject(op, 0);
    }
  }

  /** A pattern with a fixed `0` among its low sixteen bits does not fit `0xFFFF`. */
  lemma OnesReject(op: Opcode, i: nat)
    requires i < WordSize && i < |op.pattern| && At(op.pattern, i) == '0'
    ensures !Agrees(op, 0xFFFF)
  {
    Pow2Word();
    OnesBelow(WordSize, i);
  }

  /** None of the eight instructions before NOP fits `0xFFFF0000`. */
  lemma HighOnesRejects(j: nat)
    requires j < 8
    ensures !Agrees(Default[j].opcode, 0xFFFF * WordBase)
  {
    var x := 0xFFFF * WordBase;
    Pow2Word();
    if j == 3 {
      assert x / Pow2(WordSize) == 0xFFFF;
      BitShiftRight(x, WordSize, 9, 0xFFFF);
      OnesBelow(WordSize, 9);
      assert At(Call.opcode.pattern, 25) == '0';
    } else {
      Widths(j);
      AgreesLowWord(Default[j].opcode, x);
      BeforeNopRejectZero(j);
    }
  }

  // ---------------------------------------------------------------------------
  // Past the end of the flash
  // ---------------------------------------------------------------------------

  /** A pattern with a fixed `1` does not fit the word 0. */
  lemma ZeroRejects(op: Opcode, i: nat)
    requires i < |op.pattern| && At(op.pattern, i) == '1'
    ensures !Agrees(op, 0)
  {
    ZeroHasNoBits(i);
  }

  /** Each of the eight instructions before NOP has a fixed `1`. */
  lemma BeforeNopRejectZero(j: nat)
    requires j < 8
    ensures !Agrees(Default[j].opcode, 0)
  {
    if j < 2 {
      ZeroRejects(Default[j].opcode, 10);
    } else if j == 3 {
      ZeroRejects(Default[j].opcode, 31);
    } else {
      ZeroRejects(Default[j].opcode, 15);
    }
  }

  /**
   * At or past the end of the flash both slices of `step` are empty; the
   * empty list joins to 0, which NOP's all-zero pattern fits, and
   * `get_operand_map` then pops from the empty list and raises.
   */
  lemma SourceFetchPastEnd(flash: seq<nat>, pc: nat)
    requires pc >= |flash|
    ensures SourceFetch(Default, flash, pc) == Found(Nop, [])
    ensures Decode(Nop.opcode, []) == None
  {
    assert Slice(flash, pc, pc + 1) == [];
    assert Join([]) == 0;
    forall j | 0 <= j < 8 ensures !Agrees(Default[j].opcode, Join([])) {
      BeforeNopRejectZero(j);
    }
    forall i | 0 <= i < |Nop.opcode.pattern| ensures !Bit(0, i) && At(Nop.opcode.pattern, i) == '0' {
      ZeroHasNoBits(i);
    }
    assert Default[8] == Nop;
    LookupFirst(Default, [], 8);
  }
}
