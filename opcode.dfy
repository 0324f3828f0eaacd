/**
 * `Opcode` of `avrzero/instruction.py`: a bit pattern such as
 * "0001 11rd dddd rrrr" (written most significant bit first) over `0`, `1`
 * and operand letters, the masks it defines, and the packing of an operand
 * map into big-endian 16-bit words (`map_operands`) and back
 * (`get_operand_map`). What is packed for an operand is the position of its
 * value in the operand's sorted domain, not the value itself.
 */
module Opcodes {
  import opened Wrappers
  import opened Bits
  import opened Codec
  import opened Operands
  import opened Syntax

  /** `BYTE_SIZE` and `WORD_SIZE` of `avrzero/__init__.py`. */
  const ByteSize: nat := 8
  const WordSize: nat := 16
  /** `1 << WORD_SIZE` */
  const WordBase: nat := 65536

  datatype Opcode = Opcode(pattern: string, operands: seq<Operand>)

  /** `n_bits // WORD_SIZE`: how many words an encoding takes. */
  function NWords(op: Opcode): nat
  {
    |op.pattern| / WordSize
  }

  /** `fixed_mask`: the bits the pattern fixes to `0` or `1`. */
  function FixedMask(op: Opcode): nat
  {
    SelectMask(op.pattern, "01")
  }

  /** `fixed`: the bits the pattern fixes to `1`. */
  function Fixed(op: Opcode): nat
  {
    SelectMask(op.pattern, "1")
  }

  /** `mask_char(c)`: the bits that carry operand `c`. */
  function MaskChar(op: Opcode, c: char): nat
  {
    SelectMask(op.pattern, [c])
  }

  /** The pattern character that governs bit `i`. */
  function At(pattern: string, i: nat): char
    requires i < |pattern|
  {
    pattern[|pattern| - 1 - i]
  }

  // ---------------------------------------------------------------------------
  // Masks
  // ---------------------------------------------------------------------------

  lemma MaskCharBit(op: Opcode, c: char, i: nat)
    ensures Bit(MaskChar(op, c), i) <==> i < |op.pattern| && At(op.pattern, i) == c
  {
    SelectMaskBit(op.pattern, [c], i);
  }

  lemma FixedBits(op: Opcode, i: nat)
    ensures Bit(FixedMask(op), i) <==> i < |op.pattern| && At(op.pattern, i) in "01"
    ensures Bit(Fixed(op), i) <==> i < |op.pattern| && At(op.pattern, i) == '1'
  {
    SelectMaskBit(op.pattern, "01", i);
    SelectMaskBit(op.pattern, "1", i);
  }

  /** `fixed & ~fixed_mask == 0`: the fixed ones lie inside the fixed mask. */
  lemma FixedInsideMask(op: Opcode)
    ensures AndNot(Fixed(op), FixedMask(op)) == 0
  {
    forall i: nat ensures Bit(AndNot(Fixed(op), FixedMask(op)), i) == Bit(0, i) {
      BitAndNot(Fixed(op), FixedMask(op), i);
      FixedBits(op, i);
      ZeroHasNoBits(i);
    }
    BitsEqual(AndNot(Fixed(op), FixedMask(op)), 0);
  }

  /** The masks of two different letters share no bit. */
  lemma LetterMasksDisjoint(op: Opcode, a: char, b: char)
    requires a != b
    ensures And(MaskChar(op, a), MaskChar(op, b)) == 0
  {
    forall i: nat ensures Bit(And(MaskChar(op, a), MaskChar(op, b)), i) == Bit(0, i) {
      BitAnd(MaskChar(op, a), MaskChar(op, b), i);
      MaskCharBit(op, a, i);
      MaskCharBit(op, b, i);
      ZeroHasNoBits(i);
    }
    BitsEqual(And(MaskChar(op, a), MaskChar(op, b)), 0);
  }

  /** An operand letter's mask shares no bit with the fixed mask. */
  lemma LetterOutsideFixed(op: Opcode, c: char)
    requires c != '0' && c != '1'
    ensures And(MaskChar(op, c), FixedMask(op)) == 0
  {
    forall i: nat ensures Bit(And(MaskChar(op, c), FixedMask(op)), i) == Bit(0, i) {
      BitAnd(MaskChar(op, c), FixedMask(op), i);
      MaskCharBit(op, c, i);
      FixedBits(op, i);
      ZeroHasNoBits(i);
    }
    BitsEqual(And(MaskChar(op, c), FixedMask(op)), 0);
  }

  /** A letter's field is as wide as the letter is frequent in the pattern. */
  lemma MaskCharWidth(op: Opcode, c: char)
    ensures PopCount(MaskChar(op, c)) == multiset(op.pattern)[c]
  {
    SelectWidth(op.pattern, c);
  }

  lemma {:induction false} SelectWidth(code: string, c: char)
    ensures PopCount(SelectMask(code, [c])) == multiset(code)[c]
    decreases |code|
  {
    if code != [] {
      assert code == [code[0]] + code[1..];
      var low := SelectMask(code[1..], [c]);
      SelectMaskBound(code[1..], [c]);
      SelectWidth(code[1..], c);
      if code[0] == c {
        PopCountTop(low, |code| - 1);
      }
    }
  }

  lemma {:induction false} PopCountTop(low: nat, n: nat)
    requires low < Pow2(n)
    ensures PopCount(low + Pow2(n)) == PopCount(low) + 1
    decreases n
  {
    if n > 0 {
      var x := low + Pow2(n);
      var h := Pow2(n - 1);
      assert Pow2(n) == 2 * h;
      DivModUnique(low, 2, low / 2, low % 2);
      DivModUnique(x, 2, low / 2 + h, low % 2);
      assert PopCount(x) == x % 2 + PopCount(x / 2);
      assert PopCount(low) == low % 2 + PopCount(low / 2);
      PopCountTop(low / 2, n - 1);
    }
  }

  // ---------------------------------------------------------------------------
  // Words
  // ---------------------------------------------------------------------------

  /** `x` as `n` big-endian 16-bit words (its low `16 * n` bits). */
  function Words(x: nat, n: nat): (ws: seq<nat>)
    ensures |ws| == n
    ensures forall k :: 0 <= k < n ==> ws[k] < WordBase
  {
    if n == 0 then [] else Words(x / WordBase, n - 1) + [x % WordBase]
  }

  /** `opcode = (opcode << WORD_SIZE) | code` over the words, first word highest. */
  function Join(ws: seq<nat>): nat
  {
    if ws == [] then 0 else Or(Join(ws[..|ws| - 1]) * WordBase, ws[|ws| - 1])
  }

  /** Joining the words of a number that fits them gives the number back. */
  lemma {:induction false} JoinWords(x: nat, n: nat)
    requires x < Pow2(WordSize * n)
    ensures Join(Words(x, n)) == x
    decreases n
  {
    if n == 0 {
    } else {
      var ws := Words(x, n);
      assert ws[..|ws| - 1] == Words(x / WordBase, n - 1);
      Pow2Word();
      Pow2Add(WordSize, WordSize * (n - 1));
      DivBelow(x, WordBase, Pow2(WordSize * (n - 1)));
      JoinWords(x / WordBase, n - 1);
      OrBelowShifted(x % WordBase, x / WordBase, WordSize);
      OrCommutes(x % WordBase, x / WordBase * WordBase);
    }
  }

  lemma DivBelow(x: nat, d: nat, b: nat)
    requires d > 0 && x < d * b
    ensures x / d < b
  {
    if x / d >= b {
      MulAtLeast(x / d - b + 1, d);
    }
  }

  lemma Pow2Word()
    ensures Pow2(WordSize) == WordBase
  {
    assert Pow2(0) == 1 && Pow2(1) == 2 && Pow2(2) == 4 && Pow2(3) == 8;
    assert Pow2(4) == 16 && Pow2(5) == 32 && Pow2(6) == 64 && Pow2(7) == 128;
    assert Pow2(8) == 256 && Pow2(9) == 512 && Pow2(10) == 1024 && Pow2(11) == 2048;
    assert Pow2(12) == 4096 && Pow2(13) == 8192 && Pow2(14) == 16384 && Pow2(15) == 32768;
  }

  /** Only the first `n` words are read by a join of `n` words. */
  lemma JoinPrefix(ws: seq<nat>, k: nat)
    requires k < |ws|
    ensures Join(ws[..k + 1]) == Or(Join(ws[..k]) * WordBase, ws[k])
  {
    assert ws[..k + 1][..k] == ws[..k];
  }

  /** One word joins to itself; two words join to the first above the second. */
  lemma JoinShort(a: nat, b: nat)
    requires b < WordBase
    ensures Join([a]) == a
    ensures Join([a, b]) == a * WordBase + b
  {
    assert [a][..0] == [] && [a, b][..1] == [a];
    OrZero(a);
    Pow2Word();
    OrBelowShifted(b, a, WordSize);
    OrCommutes(a * WordBase, b);
  }

  // ---------------------------------------------------------------------------
  // Packing an operand map
  // ---------------------------------------------------------------------------

  /** Every operand of `ops` has a value in its domain in `m`. */
  predicate InDomain(ops: seq<Operand>, m: map<char, int>)
  {
    forall k :: 0 <= k < |ops| ==> ops[k].name in m && Check(ops[k], m[ops[k].name])
  }

  /** One operand's contribution: its domain index scattered into its field. */
  function Part(op: Opcode, o: Operand, m: map<char, int>): nat
    requires o.name in m && Check(o, m[o.name])
  {
    Scatter(Index(o, m[o.name]), MaskChar(op, o.name))
  }

  /** `mapped |= map_int(...)` over the operands `ops`, from `acc`. */
  function PackFrom(op: Opcode, ops: seq<Operand>, m: map<char, int>, acc: nat): nat
    requires InDomain(ops, m)
    decreases |ops|
  {
    if ops == [] then acc
    else PackFrom(op, ops[1..], m, Or(acc, Part(op, ops[0], m)))
  }

  /** The whole encoding as one number: the fixed bits and every operand's field. */
  function Pack(op: Opcode, m: map<char, int>): nat
    requires InDomain(op.operands, m)
  {
    PackFrom(op, op.operands, m, Fixed(op))
  }

  /** What `map_operands` returns. */
  function Encode(op: Opcode, m: map<char, int>): seq<nat>
    requires InDomain(op.operands, m)
  {
    Words(Pack(op, m), NWords(op))
  }

  /** `Opcode.map_operands` */
  method MapOperands(op: Opcode, operandMap: map<char, int>) returns (codes: seq<nat>)
    requires InDomain(op.operands, operandMap)
    ensures codes == Encode(op, operandMap)
    ensures |codes| == NWords(op) && forall k :: 0 <= k < |codes| ==> codes[k] < WordBase
  {
    var mapped: nat := PackOperands(op, operandMap);
    codes := [];
    ghost var whole := mapped;
    var n := NWords(op);
    for i := 0 to n
      invariant Words(whole, n) == Words(mapped, n - i) + codes
    {
      WordsStep(mapped, n - i, codes);
      codes := [mapped % WordBase] + codes;
      mapped := mapped / WordBase;
    }
  }

  /** The first half of `map_operands`: the fixed bits, then `mapped |= map_int(...)` per operand. */
  method PackOperands(op: Opcode, operandMap: map<char, int>) returns (mapped: nat)
    requires InDomain(op.operands, operandMap)
    ensures mapped == Pack(op, operandMap)
  {
    mapped := BinaryMask(op.pattern, "1");
    for k := 0 to |op.operands|
      invariant InDomain(op.operands[k..], operandMap)
      invariant Pack(op, operandMap) == PackFrom(op, op.operands[k..], operandMap, mapped)
    {
      var o := op.operands[k];
      PackStep(op, op.operands, operandMap, mapped, k);
      var val := Index(o, operandMap[o.name]);
      var mask := BinaryMask(op.pattern, [o.name]);
      var part := MapInt(val, mask);
      mapped := Or(mapped, part);
    }
  }

  lemma PackStep(op: Opcode, ops: seq<Operand>, m: map<char, int>, acc: nat, k: nat)
    requires k < |ops| && InDomain(ops[k..], m)
    ensures InDomain(ops[k + 1..], m)
    ensures PackFrom(op, ops[k..], m, acc) == PackFrom(op, ops[k + 1..], m, Or(acc, Part(op, ops[k], m)))
  {
    assert ops[k..][0] == ops[k] && ops[k..][1..] == ops[k + 1..];
    InDomainTail(ops[k..], m);
  }

  lemma WordsStep(x: nat, k: nat, codes: seq<nat>)
    requires k > 0
    ensures Words(x, k) + codes == Words(x / WordBase, k - 1) + ([x % WordBase] + codes)
  {
  }

  // ---------------------------------------------------------------------------
  // Reading an operand map back
  // ---------------------------------------------------------------------------

  /** `operand_map[key] = operand.choices[idx]` over `ops`; `None` on an index past the domain. */
  function DecodeFrom(op: Opcode, ops: seq<Operand>, mapped: nat, acc: map<char, int>): Option<map<char, int>>
    decreases |ops|
  {
    if ops == [] then Some(acc)
    else
      var o := ops[0];
      var idx := Gather(mapped, MaskChar(op, o.name));
      if idx < |Choices(o)| then DecodeFrom(op, ops[1..], mapped, acc[o.name := Choices(o)[idx]])
      else None
  }

  /**
   * What `get_operand_map` returns; `None` where it raises `IndexError`
   * (fewer words than the pattern needs, or a field past its domain).
   */
  function Decode(op: Opcode, codes: seq<nat>): Option<map<char, int>>
  {
    if |codes| < NWords(op) then None
    else DecodeFrom(op, op.operands, Join(codes[..NWords(op)]), map[])
  }

  /** `Opcode.get_operand_map`; `rest` is what its `pop(0)` calls leave of the list. */
  method GetOperandMap(op: Opcode, codes: seq<nat>) returns (r: Option<map<char, int>>, rest: seq<nat>)
    ensures r == Decode(op, codes)
    ensures rest == if |codes| >= NWords(op) then codes[NWords(op)..] else []
  {
    var mapped: nat := 0;
    rest := codes;
    for i := 0 to NWords(op)
      invariant i <= |codes| && rest == codes[i..] && mapped == Join(codes[..i])
    {
      if rest == [] {
        return None, rest;
      }
      JoinPrefix(codes, i);
      mapped := Or(mapped * WordBase, rest[0]);
      rest := rest[1..];
    }
    var operandMap: map<char, int> := map[];
    for k := 0 to |op.operands|
      invariant DecodeFrom(op, op.operands, mapped, map[]) == DecodeFrom(op, op.operands[k..], mapped, operandMap)
    {
      var o := op.operands[k];
      assert op.operands[k..][0] == o && op.operands[k..][1..] == op.operands[k + 1..];
      var mask := BinaryMask(op.pattern, [o.name]);
      var idx := GetInt(mapped, mask);
      var choices := Choices(o);
      if idx >= |choices| {
        return None, rest;
      }
      operandMap := operandMap[o.name := choices[idx]];
    }
    return Some(operandMap), rest;
  }

  // ---------------------------------------------------------------------------
  // Round trip
  // ---------------------------------------------------------------------------

  /**
   * A pattern that packs and unpacks faithfully: whole words, distinct
   * operand names that are not `0` or `1`, and every domain small enough for
   * its field.
   */
  predicate WellFormed(op: Opcode)
  {
    |op.pattern| % WordSize == 0
    && DistinctNames(op.operands)
    && (forall k :: 0 <= k < |op.operands| ==> op.operands[k].name != '0' && op.operands[k].name != '1')
    && (forall k :: 0 <= k < |op.operands| ==>
          |Choices(op.operands[k])| <= Pow2(multiset(op.pattern)[op.operands[k].name]))
  }

  /**
   * A successful `get_operand_map` gives every operand a value from its
   * domain, and no other key.
   */
  lemma DecodeDefines(op: Opcode, codes: seq<nat>)
    requires DistinctNames(op.operands) && Decode(op, codes).Some?
    ensures InDomain(op.operands, Decode(op, codes).value)
    ensures Decode(op, codes).value.Keys == NamesOf(op.operands)
  {
    DecodeFromDefines(op, op.operands, Join(codes[..NWords(op)]), map[]);
  }

  lemma {:induction false} DecodeFromDefines(op: Opcode, ops: seq<Operand>, mapped: nat, acc: map<char, int>)
    requires DistinctNames(ops) && DecodeFrom(op, ops, mapped, acc).Some?
    ensures InDomain(ops, DecodeFrom(op, ops, mapped, acc).value)
    ensures DecodeFrom(op, ops, mapped, acc).value.Keys == acc.Keys + NamesOf(ops)
    ensures forall c :: c in acc && c !in NamesOf(ops) ==> DecodeFrom(op, ops, mapped, acc).value[c] == acc[c]
    decreases |ops|
  {
    if ops != [] {
      var o, rest := ops[0], ops[1..];
      var idx := Gather(mapped, MaskChar(op, o.name));
      var next := acc[o.name := Choices(o)[idx]];
      assert DecodeFrom(op, ops, mapped, acc) == DecodeFrom(op, rest, mapped, next);
      var r := DecodeFrom(op, rest, mapped, next).value;
      DistinctNamesTail(ops);
      DecodeFromDefines(op, rest, mapped, next);
      NamesOfSplit(ops);
      FirstNameUnique(ops);
      assert r[o.name] == Choices(o)[idx];
      forall k | 0 <= k < |ops| ensures ops[k].name in r && Check(ops[k], r[ops[k].name]) {
        if k > 0 { assert ops[k] == rest[k - 1]; }
      }
    }
  }

  lemma FirstNameUnique(ops: seq<Operand>)
    requires DistinctNames(ops) && ops != []
    ensures ops[0].name !in NamesOf(ops[1..])
  {
    forall j | 0 <= j < |ops| - 1 ensures ops[1..][j].name != ops[0].name {
      assert ops[1..][j] == ops[j + 1];
    }
  }

  /** `get_operand_map(map_operands(m)) == m` for a map with a domain value for every operand. */
  lemma DecodeEncode(op: Opcode, m: map<char, int>)
    requires WellFormed(op) && InDomain(op.operands, m)
    requires m.Keys == NamesOf(op.operands)
    ensures Decode(op, Encode(op, m)) == Some(m)
  {
    var x := Pack(op, m);
    EncodeJoins(op, m);
    assert Decode(op, Encode(op, m)) == DecodeFrom(op, op.operands, x, map[]);
    GatherAll(op, m);
    DecodeAll(op, op.operands, m, x, map[]);
    UpdateEmpty(m);
  }

  /** Updating the empty map with every key of `m` gives `m`. */
  lemma UpdateEmpty(m: map<char, int>)
    ensures Update(map[], m, m.Keys) == m
  {
  }

  /** Every operand's field reads back, from the packed value, the index of its value. */
  lemma GatherAll(op: Opcode, m: map<char, int>)
    requires WellFormed(op) && InDomain(op.operands, m)
    ensures forall k | 0 <= k < |op.operands| ::
      Gather(Pack(op, m), MaskChar(op, op.operands[k].name)) == Index(op.operands[k], m[op.operands[k].name])
  {
    forall k | 0 <= k < |op.operands|
      ensures Gather(Pack(op, m), MaskChar(op, op.operands[k].name)) == Index(op.operands[k], m[op.operands[k].name])
    {
      PackGather(op, m, k);
    }
  }

  /** The words of an encoding join back to the packed value. */
  lemma EncodeJoins(op: Opcode, m: map<char, int>)
    requires |op.pattern| % WordSize == 0 && InDomain(op.operands, m)
    ensures |Encode(op, m)| == NWords(op)
    ensures Join(Encode(op, m)[..NWords(op)]) == Pack(op, m)
  {
    var x := Pack(op, m);
    var n := NWords(op);
    PackBound(op, m);
    assert WordSize * n == |op.pattern|;
    JoinWords(x, n);
    assert Encode(op, m)[..n] == Encode(op, m);
  }

  /** The encoding sets its own fixed bits: `fixed_mask & word == fixed`. */
  lemma EncodeMatchesFixed(op: Opcode, m: map<char, int>)
    requires WellFormed(op) && InDomain(op.operands, m)
    ensures And(FixedMask(op), Join(Encode(op, m))) == Fixed(op)
  {
    var x := Pack(op, m);
    PackBound(op, m);
    assert WordSize * NWords(op) == |op.pattern|;
    JoinWords(x, NWords(op));
    forall i: nat ensures Bit(And(FixedMask(op), x), i) == Bit(Fixed(op), i) {
      BitAnd(FixedMask(op), x, i);
      FixedBits(op, i);
      if Bit(FixedMask(op), i) {
        forall k | 0 <= k < |op.operands| ensures !Bit(MaskChar(op, op.operands[k].name), i) {
          MaskCharBit(op, op.operands[k].name, i);
        }
        PackBitOutside(op, op.operands, m, Fixed(op), i);
      }
    }
    BitsEqual(And(FixedMask(op), x), Fixed(op));
  }

  /** The map `acc` updated with the values in `m` of the names in `names`. */
  function Update(acc: map<char, int>, m: map<char, int>, names: set<char>): map<char, int>
    requires names <= m.Keys
  {
    map k | k in acc.Keys + names :: if k in names then m[k] else acc[k]
  }

  lemma {:induction false} DecodeAll(op: Opcode, ops: seq<Operand>, m: map<char, int>, x: nat, acc: map<char, int>)
    requires InDomain(ops, m)
    requires forall k :: 0 <= k < |ops| ==> Gather(x, MaskChar(op, ops[k].name)) == Index(ops[k], m[ops[k].name])
    ensures NamesOf(ops) <= m.Keys
    ensures DecodeFrom(op, ops, x, acc) == Some(Update(acc, m, NamesOf(ops)))
    decreases |ops|
  {
    if ops == [] {
      assert NamesOf(ops) == {};
      assert Update(acc, m, {}) == acc;
    } else {
      var o := ops[0];
      var rest := ops[1..];
      InDomainTail(ops, m);
      forall k | 0 <= k < |rest|
        ensures Gather(x, MaskChar(op, rest[k].name)) == Index(rest[k], m[rest[k].name])
      {
        assert rest[k] == ops[k + 1];
      }
      NamesOfSplit(ops);
      assert Gather(x, MaskChar(op, o.name)) == Index(o, m[o.name]);
      DecodeAll(op, rest, m, x, acc[o.name := m[o.name]]);
      UpdateStep(acc, m, o.name, NamesOf(rest));
    }
  }

  lemma UpdateStep(acc: map<char, int>, m: map<char, int>, name: char, names: set<char>)
    requires {name} + names <= m.Keys
    ensures Update(acc[name := m[name]], m, names) == Update(acc, m, {name} + names)
  {
  }

  lemma InDomainTail(ops: seq<Operand>, m: map<char, int>)
    requires InDomain(ops, m) && ops != []
    ensures InDomain(ops[1..], m)
  {
    forall k | 0 <= k < |ops| - 1 ensures ops[1..][k] == ops[k + 1] { }
  }

  /** Every bit of the encoding lies inside the pattern. */
  lemma PackBound(op: Opcode, m: map<char, int>)
    requires InDomain(op.operands, m)
    ensures Pack(op, m) < Pow2(|op.pattern|)
  {
    forall i: nat | i >= |op.pattern| ensures !Bit(Pack(op, m), i) {
      forall k | 0 <= k < |op.operands| ensures !Bit(MaskChar(op, op.operands[k].name), i) {
        MaskCharBit(op, op.operands[k].name, i);
      }
      PackBitOutside(op, op.operands, m, Fixed(op), i);
      FixedBits(op, i);
    }
    BelowFromBits(Pack(op, m), |op.pattern|);
  }

  /** The encoding read under an operand's field gives that operand's index. */
  lemma PackGather(op: Opcode, m: map<char, int>, k: nat)
    requires WellFormed(op) && InDomain(op.operands, m) && k < |op.operands|
    ensures Gather(Pack(op, m), MaskChar(op, op.operands[k].name)) == Index(op.operands[k], m[op.operands[k].name])
  {
    var o := op.operands[k];
    var mask := MaskChar(op, o.name);
    var part := Part(op, o, m);
    forall i: nat | Bit(mask, i) ensures Bit(Pack(op, m), i) == Bit(part, i) {
      PackBitInside(op, op.operands, m, Fixed(op), k, i);
      MaskCharBit(op, o.name, i);
      FixedBits(op, i);
    }
    GatherAgrees(Pack(op, m), part, mask);
    MaskCharWidth(op, o.name);
    GatherScatter(Index(o, m[o.name]), mask);
  }

  /** Bits outside every operand field come from the starting value alone. */
  lemma {:induction false} PackBitOutside(op: Opcode, ops: seq<Operand>, m: map<char, int>, acc: nat, i: nat)
    requires InDomain(ops, m)
    requires forall k :: 0 <= k < |ops| ==> !Bit(MaskChar(op, ops[k].name), i)
    ensures Bit(PackFrom(op, ops, m, acc), i) == Bit(acc, i)
    decreases |ops|
  {
    if ops != [] {
      var rest := ops[1..];
      InDomainTail(ops, m);
      forall k | 0 <= k < |rest| ensures !Bit(MaskChar(op, rest[k].name), i) {
        assert rest[k] == ops[k + 1];
      }
      var part := Part(op, ops[0], m);
      BitOr(acc, part, i);
      ScatterBitInMask(Index(ops[0], m[ops[0].name]), MaskChar(op, ops[0].name), i);
      PackBitOutside(op, rest, m, Or(acc, part), i);
    }
  }

  /** Inside operand `ops[k]`'s field, only that operand's part adds bits. */
  lemma {:induction false} PackBitInside(op: Opcode, ops: seq<Operand>, m: map<char, int>, acc: nat, k: nat, i: nat)
    requires InDomain(ops, m) && DistinctNames(ops) && k < |ops|
    requires Bit(MaskChar(op, ops[k].name), i)
    ensures Bit(PackFrom(op, ops, m, acc), i) == (Bit(acc, i) || Bit(Part(op, ops[k], m), i))
    decreases |ops|
  {
    var rest := ops[1..];
    InDomainTail(ops, m);
    var part := Part(op, ops[0], m);
    assert PackFrom(op, ops, m, acc) == PackFrom(op, rest, m, Or(acc, part));
    BitOr(acc, part, i);
    MaskCharBit(op, ops[k].name, i);
    if k == 0 {
      forall j | 0 <= j < |rest| ensures !Bit(MaskChar(op, rest[j].name), i) {
        assert rest[j] == ops[j + 1];
        assert ops[0].name != ops[j + 1].name;
        MaskCharBit(op, rest[j].name, i);
      }
      PackBitOutside(op, rest, m, Or(acc, part), i);
    } else {
      assert ops[0].name != ops[k].name;
      MaskCharBit(op, ops[0].name, i);
      ScatterBitInMask(Index(ops[0], m[ops[0].name]), MaskChar(op, ops[0].name), i);
      DistinctNamesTail(ops);
      assert rest[k - 1] == ops[k];
      PackBitInside(op, rest, m, Or(acc, part), k - 1, i);
    }
  }

  // ---------------------------------------------------------------------------
  // Definition-time check
  // ---------------------------------------------------------------------------

  /** The letters of a pattern other than `0` and `1`. */
  function Letters(pattern: string): set<char>
  {
    (set c | c in pattern) - {'0', '1'}
  }

  /**
   * `Opcode.parse`: the length must be whole bytes, every letter of the
   * pattern must be an operand and every operand must occur in the pattern.
   */
  function ParseOpcode(pattern: string, operands: seq<Operand>): (r: Result<Opcode, DefinitionError>)
    ensures r.Ok? <==> |pattern| % ByteSize == 0 && Letters(pattern) == NamesOf(operands)
    ensures r.Ok? ==> r.value == Opcode(pattern, operands)
    ensures r.Err? ==> r.error.BadOpcodeLength? || r.error.NotInOperandsOpcode? || r.error.MissingFromOpcode?
  {
    if |pattern| % ByteSize != 0 then Err(BadOpcodeLength(|pattern|))
    else
      var names := NamesOf(operands);
      var letters := Letters(pattern);
      if letters - names != {} then Err(NotInOperandsOpcode(letters - names))
      else if names - letters != {} then Err(MissingFromOpcode(names - letters))
      else Ok(Opcode(pattern, operands))
  }
}
