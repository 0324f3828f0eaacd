# AVRZero core in Dafny

A model of the core of AVRZero, a small simulator for a subset of the AVR
instruction set, with proofs about it. The model covers four parts.

- **The instruction layer** (`avrzero/instruction.py`):
  - an `Operand` is a one-letter name with a domain;
  - a `Syntax` is the token list of an assembly form, with `parse` and `match`;
  - an `Opcode` is a bit pattern such as `000111rdddddrrrr`, with `binary_mask`,
    `map_int`, `get_int`, `map_operands`, `get_operand_map` and `parse`;
  - `Instruction` has `str_to_opcode` and `make`;
  - `InstructionSet` has `add`, `by_name` and `by_opcode`;
  - the twelve registered actions run from `adc` to `ret`.
- **The registers** (`avrzero/register.py`):
  - the 8-bit cell setter and its bit reads and writes;
  - the 16-bit pointer over two cells;
  - the status-register bit layout.
- **The machine** (`avrzero/machine.py`):
  - one data memory of `RAMEND + 1` cells, whose general registers, X, SP and
    SREG are fixed addresses;
  - the byte and multi-byte stack;
  - `reset`, `load_program` and `step`.
- **The assembler** (`avrsim/assembler.py`). It runs over the registry and
  `str_to_opcode` of `avrzero/instruction.py`. That file's `by_name` is the
  generator the assembler consumes.

Files and modules:

| file | module | contents |
|---|---|---|
| `wrappers.dfy` | `Wrappers` | `Option`, `Result` |
| `bits.dfy` | `Bits` | Python's `&`, `\|`, `&~`, `>>` and `bit_length` on non-negative integers, and their bit-by-bit laws |
| `codec.dfy` | `Codec` | `binary_mask`, `map_int`, `get_int` as loops, each proved equal to a recursive definition, with the round trips between them |
| `text.dfy` | `Text` | the `str` operations used: `lower`, `lstrip`, `isdigit`, `split`, `splitlines`, `partition(";")` |
| `operand.dfy` | `Operands` | `Operand`, `check`, `choices` |
| `syntax.dfy` | `Syntax` | `Syntax.parse` and `Syntax.match` as loops, with their specifications |
| `opcode.dfy` | `Opcodes` | masks, `map_operands`, `get_operand_map`, `Opcode.parse`, and the encode/decode round trip |
| `instruction.dfy` | `Instructions` | `str_to_opcode`, `make`, and the `InstructionSet` class |
| `registry.dfy` | `Registry` | the twelve registered definitions, proved to be what `make` builds; pairwise exclusivity of their fixed bits |
| `register.dfy` | `Registers` | the register cell and the pointer register |
| `state.dfy` | `MachineState` | machine state as a value: memory aliases, stack, `reset`, `load_program` |
| `actions.dfy` | `Actions` | the twelve actions as state transformers, with their stack and PC laws |
| `fetch.dfy` | `Fetching` | the fetch of `step` as written and as evidently intended |
| `machine.dfy` | `Machines` | one step as a function, and the `Machine` class |
| `assembler.dfy` | `Assembling` | the `Assembler` class and the specification of `assemble` |

Python's unbounded integers are `nat`. Every width is written out, in one of
three ways:

- a cell keeps its value modulo 256 (`CellValue`);
- a pointer keeps its value modulo 2^16 (`PointerWrite`);
- opcode words are 16 bits.

Where the source loops, the model is a method with a loop. Each such method is
proved equal to a recursive specification function, and the properties are
proved as lemmas about that function.

## Model

| member | source | states |
|---|---|---|
| Codec.BinaryMask | avrzero/instruction.py:188-195 | bit `i` of the mask is set exactly when the `i`-th character from the right of the pattern is one of the selected characters |
| Codec.MapInt | avrzero/instruction.py:197-208 | the loop computes `Scatter`: the low bits of the integer, in order, placed at the set bits of the mask |
| Codec.GetInt | avrzero/instruction.py:210-222 | the loop, scanning down from `bit_length() - 1`, computes `Gather`: the bits of `mapped` under the mask, read as a number |
| Codec.GatherScatter | avrzero/instruction.py:197-222 | `get_int` undoes `map_int` for every value below 2^(number of mask bits) |
| Codec.ScatterGather | avrzero/instruction.py:197-222 | `map_int` of `get_int` gives back exactly the masked bits of the input |
| Codec.ScatterInsideMask | avrzero/instruction.py:197-208 | `map_int` sets no bit outside the mask |
| Codec.ScatterDropsHighBits | avrzero/instruction.py:197-208 | bits of the integer beyond the mask's width do not reach the result |
| Codec.GatherBound | avrzero/instruction.py:210-222 | `get_int` is below 2^(number of mask bits) |
| Codec.GatherMasked | avrzero/instruction.py:210-222 | `get_int` depends only on the bits under the mask |
| Text.LStrip | avrzero/instruction.py:42 | `lstrip` removes exactly the leading whitespace: the result is a suffix that does not start with whitespace, and everything cut off was whitespace |
| Text.DigitRun | avrzero/instruction.py:31-33 | the `while string[0].isdigit()` loop takes exactly the leading run of ASCII digits |
| Text.DecimalOfDecimalString | avrzero/instruction.py:37 | `int()` of the decimal text of `n` is `n` |
| Text.BeforeComment | avrsim/assembler.py:23 | `partition(";")[0]` is a prefix of the line with no `;`, and the line continues with `;` where the prefix stops short |
| Text.Split | avrsim/assembler.py:24 | every word of `split()` is non-empty and holds no whitespace |
| Text.SplitEmpty | avrsim/assembler.py:24-26 | `split()` gives no words exactly when the text is all whitespace |
| Text.SplitGaps | avrsim/assembler.py:24 | the words of `split()` are the maximal whitespace-free runs of the text, in order: the text is the words with whitespace gaps around them, and every gap between two words is non-empty |
| Text.SplitLines | avrsim/assembler.py:8 | no line holds a line break, and only the empty source has no lines |
| Text.SplitLinesJoin | avrsim/assembler.py:8 | the lines of `splitlines()` are the text between the line breaks: each line followed by its terminator (one break character, or `\r\n` taken as one) gives back the source; only the last line may lack a terminator, and then it is not empty |
| Operands.Choices | avrzero/instruction.py:115-117 | `choices` is strictly increasing and holds exactly the values `check` accepts |
| Operands.Sorted | avrzero/instruction.py:117 | `sorted` of a set is increasing, with the same members and size |
| Operands.Index | avrzero/instruction.py:165 | `choices.index(value)` is a position of `choices` that holds `value` |
| Operands.IndexOfUnique | avrzero/instruction.py:165-184 | the index of the `k`-th choice is `k`, so `choices[choices.index(v)]` and `choices.index(choices[k])` are round trips |
| Operands.SpanIndex | avrzero/instruction.py:165 | for a `range(lo, hi)` domain the index of a value is `value - lo` |
| Syntax.TakeDigits | avrzero/instruction.py:30-33 | the digit loop splits the text into its leading digits and the rest |
| Syntax.Match | avrzero/instruction.py:26-52 | the token loop computes `MatchFrom`: the operand map, or the `AVRSyntaxError` with its kind |
| Syntax.MatchDefinesSlots | avrzero/instruction.py:26-52 | a successful match maps exactly the syntax's operand names, each to a non-negative number |
| Syntax.MatchFormat | avrzero/instruction.py:26-52 | for an unambiguous syntax, matching the text written from any values gives back exactly those values |
| Syntax.Parse | avrzero/instruction.py:54-89 | the character loop computes `ParseFrom`: the token list, or the `ValueError` |
| Syntax.ParseStep | avrzero/instruction.py:58-77 | each character's effect: an upper-case letter extends the token; a declared lower-case letter, whitespace or any other character first flushes the token, then appends an operand slot, a space marker or a one-character literal |
| Syntax.FindOperand | avrzero/instruction.py:66-73 | the `for … else` search finds an operand of that name, and fails only when no operand has it |
| Syntax.ParseSound | avrzero/instruction.py:54-89 | `parse` succeeds iff every lower-case letter names a declared operand and every operand is used; the tokens then hold every operand and no other operand |
| Opcodes.MaskCharBit | avrzero/instruction.py:157-159 | bit `i` of `mask_char(c)` is set iff the pattern has `c` at position `i` from the right |
| Opcodes.FixedBits | avrzero/instruction.py:149-155 | `fixed_mask` marks the `0`/`1` positions of the pattern, `fixed` the `1` positions |
| Opcodes.FixedInsideMask | avrzero/instruction.py:149-155 | `fixed` lies inside `fixed_mask` |
| Opcodes.LetterMasksDisjoint | avrzero/instruction.py:157-159 | the masks of two different letters share no bit |
| Opcodes.LetterOutsideFixed | avrzero/instruction.py:149-159 | an operand letter's mask shares no bit with `fixed_mask` |
| Opcodes.MaskCharWidth | avrzero/instruction.py:157-159 | the number of bits in `mask_char(c)` is the number of `c` in the pattern |
| Opcodes.JoinWords | avrzero/instruction.py:168-178 | joining the 16-bit words that `map_operands` splits a number into gives back the number |
| Opcodes.PackOperands | avrzero/instruction.py:161-166 | the first loop ORs every operand's choice index, spread over its field, into the fixed bits: the result is `Pack` |
| Opcodes.MapOperands | avrzero/instruction.py:161-172 | the loops compute `Encode`: `n_bits // 16` words, each below 2^16 |
| Opcodes.GetOperandMap | avrzero/instruction.py:174-186 | the loops compute `Decode`, and the caller's list loses its first `n_bits // 16` words |
| Opcodes.DecodeEncode | avrzero/instruction.py:161-186 | for a well-formed opcode and an operand map in the operands' domains, `get_operand_map(map_operands(m)) == m` |
| Opcodes.DecodeDefines | avrzero/instruction.py:174-186 | a successful `get_operand_map` maps exactly the opcode's operand names, each inside its domain |
| Opcodes.EncodeJoins | avrzero/instruction.py:161-172 | the words of `map_operands` join to the packed number |
| Opcodes.EncodeMatchesFixed | avrzero/instruction.py:161-172 | every encoding passes the `fixed_mask & opcode == fixed` test of `by_opcode` |
| Opcodes.PackBound | avrzero/instruction.py:161-166 | the packed number fits in the pattern's width |
| Opcodes.ParseOpcode | avrzero/instruction.py:133-140 | `Opcode.parse` succeeds iff the length is a multiple of 8 and the pattern's letters are exactly the operand names; otherwise it raises the matching error |
| Instructions.FirstInvalid | avrzero/instruction.py:287-290 | no operand is reported iff every operand is mapped into its domain; a reported operand is one that fails `check` |
| Instructions.StrToOpcode | avrzero/instruction.py:285-292 | computes `Encoding`: match, check every operand, map the operands |
| Instructions.EncodingDecodes | avrzero/instruction.py:285-292 | for a coherent instruction, the words of a successful `str_to_opcode` decode back to the matched operand map and pass the `by_opcode` test |
| Instructions.EncodingRejectsValue | avrzero/instruction.py:287-290 | "invalid value" is raised iff the line matches but some operand is outside its domain |
| Instructions.EncodingOfFormat | avrzero/instruction.py:285-292 | assembling the text written from in-domain values gives the encoding of those values |
| Instructions.MakeInstruction | avrzero/instruction.py:294-315 | computes `Make`: the duplicate-name loop, then `Syntax.parse` and `Opcode.parse` |
| Instructions.MakeSound | avrzero/instruction.py:294-315 | `make` succeeds iff names are distinct, the syntax parses and the pattern fits the operands; the instruction carries the given action, operands and pattern |
| Instructions.FitsAgrees | avrzero/instruction.py:348-349 | the masked comparison holds iff the number agrees with every `0`/`1` of the pattern |
| Instructions.Exclusive | avrzero/instruction.py:348-349 | two opcodes with opposite fixed bits at one position never both fit one number |
| Instructions.FirstFit | avrzero/instruction.py:347-350 | the position found is the first whose fixed bits fit; nothing fits when there is none |
| Instructions.InstructionSet.constructor | avrzero/instruction.py:322-326 | a new set holds no instructions |
| Instructions.InstructionSet.Add | avrzero/instruction.py:334-335 | `add` appends the instruction at the end |
| Instructions.InstructionSet.ByName | avrzero/instruction.py:337-340 | the loop computes `Named` |
| Instructions.InstructionSet.ByOpcode | avrzero/instruction.py:342-350 | the loops compute `Lookup`: the first instruction whose fixed bits fit the joined words |
| Instructions.NamedMembers | avrzero/instruction.py:337-340 | `by_name` yields exactly the instructions whose name equals the given one ignoring case |
| Instructions.NamedConcat | avrzero/instruction.py:337-340 | `by_name` over two runs of instructions yields the results for each run, in order |
| Registry.Registered | avrzero/instruction.py:353-485 | every action has its instruction in the default set |
| Registry.RegisteredMade | avrzero/instruction.py:356-485 | `make` applied to each literal definition builds exactly the registered instruction |
| Registry.RegisteredCoherent | avrzero/instruction.py:356-485 | every registered opcode has enough bits for its operands' domains; its syntax's slots are its operands; its syntax can be read back |
| Registry.Widths | avrzero/instruction.py:360-482 | CALL is the only two-word instruction of the default set |
| Registry.DistinctAgrees | avrzero/instruction.py:342-350 | no word fits two different one-word instructions of the default set |
| Registry.CallFirstWord | avrzero/instruction.py:407-412 | the first word of any CALL fits none of the one-word instructions |
| Registers.CellValue | avrzero/register.py:48-50 | the setter keeps a value below 256, congruent to the given one, and keeps byte values unchanged |
| Registers.ReadBit | avrzero/register.py:52-53 | `reg[idx]` is 1 iff bit `idx` is set |
| Registers.WriteBit | avrzero/register.py:55-58 | `reg[idx] = bit` sets bit `idx` to `bit` and keeps every other bit of the cell |
| Registers.PointerValue | avrzero/register.py:84-87 | the pointer value has the high cell as quotient and the low cell as remainder by 256 |
| Registers.PointerValueBits | avrzero/register.py:84-87 | that value equals `hi << 8 \| lo` |
| Registers.PointerWrite | avrzero/register.py:89-93 | after the setter the pointer reads back the written value modulo 2^16, negative values included |
| Registers.PointerWriteValue | avrzero/register.py:84-93 | writing a pointer the value it reads restores both cells |
| MachineState.Write | avrzero/machine.py:22-28 | writing a pointer changes only its two cells, and it then reads the value modulo 2^16 |
| MachineState.Store | avrzero/register.py:48-50 | `memory[a].val = v` sets cell `a` to `v` modulo 256 and leaves the other cells unchanged |
| MachineState.PcWrite | avrzero/machine.py:38 | the program counter keeps its value modulo 2^16 |
| MachineState.PushByteEffect | avrzero/machine.py:62-64 | `_push_stack` lowers SP by one modulo 2^16, so from 0 SP wraps to `RAMEND`, and stores the value modulo 256 at the new SP; SP reads the new top unless that top is one of SP's own cells; no other cell changes |
| MachineState.PushWrapsAtZero | avrzero/machine.py:62-64 | a push at SP = 0, reached by one pop after `reset`, leaves SP at `RAMEND` with the byte stored at `RAMEND` |
| MachineState.PushStackEffect | avrzero/machine.py:71-74 | `push_stack(val, n)` with room below SP: SP ends `n` lower, byte `i` of `val` (least significant first) lies at `SP - 1 - i`, and no other cell but SP's own changes |
| MachineState.PopByteEffect | avrzero/machine.py:66-69 | `_pop_stack` returns the cell at SP and raises SP by one modulo 2^16, so from `RAMEND`, as after `reset`, SP wraps to 0; no other cell changes |
| MachineState.PopLast | avrzero/machine.py:76-82 | popping `n + 1` bytes shifts the `n`-byte value left by 8 and ors in the next byte |
| MachineState.PushPop | avrzero/machine.py:71-82 | `pop_stack(n)` after `push_stack(v, n)` returns `v` modulo 2^(8n) and restores SP; only the `n` cells below SP change |
| MachineState.Reset | avrzero/machine.py:84-86 | `reset` makes SP read `RAMEND` and PC read 0; no other cell changes |
| MachineState.Loaded | avrzero/machine.py:88-93 | the flash holds `flash_size` words: the program, cut to that size, then zeros |
| Actions.SourceAddFlags | avrzero/instruction.py:364-372 | the status register after ADD/ADC as the lines are written, with `R` bound to SREG and `SREG.V` an attribute rather than bit 3 |
| Actions.AddAction | avrzero/instruction.py:356-396 | `Rd` becomes `(Rd + Rr + carry) mod 256`, with the carry 0 for ADD and SREG's C for ADC; SREG is `SourceAddFlags`; no other cell changes; PC advances by 1 |
| Actions.Bclr | avrzero/instruction.py:398-405 | bit `s` of SREG is cleared and the others kept; no other cell changes; PC advances by 1 |
| Actions.Call | avrzero/instruction.py:407-415 | `PC + 2` is pushed as two bytes and PC becomes `k` |
| Actions.Ld | avrzero/instruction.py:417-423 | `Rd` gets the register X points at, and only `Rd` changes; PC stays; X beyond the 32 registers raises |
| Actions.LdPostInc | avrzero/instruction.py:425-432 | as `Ld`, then X is incremented modulo 2^16; PC stays |
| Actions.LdPreDec | avrzero/instruction.py:434-441 | X is decremented modulo 2^16 first, then `Rd` is loaded through it; X beyond the 32 registers raises after the decrement; PC stays |
| Actions.Ldi | avrzero/instruction.py:443-451 | `Rd` becomes `k`, and only `Rd` changes; PC advances by 1 |
| Actions.Nop | avrzero/instruction.py:453-459 | memory unchanged; PC advances by 1 |
| Actions.Pop | avrzero/instruction.py:461-468 | `Rd` gets the popped byte, the stack is popped once, and PC advances by 1 |
| Actions.Push | avrzero/instruction.py:470-477 | `Rd` is pushed as one byte; PC advances by 1 |
| Actions.Ret | avrzero/instruction.py:479-485 | two bytes are popped, and PC becomes their value |
| Actions.Execute | avrzero/instruction.py:356-485 | only the three LD forms can raise; every outcome is a valid state |
| Actions.SuppliedValues | avrzero/instruction.py:356-464 | a decoded operand map gives every action its operands within their declared ranges |
| Actions.Advances | avrzero/instruction.py:356-485 | PC advances by 1 for ADC, ADD, BCLR, LDI, NOP, POP and PUSH; it stays for the LD forms; CALL sets it to `k` |
| Actions.PushThenPop | avrzero/instruction.py:461-477 | `PUSH Rd` then `POP Re` copies `Rd` into `Re` and restores SP; only `Re` and the stack cell change; PC advances by 2 |
| Actions.CallThenRet | avrzero/instruction.py:407-485 | RET after CALL returns to the instruction after the CALL and restores SP; only the two stack cells change |
| Actions.CallRetStack | avrzero/instruction.py:407-485 | RET after CALL pops the two bytes CALL pushed |
| Fetching.Slice | avrzero/machine.py:96 | a Python slice of the flash: its length is clipped at the end, and it holds the flash words from `lo` |
| Fetching.SourceFetch | avrzero/machine.py:95-100 | the fetch as written: what it selects is in the set and fits the one- or two-word slice at PC; nothing is selected only when no instruction fits either slice |
| Fetching.LookupAgrees | avrzero/instruction.py:342-350 | what `by_opcode` returns fits the joined words, and it returns nothing only when no instruction fits |
| Fetching.Fetch | avrzero/machine.py:95-102 | the sized fetch: it is past the end exactly when PC is; what it selects lies within the flash at PC and has as many words as it was fetched from |
| Fetching.FetchEncoded | avrzero/machine.py:95-104 | the sized fetch of the encoding of any registered instruction with in-domain operands selects that instruction, and its operands decode back to the map encoded |
| Fetching.CallWords | avrzero/instruction.py:407-411 | `CALL k` encodes to two words, the second being `k` modulo 2^16 |
| Fetching.SourceFetchCall | avrzero/machine.py:95-100 | as written, the two words of a CALL are fetched as the first of ADC, ADD and BCLR that fits the second word, and as CALL only when none does; the sized fetch always finds the CALL |
| Fetching.SourceFetchMisreadsCall | avrzero/machine.py:95-100 | as written, a CALL whose second word is 3072–4095 is fetched as ADD; the sized fetch finds the CALL |
| Fetching.SourceFetchMisreadsCall3072 | avrzero/machine.py:95-100 | as written, the words `0x940E 0x0C00` (`CALL 3072`) are fetched as ADD |
| Fetching.SourceFetchMisreadsCallAsBclr | avrzero/machine.py:95-100 | as written, the words `0x940E 0x9488` (`CALL 38024`) are fetched as BCLR; the sized fetch finds the CALL |
| Fetching.SourceFetchMisreadsUnmatched | avrzero/machine.py:95-100 | as written, the words `0xFFFF 0x0000` are fetched as NOP, although no instruction fits `0xFFFF`; the sized fetch finds nothing |
| Fetching.SourceFetchPastEnd | avrzero/machine.py:96-103 | past the end of the flash both slices are empty, the empty number fits NOP, and its operand map cannot be read from no words |
| Machines.Run | avrzero/machine.py:103-104 | applies the action to the decoded operand map; a failed decode raises `IndexError` |
| Machines.Dispatch | avrzero/machine.py:103-104 | a selected instruction is decoded from its words and its action run; it never reports "no match" |
| Machines.SourceStepFrom | avrzero/machine.py:95-104 | `step` over the fetch as written: it does nothing exactly when no instruction fits either slice |
| Machines.StepFrom | avrzero/machine.py:95-104 | `step` over the sized fetch: past the end it raises and changes nothing; it does nothing exactly when no instruction fits |
| Machines.StepEncoded | avrzero/machine.py:95-104 | stepping over the encoding of any registered instruction runs that instruction's action on its operands |
| Machines.SourceStepPastEnd | avrzero/machine.py:95-104 | past the end of the flash both steps raise `IndexError` with the state unchanged |
| Machines.SourceStepCall | avrzero/machine.py:95-104 | as written, a CALL runs as the instruction its second word fits among ADC, ADD and BCLR, with operands decoded from its first word, and as CALL only when none fits; the sized step always runs the CALL |
| Machines.SourceStepMisreadsCall | avrzero/machine.py:95-104 | as written, a CALL whose second word is 3072–4095 runs as ADD and PC advances by 1; the sized step runs the CALL |
| Machines.SourceStepMisreadsUnmatched | avrzero/machine.py:95-104 | as written, the words `0xFFFF 0x0000` run as NOP and PC advances by 1; the sized step does nothing and keeps the state |
| Machines.Machine.constructor | avrzero/machine.py:10-44 | the cells start at the power-on contents, the flash is all zeros, and `reset` has run |
| Machines.Machine.PushByte | avrzero/machine.py:62-64 | `_push_stack` updates the memory as `MachineState.PushByte`; PC and flash unchanged |
| Machines.Machine.PopByte | avrzero/machine.py:66-69 | `_pop_stack` returns the byte and memory of `MachineState.PopByte` |
| Machines.Machine.PushStack | avrzero/machine.py:71-74 | the loop pushes the low byte and shifts `n` times, giving `MachineState.PushStack` |
| Machines.Machine.PopStack | avrzero/machine.py:76-82 | the loop shifts and ors in `n` popped bytes, giving `MachineState.PopStack` |
| Machines.Machine.Reset | avrzero/machine.py:84-86 | the state becomes `MachineState.Reset` of the old state |
| Machines.Machine.LoadProgram | avrzero/machine.py:88-93 | the flash becomes `Loaded(program, flash_size)`; memory and PC unchanged |
| Machines.Machine.Step | avrzero/machine.py:95-104 | the new state and status are those of `StepFrom` on the old state |
| Assembling.Candidates | avrsim/assembler.py:32-36 | every diagnostic of a line's candidates carries that line's number and a rejected syntax; there are no more of them than candidates |
| Assembling.LineResult | avrsim/assembler.py:23-36 | every diagnostic a line adds carries that line's number |
| Assembling.Assembler.constructor | avrsim/assembler.py:7-10 | the source is split into lines, and there are no errors yet |
| Assembling.Assembler.Assemble | avrsim/assembler.py:20-38 | the returned program is that of `AssembleLines`, and `errors` is the old errors followed by its diagnostics |
| Assembling.Assembler.AssembleLine | avrsim/assembler.py:23-36 | one pass of the line loop extends the program and the errors as `LineResult` says, or raises |
| Assembling.Assembler.TryCandidates | avrsim/assembler.py:32-36 | the candidate loop extends the program and the errors as `Candidates` says |
| Assembling.AssemblePrefix | avrsim/assembler.py:20-38 | errors only grow: the diagnostics of the first `n` lines begin those of the whole source, and so does the program when there is one; after a line raises nothing more is read |
| Assembling.CommentIgnored | avrsim/assembler.py:23 | only the text before the first `;` matters: appending `;` and any comment leaves the line's effect unchanged |
| Assembling.BlankLine | avrsim/assembler.py:24-26 | a line with only whitespace before its comment adds no words and no diagnostics |
| Assembling.UnknownMnemonic | avrsim/assembler.py:27-31 | a first word naming no instruction adds exactly one "no instruction" diagnostic with the line's number, and no words |
| Assembling.CandidatesInOrder | avrsim/assembler.py:32-36 | the candidates are tried in registry order: the program gains the encodings of those that accept, and `errors` one diagnostic per rejecting candidate, both in that order |
| Assembling.DiagnosticsInLineOrder | avrsim/assembler.py:22-36 | the diagnostics are in non-decreasing line order, and each carries a zero-based line number within the source |
| Assembling.DiagnosticsFromTheirLine | avrsim/assembler.py:22-36 | each diagnostic is one the line it names produced |

## Left out

- `RAMEND` is fixed at its default `0xFFFF`. The data memory is always 65536 cells.
- The power-on contents of the cells are random in the source. Here they are a
  constructor parameter (`powerOn`).
- MachineState.PushStackEffect and MachineState.PushPop: both assume the `n`
  stack cells lie above SREG and SP's own cells (`Room`). `PushStack` still
  models a push that wraps below 0 or runs into SP's cells. The lemmas just
  do not describe it. `PushByteEffect` describes every single-byte push,
  wrap included.
- Machines.Machine.Step: the class runs the sized fetch of `StepFrom`, not the
  fetch as written, so it departs from the source wherever the two fetches
  differ (see "## Findings"). These are CALLs whose second word fits ADC, ADD
  or BCLR, and any first word that fits nothing followed by a word that fits a
  one-word instruction. In both cases the source runs the one-word
  instruction. `Machine.Step` runs the CALL in the first case and reports no
  match in the second. The as-written step is `SourceStepFrom`.
- Machines.Machine.constructor: the source's `Machine.__init__` has two slips,
  and the model builds the machine the lines evidently mean.
  - It passes `win=` to `Register`, whose constructor has no such parameter.
    As written, every `Machine()` call raises `TypeError`.
  - It builds each flash cell as `IntVar(win, 0x0000)`, but `IntVar` takes
    the value first (avrzero/variable.py), so every cell would hold `win`,
    not 0. The model starts the flash at all zeros.
- Machines.Machine.LoadProgram: the program words are `nat`. The source takes
  any Python int, so a negative word would reach the `&` tests of `by_opcode`.
- Several parts are fixed to the default instruction set:
  - the machine's `instruction_set` is the twelve registered instructions (`Registry.Default`);
  - the `belong_to` argument of `make` is left out;
  - the registrations are the single static set `Default`.
- The assembler takes its instruction set as a constructor argument.
  - The source's default argument is left out.
  - `avrsim/assembler.py` imports `InstructionSet` from `avrsim.instruction`.
    The model uses the `avrzero` registry and `str_to_opcode` instead.
    `avrsim/instruction.py` is not part of this model.
- The model ignores the source's `TypeError` checks. These cover
  `isinstance` tests on names, choices and actions. The Dafny types already
  exclude what they reject.
- `Opcode.__init__` checks only that the pattern length is a multiple of 8.
  Packing, however, uses 16-bit words.
  - `ParseOpcode` follows the source's check.
  - The codec lemmas assume whole 16-bit words (`WellFormed`).
  - Every registered pattern is 16 or 32 bits.
- Some text handling is narrower than Python's:
  - digits and letters are ASCII;
  - `isspace` covers the ASCII whitespace characters and the separators listed in `Text.IsSpace`;
  - `casefold` is ASCII lower-casing.
- Error messages are modelled by their kind and data, not their wording. This
  covers `AVRSyntaxError`, `ValueError` and the assembler's message strings.
  - In `assemble`, a `str(err)` entry is the `SyntaxError` value itself.
- The `__str__` and `__repr__` methods, `@cache` and `cached_property` are left
  out. Memoisation does not change any result.
- The flag writes of ADD and ADC (`avrzero/instruction.py:364-372`, 385-393)
  are modelled exactly as written (`Actions.SourceAddFlags`), not as AVR flags.
  - `R` is bound to SREG.
  - `SREG.V` is a plain attribute, so it does not write bit 3.
  - `not R` is always false.
- Register aliasing (`machine.R`, `X`, `SP`, `SREG` as views of `memory`) is
  modelled by fixed addresses into one memory sequence, not by shared
  `Register` objects.
- The actions are functions from state to state. `Machine.Step` applies them
  to the object's fields.
- Syntax.Parse: the model compares operands by value. The source's check for
  operands missing from the syntax is a set difference over `Operand` objects,
  which compare by identity. With two distinct but equal operand objects, for
  example two `Operand("d", range(0, 32))`, the source raises `ValueError`
  and the model accepts. `make` rejects duplicate names before it calls
  `parse`, so no registration reaches this case.
- `Syntax.parse` and `Opcode.parse` are proved about in general, and each
  literal registration is proved to be built by `make`. The GUI hooks and the
  `win` display variable are left out.
- An `IndexError` escaping `step` is a `Raised` status carrying the state the
  action left. The model covers three cases:
  - an operand index past `choices` while decoding;
  - too few words past the end of the flash;
  - `LD Rd, X`, `LD Rd, X+` or `LD Rd, -X` with X at 32 or above, which indexes
    `machine.R` past its 32 registers (avrzero/instruction.py:423, 431, 441).
    `LD Rd, -X` lowers X before the read, so its state has X already lowered.
  - Python exceptions are otherwise not modelled.
- `Assembling.Assembler.Assemble` covers only one failure: an instruction of
  the set whose syntax has no name. That makes `by_name` raise, and the model
  ends with `None`. No other exception that could escape `assemble` is modelled.

## Findings

| source | as written | input that shows it | evidently intended | confidence | as-written member | corrected member |
|---|---|---|---|---|---|---|
| avrzero/machine.py:95-100 | `step` looks up the two-word slice with `by_opcode`, which is avrzero/instruction.py:342-350. That tests every instruction, one-word ones included, against the joined 32-bit number. For a one-word instruction the test sees only the low 16 bits, which are the second word. So a CALL whose second word fits ADC, ADD or BCLR, the instructions registered before CALL, is run as that instruction. Its operands are decoded from the first word. The same holds for any first word that fits nothing: when the word after it fits a one-word instruction, the pair runs as that instruction, with operands from the first word, and PC advances by 1. | `CALL 3072`, the words `0x940E 0x0C00`. The first word fits nothing. The joined number `0x940E0C00` fits ADD, which comes before CALL in the set. It runs as `ADD R0, R14`, whose operands come from `0x940E`, and PC advances by 1 instead of jumping. The next step then runs the second word, `ADD R0, R0`. The same happens for every CALL whose second word, the target modulo 2^16, is 7168–8191 (ADC), 3072–4095 (ADD) or `0x9488 + 16·s`, 38024–38136 (BCLR, run as `BCLR 0`). Outside CALL: the words `0xFFFF 0x0000`. No instruction fits `0xFFFF`, but the joined `0xFFFF0000` fits NOP on its low word, so NOP runs and PC becomes PC + 1. By the same reasoning, with `0xE005` as the second word an LDI runs instead, with operands from `0xFFFF`. | A fetch of `n` words selects among the `n`-word instructions only. Every encoded instruction is then fetched as itself. | not executed | Fetching.SourceFetchCall, Fetching.SourceFetchMisreadsCall3072, Fetching.SourceFetchMisreadsCallAsBclr, Fetching.SourceFetchMisreadsUnmatched, Machines.SourceStepCall, Machines.SourceStepMisreadsUnmatched | Fetching.Fetch, Fetching.FetchEncoded, Machines.StepFrom, Machines.StepEncoded, Machines.Machine.Step |
