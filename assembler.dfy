/**
 * The assembler of `avrsim/assembler.py`, over the instruction registry of
 * `avrzero/instruction.py`: every source line has its comment cut off at the
 * first `;`, a line with no words is skipped, the first word names the
 * candidate instructions, and each candidate in registry order either
 * contributes its encoding to the program or one diagnostic to `errors`.
 */
module Assembling {
  import opened Wrappers
  import opened Text
  import opened Syntax
  import opened Instructions

  /** Why a line was rejected: the message texts of `assemble`. */
  datatype Problem =
    | NoInstruction(name: string)   // "no instruction named ..."
    | Rejected(error: SyntaxError)  // `str(err)` of the `AVRSyntaxError`

  /** One entry of `errors`: the zero-based line number and the problem. */
  datatype Diagnostic = Diagnostic(line: nat, problem: Problem)

  /** What one line, or one run of candidates, adds to the program and to `errors`. */
  datatype Piece = Piece(words: seq<nat>, errors: seq<Diagnostic>)

  /**
   * The result of assembling a run of lines: the program, or `None` when
   * `assemble` raised part-way (an instruction of the set has no name to
   * compare), and the diagnostics recorded so far either way.
   */
  datatype Assembly = Assembly(program: Option<seq<nat>>, errors: seq<Diagnostic>)

  /**
   * The inner `for instruction in instructions` loop: each candidate in turn
   * extends the program with its encoding or records one `Rejected`
   * diagnostic for the line.
   */
  function Candidates(cands: seq<Instruction>, code: string, line: nat): (p: Piece)
    ensures forall d :: d in p.errors ==> d.line == line && d.problem.Rejected?
    ensures |p.errors| <= |cands|
    decreases |cands|
  {
    if cands == [] then Piece([], [])
    else
      var before := Candidates(cands[..|cands| - 1], code, line);
      match Encoding(cands[|cands| - 1], code)
      case Ok(words) => Piece(before.words + words, before.errors)
      case Err(e) => Piece(before.words, before.errors + [Diagnostic(line, Rejected(e))])
  }

  /**
   * One line, numbered `line`: `None` when `by_name` raises, otherwise what
   * the line adds.
   */
  function LineResult(list: seq<Instruction>, text: string, line: nat): (r: Option<Piece>)
    ensures r.Some? ==> forall d :: d in r.value.errors ==> d.line == line
  {
    var code := BeforeComment(text);
    var tokens := Split(code);
    if tokens == [] then Some(Piece([], []))
    else
      match Named(list, tokens[0])
      case None => None
      case Some(cands) =>
        if cands == [] then Some(Piece([], [Diagnostic(line, NoInstruction(tokens[0]))]))
        else Some(Candidates(cands, code, line))
  }

  /** `assemble` over `lines`, numbered from zero. */
  function AssembleLines(list: seq<Instruction>, lines: seq<string>): (r: Assembly)
    decreases |lines|
  {
    if lines == [] then Assembly(Some([]), [])
    else Then(AssembleLines(list, lines[..|lines| - 1]), LineResult(list, lines[|lines| - 1], |lines| - 1))
  }

  /** The assembly so far followed by one more line. */
  function Then(before: Assembly, next: Option<Piece>): Assembly
  {
    if before.program.None? then before
    else
      match next
      case None => Assembly(None, before.errors)
      case Some(p) => Assembly(Some(before.program.value + p.words), before.errors + p.errors)
  }

  /** Assembling one line more. */
  lemma AssembleNext(list: seq<Instruction>, lines: seq<string>, n: nat)
    requires n < |lines|
    ensures AssembleLines(list, lines[..n + 1]) == Then(AssembleLines(list, lines[..n]), LineResult(list, lines[n], n))
  {
    assert lines[..n + 1][..n] == lines[..n] && lines[..n + 1][n] == lines[n];
  }

  /**
   * Assembling more lines only appends: the diagnostics of the first `n`
   * lines begin those of all the lines, so does the program when there is
   * one, and once a line has raised nothing after it is looked at.
   */
  lemma {:induction false} AssemblePrefix(list: seq<Instruction>, lines: seq<string>, n: nat)
    requires n <= |lines|
    ensures AssembleLines(list, lines[..n]).errors <= AssembleLines(list, lines).errors
    ensures AssembleLines(list, lines).program.Some? ==>
      AssembleLines(list, lines[..n]).program.Some? &&
      AssembleLines(list, lines[..n]).program.value <= AssembleLines(list, lines).program.value
    ensures AssembleLines(list, lines[..n]).program.None? ==> AssembleLines(list, lines) == AssembleLines(list, lines[..n])
    decreases |lines|
  {
    if n == |lines| {
      assert lines[..n] == lines;
    } else {
      var init := lines[..|lines| - 1];
      assert init[..n] == lines[..n];
      AssemblePrefix(list, init, n);
    }
  }

  // ---------------------------------------------------------------------------
  // Properties of a line
  // ---------------------------------------------------------------------------

  /** Only the text before the first `;` of a line is assembled. */
  lemma CommentIgnored(list: seq<Instruction>, code: string, comment: string, n: nat)
    requires ';' !in code
    ensures LineResult(list, code + [';'] + comment, n) == LineResult(list, code, n)
  {
    assert code + [';'] + comment == code + ([';'] + comment);
    BeforeCommentCut(code, [';'] + comment);
    BeforeCommentCut(code, []);
    assert code + [] == code;
  }

  lemma {:induction false} BeforeCommentCut(code: string, rest: string)
    requires ';' !in code
    requires rest == [] || rest[0] == ';'
    ensures BeforeComment(code + rest) == code
    decreases |code|
  {
    if code != [] {
      assert (code + rest)[0] == code[0] && (code + rest)[1..] == code[1..] + rest;
      BeforeCommentCut(code[1..], rest);
    } else {
      assert code + rest == rest;
    }
  }

  /** A line with nothing but whitespace before its comment adds nothing. */
  lemma BlankLine(list: seq<Instruction>, lines: seq<string>, text: string)
    requires forall i :: 0 <= i < |BeforeComment(text)| ==> IsSpace(BeforeComment(text)[i])
    ensures AssembleLines(list, lines + [text]) == AssembleLines(list, lines)
  {
    var a := AssembleLines(list, lines);
    var all := lines + [text];
    assert all[..|all| - 1] == lines && all[|all| - 1] == text;
    assert AssembleLines(list, all) == Then(a, LineResult(list, text, |lines|));
    assert LineResult(list, text, |lines|) == Some(Piece([], [])) by {
      BlankLineResult(list, text, |lines|);
    }
    ThenNothing(a);
  }

  /** A line that adds no words and no diagnostics leaves the assembly as it was. */
  lemma ThenNothing(a: Assembly)
    ensures Then(a, Some(Piece([], []))) == a
  {
    if a.program.Some? {
      assert a.program.value + [] == a.program.value && a.errors + [] == a.errors;
    }
  }

  lemma BlankLineResult(list: seq<Instruction>, text: string, n: nat)
    requires forall i :: 0 <= i < |BeforeComment(text)| ==> IsSpace(BeforeComment(text)[i])
    ensures LineResult(list, text, n) == Some(Piece([], []))
  {
    SplitEmpty(BeforeComment(text));
  }

  /**
   * A first word that names no instruction of the set adds exactly one
   * diagnostic, `NoInstruction`, on the line's own number, and no words.
   */
  lemma UnknownMnemonic(list: seq<Instruction>, text: string, n: nat)
    requires Split(BeforeComment(text)) != []
    requires forall ins :: ins in list ==>
      InstructionName(ins).Some? && Lower(InstructionName(ins).value) != Lower(Split(BeforeComment(text))[0])
    ensures LineResult(list, text, n) == Some(Piece([], [Diagnostic(n, NoInstruction(Split(BeforeComment(text))[0]))]))
  {
    NamedNone(list, Split(BeforeComment(text))[0]);
  }

  lemma {:induction false} NamedNone(list: seq<Instruction>, name: string)
    requires forall ins :: ins in list ==> InstructionName(ins).Some? && Lower(InstructionName(ins).value) != Lower(name)
    ensures Named(list, name) == Some([])
    decreases |list|
  {
    if list != [] {
      assert forall ins :: ins in list[1..] ==> ins in list;
      NamedNone(list[1..], name);
    }
  }

  // ---------------------------------------------------------------------------
  // The candidates of a line
  // ---------------------------------------------------------------------------

  /** What one candidate adds to the program: its encoding of `code`, if any. */
  function AcceptedBy(ins: Instruction, code: string): seq<nat>
  {
    match Encoding(ins, code)
    case Ok(words) => words
    case Err(_) => []
  }

  /** What one candidate adds to `errors`: a diagnostic if it rejects `code`. */
  function RejectedBy(ins: Instruction, code: string, line: nat): seq<Diagnostic>
  {
    match Encoding(ins, code)
    case Ok(_) => []
    case Err(e) => [Diagnostic(line, Rejected(e))]
  }

  /** The encodings of the candidates that accept `code`, front to back. */
  function Accepted(cands: seq<Instruction>, code: string): seq<nat>
    decreases |cands|
  {
    if cands == [] then []
    else
      AcceptedBy(cands[0], code) + Accepted(cands[1..], code)
  }

  /** One diagnostic per candidate that rejects `code`, front to back. */
  function Rejections(cands: seq<Instruction>, code: string, line: nat): seq<Diagnostic>
    decreases |cands|
  {
    if cands == [] then []
    else
      RejectedBy(cands[0], code, line) + Rejections(cands[1..], code, line)
  }

  /**
   * The candidates are tried in order: the program gains the encodings of
   * those that accept the line, in registry order, and `errors` one
   * diagnostic for each that rejects it, in the same order.
   */
  lemma {:induction false} CandidatesInOrder(cands: seq<Instruction>, code: string, line: nat)
    ensures Candidates(cands, code, line) == Piece(Accepted(cands, code), Rejections(cands, code, line))
    decreases |cands|
  {
    if cands != [] {
      var init := cands[..|cands| - 1];
      var last := cands[|cands| - 1];
      assert init + [last] == cands;
      var before := Candidates(init, code, line);
      assert before == Piece(Accepted(init, code), Rejections(init, code, line)) by {
        CandidatesInOrder(init, code, line);
      }
      assert Accepted(cands, code) == Accepted(init, code) + AcceptedBy(last, code) by {
        AcceptedSnoc(init, last, code);
      }
      assert Rejections(cands, code, line) == Rejections(init, code, line) + RejectedBy(last, code, line) by {
        RejectionsSnoc(init, last, code, line);
      }
      CandidatesStep(before, last, code, line);
    }
  }

  /** The piece after one more candidate, in terms of `AcceptedBy` and `RejectedBy`. */
  lemma CandidatesStep(before: Piece, last: Instruction, code: string, line: nat)
    ensures (match Encoding(last, code)
      case Ok(words) => Piece(before.words + words, before.errors)
      case Err(e) => Piece(before.words, before.errors + [Diagnostic(line, Rejected(e))]))
      == Piece(before.words + AcceptedBy(last, code), before.errors + RejectedBy(last, code, line))
  {
    match Encoding(last, code)
    case Ok(words) => assert before.errors + [] == before.errors;
    case Err(e) => assert before.words + [] == before.words;
  }

  lemma {:induction false} AcceptedSnoc(cands: seq<Instruction>, last: Instruction, code: string)
    ensures Accepted(cands + [last], code) ==
      Accepted(cands, code) + AcceptedBy(last, code)
    decreases |cands|
  {
    if cands == [] {
      assert [] + [last] == [last] && [last][1..] == [];
    } else {
      assert (cands + [last])[0] == cands[0] && (cands + [last])[1..] == cands[1..] + [last];
      AcceptedSnoc(cands[1..], last, code);
    }
  }

  lemma {:induction false} RejectionsSnoc(cands: seq<Instruction>, last: Instruction, code: string, line: nat)
    ensures Rejections(cands + [last], code, line) ==
      Rejections(cands, code, line) + RejectedBy(last, code, line)
    decreases |cands|
  {
    if cands == [] {
      assert [] + [last] == [last] && [last][1..] == [];
    } else {
      assert (cands + [last])[0] == cands[0] && (cands + [last])[1..] == cands[1..] + [last];
      RejectionsSnoc(cands[1..], last, code, line);
    }
  }

  // ---------------------------------------------------------------------------
  // Properties of a whole source
  // ---------------------------------------------------------------------------

  /** Diagnostics in non-decreasing line order. */
  predicate InLineOrder(errors: seq<Diagnostic>)
  {
    forall i, j :: 0 <= i < j < |errors| ==> errors[i].line <= errors[j].line
  }

  /**
   * The diagnostics come in line order, and each names, counting from zero,
   * a line of the source.
   */
  lemma {:induction false} DiagnosticsInLineOrder(list: seq<Instruction>, lines: seq<string>)
    ensures InLineOrder(AssembleLines(list, lines).errors)
    ensures forall d :: d in AssembleLines(list, lines).errors ==> d.line < |lines|
    decreases |lines|
  {
    if lines != [] {
      var n := |lines| - 1;
      var init := lines[..n];
      DiagnosticsInLineOrder(list, init);
      var a := AssembleLines(list, init);
      var r := LineResult(list, lines[n], n);
      assert AssembleLines(list, lines) == Then(a, r);
      OrderedThen(a, r, n);
    }
  }

  /** One line's diagnostics, all naming line `n`, keep line order after those of earlier lines. */
  lemma OrderedThen(a: Assembly, r: Option<Piece>, n: nat)
    requires InLineOrder(a.errors) && forall d :: d in a.errors ==> d.line < n
    requires r.Some? ==> forall d :: d in r.value.errors ==> d.line == n
    ensures InLineOrder(Then(a, r).errors)
    ensures forall d :: d in Then(a, r).errors ==> d.line < n + 1
  {
    if a.program.Some? && r.Some? {
      OrderedThenLine(a.errors, r.value.errors, n);
    }
  }

  lemma OrderedThenLine(before: seq<Diagnostic>, added: seq<Diagnostic>, n: nat)
    requires InLineOrder(before) && forall d :: d in before ==> d.line < n
    requires forall d :: d in added ==> d.line == n
    ensures InLineOrder(before + added)
    ensures forall d :: d in before + added ==> d.line <= n
  {
    var all := before + added;
    forall i, j | 0 <= i < j < |all| ensures all[i].line <= all[j].line {
      if j < |before| {
        assert all[i] == before[i] && all[j] == before[j];
      } else if i < |before| {
        assert all[i] in before && all[j] in added;
      } else {
        assert all[i] in added && all[j] in added;
      }
    }
  }

  /** Every diagnostic is one that the line it names produced. */
  lemma {:induction false} DiagnosticsFromTheirLine(list: seq<Instruction>, lines: seq<string>)
    ensures forall d :: d in AssembleLines(list, lines).errors ==>
      d.line < |lines| && LineResult(list, lines[d.line], d.line).Some? && d in LineResult(list, lines[d.line], d.line).value.errors
    decreases |lines|
  {
    if lines != [] {
      var init := lines[..|lines| - 1];
      var n := |lines| - 1;
      DiagnosticsFromTheirLine(list, init);
      var a := AssembleLines(list, init);
      var r := LineResult(list, lines[n], n);
      assert AssembleLines(list, lines) == Then(a, r);
      forall d | d in AssembleLines(list, lines).errors
        ensures d.line < |lines| && LineResult(list, lines[d.line], d.line).Some? && d in LineResult(list, lines[d.line], d.line).value.errors
      {
        if d in a.errors {
          assert lines[d.line] == init[d.line];
        } else {
          assert r.Some? && d in r.value.errors;
        }
      }
    }
  }

  /** An assembly whose diagnostics follow those already recorded in `errors`. */
  function After(errors: seq<Diagnostic>, a: Assembly): Assembly
  {
    Assembly(a.program, errors + a.errors)
  }

  lemma AfterThen(errors: seq<Diagnostic>, a: Assembly, next: Option<Piece>)
    ensures Then(After(errors, a), next) == After(errors, Then(a, next))
  {
    if a.program.Some? && next.Some? {
      assert errors + a.errors + next.value.errors == errors + (a.errors + next.value.errors);
    }
  }

  /** `Assembler` */
  class Assembler {
    const source: seq<string>
    const instructionSet: InstructionSet
    var errors: seq<Diagnostic>

    /** `Assembler.__init__`: the source split into lines, no errors yet. */
    constructor (text: string, instructionSet: InstructionSet)
      ensures source == SplitLines(text) && this.instructionSet == instructionSet && errors == []
    {
      source := SplitLines(text);
      this.instructionSet := instructionSet;
      errors := [];
    }

    /**
     * `Assembler.assemble`: the program the source assembles to, or `None`
     * when it raised; the diagnostics are appended to those of earlier calls.
     */
    method Assemble() returns (program: Option<seq<nat>>)
      modifies this
      ensures program == AssembleLines(instructionSet.instructions, source).program
      ensures errors == old(errors) + AssembleLines(instructionSet.instructions, source).errors
    {
      ghost var list := instructionSet.instructions;
      ghost var start := errors;
      var words: seq<nat> := [];
      assert source[..0] == [];
      for n := 0 to |source|
        invariant instructionSet.instructions == list
        invariant After(start, AssembleLines(list, source[..n])) == Assembly(Some(words), errors)
      {
        var added := AssembleLine(source[n], n, words);
        assert After(start, AssembleLines(list, source[..n + 1])) == Assembly(added, errors) by {
          AssembleNext(list, source, n);
          AfterThen(start, AssembleLines(list, source[..n]), LineResult(list, source[n], n));
        }
        if added.None? {
          assert After(start, AssembleLines(list, source)) == Assembly(None, errors) by {
            AssemblePrefix(list, source, n + 1);
          }
          return None;
        }
        words := added.value;
      }
      assert source[..|source|] == source;
      program := Some(words);
    }

    /**
     * The body of the `for line_no, line` loop of `assemble` for one line,
     * with `words` the program so far: the program after the line, or `None`
     * when the line raised.
     */
    method AssembleLine(text: string, n: nat, words: seq<nat>) returns (next: Option<seq<nat>>)
      modifies this
      ensures Then(Assembly(Some(words), old(errors)), LineResult(instructionSet.instructions, text, n)) == Assembly(next, errors)
    {
      var code := BeforeComment(text);
      var tokens := Split(code);
      if tokens == [] {
        return Some(words + []);
      }
      var found := instructionSet.ByName(tokens[0]);
      if found.None? {
        return None;
      }
      var cands := found.value;
      if cands == [] {
        errors := errors + [Diagnostic(n, NoInstruction(tokens[0]))];
        return Some(words + []);
      }
      var added := TryCandidates(cands, code, n);
      return Some(words + added);
    }

    /** The inner `for instruction in instructions` loop of `assemble`. */
    method TryCandidates(cands: seq<Instruction>, code: string, n: nat) returns (words: seq<nat>)
      modifies this
      ensures words == Candidates(cands, code, n).words
      ensures errors == old(errors) + Candidates(cands, code, n).errors
    {
      words := [];
      for k := 0 to |cands|
        invariant words == Candidates(cands[..k], code, n).words
        invariant errors == old(errors) + Candidates(cands[..k], code, n).errors
      {
        assert cands[..k + 1][..k] == cands[..k] && cands[..k + 1][k] == cands[k];
        var encoded := StrToOpcode(cands[k], code);
        ghost var tried := Candidates(cands[..k], code, n);
        if encoded.Ok? {
          words := words + encoded.value;
        } else {
          errors := errors + [Diagnostic(n, Rejected(encoded.error))];
          assert errors == old(errors) + (tried.errors + [Diagnostic(n, Rejected(encoded.error))]);
        }
      }
      assert cands[..|cands|] == cands;
    }
  }
}
