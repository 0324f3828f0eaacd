/**
 * `Syntax` of `avrzero/instruction.py`: the token list an instruction's
 * assembly form is written in, `Syntax.parse` that builds it from a
 * definition such as "ADC Rd, Rr", and `Syntax.match` that reads a source
 * line against it into an operand map.
 */
module Syntax {
  import opened Wrappers
  import opened Text
  import opened Operands

  /** A literal run of text, the mandatory-whitespace marker, or an operand slot. */
  datatype Token = Lit(text: string) | Space | Opnd(operand: Operand)

  /** The ways `Syntax.match` and `Instruction.str_to_opcode` raise `AVRSyntaxError`. */
  datatype SyntaxError =
    | ExpectDigits(rest: string)
    | ExpectSpace(rest: string)
    | ExpectLiteral(token: string, rest: string)
    | UnexpectedAtEnd(rest: string)
    | InvalidValue(operand: char)

  /** The `ValueError`s raised while an instruction is being defined. */
  datatype DefinitionError =
    | DuplicateOperandNames
    | NotInOperands(letter: char)
    | MissingFromSyntax(names: set<char>)
    | BadOpcodeLength(length: nat)
    | NotInOperandsOpcode(names: set<char>)
    | MissingFromOpcode(names: set<char>)

  /** The names of the operand slots of a token list. */
  function SlotNames(tokens: seq<Token>): set<char>
  {
    set i | 0 <= i < |tokens| && tokens[i].Opnd? :: tokens[i].operand.name
  }

  /**
   * `Syntax.name`: the first token as text; `None` when there is no first
   * token or it is an operand slot, which have no `casefold`.
   */
  function Name(tokens: seq<Token>): Option<string>
  {
    if tokens == [] then None
    else
      match tokens[0]
      case Lit(t) => Some(t)
      case Space => Some(" ")
      case Opnd(_) => None
  }

  // ---------------------------------------------------------------------------
  // Matching a source line
  // ---------------------------------------------------------------------------

  /**
   * What `Syntax.match` computes once the tokens before `tokens` have been
   * consumed, leaving `s` unread and `acc` as the operand map so far.
   */
  function MatchFrom(tokens: seq<Token>, s: string, acc: map<char, int>): (r: Result<map<char, int>, SyntaxError>)
    ensures r.Err? ==> !r.error.InvalidValue?
    decreases |tokens|
  {
    if tokens == [] then
      if s != [] && !AllSpace(s) then Err(UnexpectedAtEnd(s)) else Ok(acc)
    else
      match tokens[0]
      case Opnd(o) =>
        var n := DigitRun(s);
        if n == 0 then Err(ExpectDigits(s))
        else MatchFrom(tokens[1..], s[n..], acc[o.name := Decimal(s[..n])])
      case Space =>
        if s == [] || !IsSpace(s[0]) then Err(ExpectSpace(s))
        else MatchFrom(tokens[1..], LStrip(s), acc)
      case Lit(t) =>
        if !StartsWithIgnoreCase(s, t) then Err(ExpectLiteral(t, s))
        else MatchFrom(tokens[1..], s[|t|..], acc)
  }

  /** `Syntax.match` */
  method Match(tokens: seq<Token>, line: string) returns (r: Result<map<char, int>, SyntaxError>)
    ensures r == MatchFrom(tokens, line, map[])
  {
    var operandMap: map<char, int> := map[];
    var s := line;
    for i := 0 to |tokens|
      invariant MatchFrom(tokens, line, map[]) == MatchFrom(tokens[i..], s, operandMap)
    {
      assert tokens[i..][0] == tokens[i] && tokens[i..][1..] == tokens[i + 1..];
      match tokens[i]
      case Opnd(o) =>
        var numStr;
        numStr, s := TakeDigits(s);
        if numStr == [] {
          return Err(ExpectDigits(s));
        }
        operandMap := operandMap[o.name := Decimal(numStr)];
      case Space =>
        if s == [] || !IsSpace(s[0]) {
          return Err(ExpectSpace(s));
        }
        s := LStrip(s);
      case Lit(t) =>
        if !StartsWithIgnoreCase(s, t) {
          return Err(ExpectLiteral(t, s));
        }
        s := s[|t|..];
    }
    if s != [] && !AllSpace(s) {
      return Err(UnexpectedAtEnd(s));
    }
    return Ok(operandMap);
  }

  /** The inner loop of `Syntax.match`: move the leading digits of `s` into `digits`. */
  method TakeDigits(s: string) returns (digits: string, rest: string)
    ensures digits == s[..DigitRun(s)] && rest == s[DigitRun(s)..]
  {
    digits, rest := "", s;
    while rest != [] && IsDigit(rest[0])
      invariant digits + rest == s
      invariant DigitRun(s) == |digits| + DigitRun(rest)
    {
      digits := digits + [rest[0]];
      rest := rest[1..];
    }
    assert digits == s[..|digits|];
  }

  /**
   * A successful match gives a value to every operand slot and to nothing
   * else, and every value is a non-negative number (only digits are read).
   */
  lemma {:induction false} MatchDefinesSlots(tokens: seq<Token>, s: string, acc: map<char, int>)
    requires MatchFrom(tokens, s, acc).Ok?
    requires forall k :: k in acc ==> acc[k] >= 0
    ensures MatchFrom(tokens, s, acc).value.Keys == acc.Keys + SlotNames(tokens)
    ensures forall k :: k in MatchFrom(tokens, s, acc).value ==> MatchFrom(tokens, s, acc).value[k] >= 0
    decreases |tokens|
  {
    if tokens != [] {
      assert SlotNames(tokens) == SlotNames(tokens[..1]) + SlotNames(tokens[1..]) by {
        SlotNamesSplit(tokens);
      }
      match tokens[0]
      case Opnd(o) =>
        var n := DigitRun(s);
        MatchDefinesSlots(tokens[1..], s[n..], acc[o.name := Decimal(s[..n])]);
      case Space =>
        MatchDefinesSlots(tokens[1..], LStrip(s), acc);
      case Lit(t) =>
        MatchDefinesSlots(tokens[1..], s[|t|..], acc);
    }
  }

  lemma SlotNamesSplit(tokens: seq<Token>)
    requires tokens != []
    ensures SlotNames(tokens) == SlotNames(tokens[..1]) + SlotNames(tokens[1..])
  {
    forall c | c in SlotNames(tokens) ensures c in SlotNames(tokens[..1]) + SlotNames(tokens[1..]) {
      var i :| 0 <= i < |tokens| && tokens[i].Opnd? && tokens[i].operand.name == c;
      if i > 0 { assert tokens[1..][i - 1] == tokens[i]; }
    }
    forall c | c in SlotNames(tokens[1..]) ensures c in SlotNames(tokens) {
      var i :| 0 <= i < |tokens[1..]| && tokens[1..][i].Opnd? && tokens[1..][i].operand.name == c;
      assert tokens[i + 1] == tokens[1..][i];
    }
  }

  // ---------------------------------------------------------------------------
  // Writing a line in an instruction's syntax, and reading it back
  // ---------------------------------------------------------------------------

  /**
   * The source line that spells `tokens` with the given operand values:
   * literals as written, one blank for each whitespace marker, values in
   * decimal (the rendering of `Syntax.__str__` with values for names).
   */
  function Format(tokens: seq<Token>, values: map<char, nat>): string
    requires SlotNames(tokens) <= values.Keys
    decreases |tokens|
  {
    if tokens == [] then []
    else
      SlotNamesSplit(tokens);
      assert tokens[0].Opnd? ==> tokens[0].operand.name in SlotNames(tokens[..1]);
      FormatToken(tokens[0], values) + Format(tokens[1..], values)
  }

  function FormatToken(t: Token, values: map<char, nat>): string
    requires t.Opnd? ==> t.operand.name in values
  {
    match t
    case Lit(text) => text
    case Space => " "
    case Opnd(o) => DecimalString(values[o.name])
  }

  /**
   * A token list whose formatted lines read back unambiguously: no empty
   * literal, no slot directly followed by a slot or by a literal starting
   * with a digit, and no whitespace marker directly followed by another or
   * by a literal starting with whitespace.
   */
  predicate Unambiguous(tokens: seq<Token>)
  {
    (forall i :: 0 <= i < |tokens| && tokens[i].Lit? ==> tokens[i].text != [])
    && (forall i :: 0 <= i < |tokens| - 1 && tokens[i].Opnd? ==>
          !tokens[i + 1].Opnd? && !(tokens[i + 1].Lit? && IsDigit(tokens[i + 1].text[0])))
    && (forall i :: 0 <= i < |tokens| - 1 && tokens[i].Space? ==>
          !tokens[i + 1].Space? && !(tokens[i + 1].Lit? && IsSpace(tokens[i + 1].text[0])))
  }

  /** The map `acc` updated with the values of the names in `names`. */
  function Override(acc: map<char, int>, values: map<char, nat>, names: set<char>): map<char, int>
    requires names <= values.Keys
  {
    map k | k in acc.Keys + names :: if k in names then values[k] as int else acc[k]
  }

  /**
   * Reading back a formatted line gives back exactly the values written:
   * `match(format(tokens, v)) == v`.
   */
  lemma MatchFormat(tokens: seq<Token>, values: map<char, nat>)
    requires Unambiguous(tokens)
    requires values.Keys == SlotNames(tokens)
    ensures MatchFrom(tokens, Format(tokens, values), map[]) == Ok(map k | k in values :: values[k] as int)
  {
    MatchFormatFrom(tokens, values, map[]);
    assert Override(map[], values, SlotNames(tokens)) == map k | k in values :: values[k] as int;
  }

  lemma {:induction false} MatchFormatFrom(tokens: seq<Token>, values: map<char, nat>, acc: map<char, int>)
    requires Unambiguous(tokens)
    requires SlotNames(tokens) <= values.Keys
    ensures MatchFrom(tokens, Format(tokens, values), acc) == Ok(Override(acc, values, SlotNames(tokens)))
    decreases |tokens|
  {
    if tokens == [] {
      assert SlotNames(tokens) == {};
      assert Override(acc, values, {}) == acc;
    } else {
      SlotNamesSplit(tokens);
      var rest := tokens[1..];
      assert Unambiguous(rest) by {
        forall i | 0 <= i < |rest| ensures rest[i] == tokens[i + 1] { }
      }
      var tail := Format(rest, values);
      FormatStart(tokens, values);
      match tokens[0]
      case Opnd(o) =>
        var v := values[o.name];
        assert SlotNames(tokens[..1]) == {o.name};
        MatchOpndPrefix(tokens, DecimalString(v), tail, acc);
        DecimalOfDecimalString(v);
        MatchFormatFrom(rest, values, acc[o.name := v as int]);
        OverrideAdd(acc, values, o.name, SlotNames(rest));
      case Space =>
        assert SlotNames(tokens[..1]) == {};
        assert Format(tokens, values) == " " + tail;
        MatchSpacePrefix(tokens, tail, acc);
        MatchFormatFrom(rest, values, acc);
        assert SlotNames(tokens) == SlotNames(rest);
      case Lit(t) =>
        assert SlotNames(tokens[..1]) == {};
        assert Format(tokens, values) == t + tail;
        MatchLitPrefix(tokens, tail, acc);
        MatchFormatFrom(rest, values, acc);
        assert SlotNames(tokens) == SlotNames(rest);
    }
  }

  lemma MatchOpndPrefix(tokens: seq<Token>, digits: string, tail: string, acc: map<char, int>)
    requires tokens != [] && tokens[0].Opnd?
    requires digits != [] && forall i :: 0 <= i < |digits| ==> IsDigit(digits[i])
    requires tail == [] || !IsDigit(tail[0])
    ensures MatchFrom(tokens, digits + tail, acc)
         == MatchFrom(tokens[1..], tail, acc[tokens[0].operand.name := Decimal(digits)])
  {
    var s := digits + tail;
    DigitRunStops(digits, tail);
    assert s[..|digits|] == digits && s[|digits|..] == tail;
  }

  lemma MatchSpacePrefix(tokens: seq<Token>, tail: string, acc: map<char, int>)
    requires tokens != [] && tokens[0].Space?
    requires tail == [] || !IsSpace(tail[0])
    ensures MatchFrom(tokens, " " + tail, acc) == MatchFrom(tokens[1..], tail, acc)
  {
    LStripBlank(tail);
  }

  lemma MatchLitPrefix(tokens: seq<Token>, tail: string, acc: map<char, int>)
    requires tokens != [] && tokens[0].Lit?
    ensures MatchFrom(tokens, tokens[0].text + tail, acc) == MatchFrom(tokens[1..], tail, acc)
  {
    var t := tokens[0].text;
    assert (t + tail)[..|t|] == t && (t + tail)[|t|..] == tail;
  }

  lemma OverrideAdd(acc: map<char, int>, values: map<char, nat>, name: char, names: set<char>)
    requires {name} + names <= values.Keys
    ensures Override(acc[name := values[name] as int], values, names) == Override(acc, values, {name} + names)
  {
  }

  /** What the text after a token starts with, given the next token. */
  lemma FormatStart(tokens: seq<Token>, values: map<char, nat>)
    requires Unambiguous(tokens) && tokens != []
    requires SlotNames(tokens) <= values.Keys
    ensures SlotNames(tokens[1..]) <= values.Keys
    ensures Format(tokens, values) == FormatToken(tokens[0], values) + Format(tokens[1..], values)
    ensures var tail := Format(tokens[1..], values);
      (tokens[0].Opnd? ==> tail == [] || !IsDigit(tail[0]))
      && (tokens[0].Space? ==> tail == [] || !IsSpace(tail[0]))
  {
    SlotNamesSplit(tokens);
    if |tokens| > 1 {
      var tail := Format(tokens[1..], values);
      SlotNamesSplit(tokens[1..]);
      assert tokens[1..][0] == tokens[1];
      assert tail == FormatToken(tokens[1], values) + Format(tokens[2..], values) by {
        assert tokens[1..][1..] == tokens[2..];
      }
      match tokens[1]
      case Opnd(o) => assert IsDigit(tail[0]);
      case Space => assert tail[0] == ' ';
      case Lit(t) => assert tail[0] == t[0];
    }
  }

  lemma DigitRunStops(digits: string, tail: string)
    requires forall i :: 0 <= i < |digits| ==> IsDigit(digits[i])
    requires tail == [] || !IsDigit(tail[0])
    ensures DigitRun(digits + tail) == |digits|
    decreases |digits|
  {
    if digits != [] {
      assert (digits + tail)[1..] == digits[1..] + tail;
      DigitRunStops(digits[1..], tail);
    }
  }

  lemma LStripBlank(tail: string)
    requires tail == [] || !IsSpace(tail[0])
    ensures LStrip(" " + tail) == tail
  {
    assert (" " + tail)[1..] == tail;
  }

  // ---------------------------------------------------------------------------
  // Building a syntax from its definition
  // ---------------------------------------------------------------------------

  /** The first operand with the given name (the `for ... else` search). */
  function FindOperand(operands: seq<Operand>, c: char): (r: Option<Operand>)
    ensures r.Some? ==> r.value in operands && r.value.name == c
    ensures r.None? ==> forall o :: o in operands ==> o.name != c
  {
    if operands == [] then None
    else if operands[0].name == c then Some(operands[0])
    else FindOperand(operands[1..], c)
  }

  /** `tokens` followed by the pending literal run, if any. */
  function Flush(tokens: seq<Token>, token: string): seq<Token>
  {
    if token != [] then tokens + [Lit(token)] else tokens
  }

  /** The names of declared operands that no slot of `tokens` holds. */
  function Missing(operands: seq<Operand>, tokens: seq<Token>): set<char>
  {
    set o | o in operands && Opnd(o) !in tokens :: o.name
  }

  /**
   * What `Syntax.parse` computes once the characters before `chars` have been
   * read into `tokens`, with `token` the upper-case run being collected.
   */
  function ParseFrom(chars: string, operands: seq<Operand>, token: string, tokens: seq<Token>)
    : Result<seq<Token>, DefinitionError>
    decreases |chars|
  {
    if chars == [] then
      var all := Flush(tokens, token);
      if Missing(operands, all) != {} then Err(MissingFromSyntax(Missing(operands, all))) else Ok(all)
    else
      var c := chars[0];
      if IsUpper(c) then ParseFrom(chars[1..], operands, token + [c], tokens)
      else
        var flushed := Flush(tokens, token);
        if IsLower(c) then
          match FindOperand(operands, c)
          case None => Err(NotInOperands(c))
          case Some(o) => ParseFrom(chars[1..], operands, [], flushed + [Opnd(o)])
        else if IsSpace(c) then ParseFrom(chars[1..], operands, [], flushed + [Space])
        else ParseFrom(chars[1..], operands, [], flushed + [Lit([c])])
  }

  /** One character of `ParseFrom`, by the class of the character. */
  lemma ParseStep(chars: string, operands: seq<Operand>, token: string, tokens: seq<Token>)
    requires chars != []
    ensures IsUpper(chars[0]) ==> ParseFrom(chars, operands, token, tokens) == ParseFrom(chars[1..], operands, token + [chars[0]], tokens)
    ensures !IsUpper(chars[0]) && IsLower(chars[0]) && FindOperand(operands, chars[0]).Some? ==>
      ParseFrom(chars, operands, token, tokens) == ParseFrom(chars[1..], operands, [], Flush(tokens, token) + [Opnd(FindOperand(operands, chars[0]).value)])
    ensures !IsUpper(chars[0]) && !IsLower(chars[0]) && IsSpace(chars[0]) ==>
      ParseFrom(chars, operands, token, tokens) == ParseFrom(chars[1..], operands, [], Flush(tokens, token) + [Space])
    ensures !IsUpper(chars[0]) && !IsLower(chars[0]) && !IsSpace(chars[0]) ==>
      ParseFrom(chars, operands, token, tokens) == ParseFrom(chars[1..], operands, [], Flush(tokens, token) + [Lit([chars[0]])])
  {
  }

  /** `Syntax.parse` */
  method Parse(definition: string, operands: seq<Operand>) returns (r: Result<seq<Token>, DefinitionError>)
    ensures r == ParseFrom(definition, operands, [], [])
  {
    var tokens: seq<Token> := [];
    var token := "";
    for i := 0 to |definition|
      invariant ParseFrom(definition, operands, [], []) == ParseFrom(definition[i..], operands, token, tokens)
    {
      var c := definition[i];
      assert definition[i..][0] == c && definition[i..][1..] == definition[i + 1..];
      if IsUpper(c) {
        token := token + [c];
      } else {
        if token != [] {
          tokens := tokens + [Lit(token)];
          token := "";
        }
        if IsLower(c) {
          var found := FindOperand(operands, c);
          if found.None? {
            return Err(NotInOperands(c));
          }
          tokens := tokens + [Opnd(found.value)];
        } else if IsSpace(c) {
          tokens := tokens + [Space];
        } else {
          tokens := tokens + [Lit([c])];
        }
      }
    }
    if token != [] {
      tokens := tokens + [Lit(token)];
    }
    var missing := Missing(operands, tokens);
    if missing != {} {
      return Err(MissingFromSyntax(missing));
    }
    return Ok(tokens);
  }

  /** Every lower-case letter of `chars` names a declared operand. */
  predicate LettersDeclared(chars: string, operands: seq<Operand>)
  {
    forall i :: 0 <= i < |chars| && IsLower(chars[i]) ==> chars[i] in NamesOf(operands)
  }

  /** Every declared operand already has a slot or will get one from `chars`. */
  predicate OperandsUsed(chars: string, operands: seq<Operand>, tokens: seq<Token>)
  {
    forall o :: o in operands ==> Opnd(o) in tokens || (IsLower(o.name) && o.name in chars)
  }

  /**
   * With distinct operand names, a definition parses exactly when every
   * lower-case letter in it names a declared operand and every declared
   * operand's (lower-case) name occurs in it; the slots of the result are
   * then exactly the declared operands.
   */
  lemma ParseSound(definition: string, operands: seq<Operand>)
    requires DistinctNames(operands)
    ensures ParseFrom(definition, operands, [], []).Ok? <==>
      LettersDeclared(definition, operands) && OperandsUsed(definition, operands, [])
    ensures ParseFrom(definition, operands, [], []).Ok? ==>
      var tokens := ParseFrom(definition, operands, [], []).value;
      (forall o :: o in operands ==> Opnd(o) in tokens)
      && (forall k :: 0 <= k < |tokens| && tokens[k].Opnd? ==> tokens[k].operand in operands)
  {
    ParseFromSound(definition, operands, [], []);
  }

  lemma {:induction false} ParseFromSound(chars: string, operands: seq<Operand>, token: string, tokens: seq<Token>)
    requires DistinctNames(operands)
    requires forall k :: 0 <= k < |tokens| && tokens[k].Opnd? ==> tokens[k].operand in operands
    ensures ParseFrom(chars, operands, token, tokens).Ok? <==>
      LettersDeclared(chars, operands) && OperandsUsed(chars, operands, tokens)
    ensures ParseFrom(chars, operands, token, tokens).Ok? ==>
      var result := ParseFrom(chars, operands, token, tokens).value;
      (forall o :: o in operands ==> Opnd(o) in result)
      && (forall k :: 0 <= k < |result| && result[k].Opnd? ==> result[k].operand in operands)
    decreases |chars|
  {
    var flushed := Flush(tokens, token);
    assert forall o :: Opnd(o) in flushed <==> Opnd(o) in tokens;
    assert forall k :: 0 <= k < |flushed| && flushed[k].Opnd? ==> flushed[k].operand in operands by {
      forall k | 0 <= k < |flushed| && flushed[k].Opnd? ensures flushed[k].operand in operands {
        assert k < |tokens|;
      }
    }
    if chars == [] {
      var all := flushed;
      assert Missing(operands, all) == {} <==> forall o :: o in operands ==> Opnd(o) in all by {
        if exists o :: o in operands && Opnd(o) !in all {
          var o :| o in operands && Opnd(o) !in all;
          assert o.name in Missing(operands, all);
        }
      }
    } else {
      var c := chars[0];
      var rest := chars[1..];
      assert forall x :: x in chars <==> x == c || x in rest;
      assert LettersDeclared(chars, operands) <==>
        (IsLower(c) ==> c in NamesOf(operands)) && LettersDeclared(rest, operands) by {
        if LettersDeclared(chars, operands) {
          forall i | 0 <= i < |rest| && IsLower(rest[i]) ensures rest[i] in NamesOf(operands) {
            assert rest[i] == chars[i + 1];
          }
        }
        if (IsLower(c) ==> c in NamesOf(operands)) && LettersDeclared(rest, operands) {
          forall i | 0 <= i < |chars| && IsLower(chars[i]) ensures chars[i] in NamesOf(operands) {
            if i > 0 { assert chars[i] == rest[i - 1]; }
          }
        }
      }
      if IsUpper(c) {
        ParseFromSound(rest, operands, token + [c], tokens);
      } else if IsLower(c) {
        match FindOperand(operands, c)
        case None =>
          assert c !in NamesOf(operands);
        case Some(found) =>
          var next := flushed + [Opnd(found)];
          assert OperandsUsed(chars, operands, tokens) <==> OperandsUsed(rest, operands, next) by {
            forall o | o in operands && o.name == c ensures o == found {
              var i :| 0 <= i < |operands| && operands[i] == o;
              var j :| 0 <= j < |operands| && operands[j] == found;
              SameNameSameIndex(operands, i, j);
            }
          }
          ParseFromSound(rest, operands, [], next);
      } else if IsSpace(c) {
        ParseFromSound(rest, operands, [], flushed + [Space]);
      } else {
        ParseFromSound(rest, operands, [], flushed + [Lit([c])]);
      }
    }
  }
}
