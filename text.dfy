/**
 * The few Python string operations the assembler and the syntax matcher
 * rely on, over ASCII: character classes, `lower`/`casefold`, `startswith`
 * ignoring case, `lstrip`, `isspace`, `int` of a digit string,
 * `partition`, `split` and `splitlines`.
 */
module Text {

  predicate IsDigit(c: char) { '0' <= c <= '9' }

  predicate IsUpper(c: char) { 'A' <= c <= 'Z' }

  predicate IsLower(c: char) { 'a' <= c <= 'z' }

  /** `str.isspace` on one character (the ASCII whitespace and separators). */
  predicate IsSpace(c: char)
  {
    c == ' ' || c == '\t' || c == '\n' || c == '\r' || c == '\U{B}' || c == '\U{C}'
    || c == '\U{1C}' || c == '\U{1D}' || c == '\U{1E}' || c == '\U{1F}'
  }

  /** Line boundaries of `str.splitlines` (`\r\n` is handled as one). */
  predicate IsLineBreak(c: char)
  {
    c == '\n' || c == '\r' || c == '\U{B}' || c == '\U{C}'
    || c == '\U{1C}' || c == '\U{1D}' || c == '\U{1E}'
    || c == '\U{85}' || c == '\U{2028}' || c == '\U{2029}'
  }

  function LowerChar(c: char): (r: char)
    ensures IsUpper(c) ==> IsLower(r)
    ensures !IsUpper(c) ==> r == c
  {
    if IsUpper(c) then (c as int + 32) as char else c
  }

  /** `s.lower()`, which is also `s.casefold()` on ASCII text. */
  function Lower(s: string): (r: string)
    ensures |r| == |s|
    ensures forall i :: 0 <= i < |s| ==> r[i] == LowerChar(s[i])
  {
    if s == [] then [] else [LowerChar(s[0])] + Lower(s[1..])
  }

  /** `s.lower().startswith(prefix.lower())` */
  predicate StartsWithIgnoreCase(s: string, prefix: string)
  {
    |prefix| <= |s| && Lower(s[..|prefix|]) == Lower(prefix)
  }

  /** `s.lstrip()` */
  function LStrip(s: string): (r: string)
    ensures |r| <= |s| && r == s[|s| - |r|..]
    ensures r == [] || !IsSpace(r[0])
    ensures forall i :: 0 <= i < |s| - |r| ==> IsSpace(s[i])
  {
    if s != [] && IsSpace(s[0]) then LStrip(s[1..]) else s
  }

  /** `s.isspace()`: not empty and nothing but whitespace. */
  predicate AllSpace(s: string)
  {
    s != [] && forall i :: 0 <= i < |s| ==> IsSpace(s[i])
  }

  /** Number of leading decimal digits. */
  function DigitRun(s: string): (n: nat)
    ensures n <= |s|
    ensures forall i :: 0 <= i < n ==> IsDigit(s[i])
    ensures n < |s| ==> !IsDigit(s[n])
  {
    if s != [] && IsDigit(s[0]) then 1 + DigitRun(s[1..]) else 0
  }

  /** `int(digits)` for a string of decimal digits. */
  function Decimal(digits: string): nat
    requires forall i :: 0 <= i < |digits| ==> IsDigit(digits[i])
  {
    if digits == [] then 0
    else 10 * Decimal(digits[..|digits| - 1]) + DigitValue(digits[|digits| - 1])
  }

  function DigitValue(c: char): (v: nat)
    requires IsDigit(c)
    ensures v < 10
  {
    c as int - '0' as int
  }

  /** `str(n)` for a natural number. */
  function DecimalString(n: nat): (s: string)
    ensures s != [] && forall i :: 0 <= i < |s| ==> IsDigit(s[i])
  {
    (if n < 10 then [] else DecimalString(n / 10)) + [('0' as int + n % 10) as char]
  }

  /** `int(str(n)) == n` */
  lemma {:induction false} DecimalOfDecimalString(n: nat)
    ensures Decimal(DecimalString(n)) == n
  {
    var s := DecimalString(n);
    assert s[..|s| - 1] == if n < 10 then [] else DecimalString(n / 10);
    if n >= 10 {
      DecimalOfDecimalString(n / 10);
    }
  }

  /** `line.partition(";")[0]`: the text before the first `;`. */
  function BeforeComment(line: string): (code: string)
    ensures code <= line
    ensures ';' !in code
    ensures |code| < |line| ==> line[|code|] == ';'
  {
    if line == [] || line[0] == ';' then [] else [line[0]] + BeforeComment(line[1..])
  }

  /** Length of the leading run of non-whitespace characters. */
  function WordRun(s: string): (n: nat)
    ensures n <= |s|
    ensures forall i :: 0 <= i < n ==> !IsSpace(s[i])
    ensures n < |s| ==> IsSpace(s[n])
  {
    if s != [] && !IsSpace(s[0]) then 1 + WordRun(s[1..]) else 0
  }

  /** `s.split()`: the maximal runs of non-whitespace characters, in order. */
  function Split(s: string): (words: seq<string>)
    ensures forall i :: 0 <= i < |words| ==> IsWord(words[i])
    decreases |s|
  {
    var t := LStrip(s);
    if t == [] then []
    else
      var n := WordRun(t);
      var rest := Split(t[n..]);
      WordsCons(t[..n], rest);
      [t[..n]] + rest
  }

  /** A word in front of words. */
  lemma WordsCons(w: string, words: seq<string>)
    requires IsWord(w) && forall i :: 0 <= i < |words| ==> IsWord(words[i])
    ensures forall i :: 0 <= i <= |words| ==> IsWord(([w] + words)[i])
  {
  }

  /** A non-empty run of non-whitespace characters. */
  predicate IsWord(w: string)
  {
    w != [] && forall i :: 0 <= i < |w| ==> !IsSpace(w[i])
  }

  /** `s.split()` is empty exactly when `s` holds only whitespace. */
  lemma SplitEmpty(s: string)
    ensures Split(s) == [] <==> forall i :: 0 <= i < |s| ==> IsSpace(s[i])
  {
    var t := LStrip(s);
    if t != [] {
      assert s[|s| - |t|] == t[0];
    }
  }

  /** Whitespace only, possibly nothing. */
  predicate Blank(g: string)
  {
    forall i :: 0 <= i < |g| ==> IsSpace(g[i])
  }

  /** `gaps[0] + words[0] + gaps[1] + … + words[n - 1] + gaps[n]` */
  function Interleave(gaps: seq<string>, words: seq<string>): string
    requires |gaps| == |words| + 1
    decreases |words|
  {
    if words == [] then gaps[0] else gaps[0] + words[0] + Interleave(gaps[1..], words[1..])
  }

  /**
   * `s` is `words` with the whitespace `gaps` around them, and every gap
   * between two words is non-empty.
   */
  predicate Gapped(s: string, gaps: seq<string>, words: seq<string>)
  {
    |gaps| == |words| + 1
    && (forall i :: 0 <= i < |gaps| ==> Blank(gaps[i]))
    && (forall i :: 0 < i < |gaps| - 1 ==> gaps[i] != [])
    && s == Interleave(gaps, words)
  }

  /**
   * The words of `s.split()` are its maximal whitespace-free runs, in order:
   * `s` is the words with whitespace gaps around them, and every gap between
   * two words is non-empty.  As the words hold no whitespace, this fixes them.
   */
  lemma {:induction false} SplitGaps(s: string) returns (gaps: seq<string>)
    ensures Gapped(s, gaps, Split(s))
    decreases |s|
  {
    if LStrip(s) == [] {
      gaps := [s];
      SplitBlank(s);
    } else {
      var lead, word, rest := SplitFirst(s);
      var g := SplitGaps(rest);
      gaps := GapsCons(lead, word, rest, g, Split(rest));
    }
  }

  /** Blank text splits into no words and is its own single gap. */
  lemma SplitBlank(s: string)
    requires LStrip(s) == []
    ensures Split(s) == [] && Gapped(s, [s], [])
  {
  }

  /** The first word of `s.split()`, the whitespace before it and the text after it. */
  lemma SplitFirst(s: string) returns (lead: string, word: string, rest: string)
    requires LStrip(s) != []
    ensures s == lead + (word + rest) && |rest| < |s|
    ensures Blank(lead) && IsWord(word) && (rest != [] ==> IsSpace(rest[0]))
    ensures Split(s) == [word] + Split(rest)
  {
    var t := LStrip(s);
    lead := s[..|s| - |t|];
    var n := WordRun(t);
    word, rest := t[..n], t[n..];
    StripParts(s);
    WordParts(t);
    SplitStep(s);
  }

  /** `s` is its leading whitespace followed by `s.lstrip()`. */
  lemma StripParts(s: string)
    ensures var t := LStrip(s);
      var lead := s[..|s| - |t|];
      s == lead + t && Blank(lead)
  {
    var t := LStrip(s);
    var lead := s[..|s| - |t|];
    assert s == lead + t;
    forall i | 0 <= i < |lead|
      ensures IsSpace(lead[i])
    {
      assert lead[i] == s[i];
    }
  }

  /** Text starting with a non-whitespace character is a word followed by text that starts with whitespace, if any. */
  lemma WordParts(t: string)
    requires t != [] && !IsSpace(t[0])
    ensures var n := WordRun(t);
      0 < n && t == t[..n] + t[n..] && IsWord(t[..n]) && (t[n..] != [] ==> IsSpace(t[n..][0]))
  {
  }

  /** One unfolding of `Split` on text that is not blank. */
  lemma SplitStep(s: string)
    requires LStrip(s) != []
    ensures var t := LStrip(s);
      var n := WordRun(t);
      0 < n && Split(s) == [t[..n]] + Split(t[n..])
  {
  }

  /** One more word, with the gap before it, in front of an interleaving. */
  lemma GapsCons(lead: string, word: string, rest: string, g: seq<string>, words: seq<string>)
    returns (gaps: seq<string>)
    requires Blank(lead) && Gapped(rest, g, words)
    requires rest != [] ==> IsSpace(rest[0])
    requires words != [] ==> IsWord(words[0])
    ensures Gapped(lead + (word + rest), gaps, [word] + words)
  {
    gaps := [lead] + g;
    assert gaps[1..] == g && ([word] + words)[1..] == words;
    if words != [] && g[0] == [] {
      InterleaveStart(g, words);
      assert false;
    }
    forall i | 0 < i < |gaps|
      ensures Blank(gaps[i]) && (i < |gaps| - 1 ==> gaps[i] != [])
    {
      assert gaps[i] == g[i - 1];
    }
  }

  /** Without a leading gap, the text starts with the first word. */
  lemma InterleaveStart(gaps: seq<string>, words: seq<string>)
    requires |gaps| == |words| + 1 && words != [] && gaps[0] == [] && words[0] != []
    ensures Interleave(gaps, words) != [] && Interleave(gaps, words)[0] == words[0][0]
  {
    assert gaps[0] + words[0] == words[0];
  }

  /** `s.splitlines()`: the lines of `s` without their terminators. */
  function SplitLines(s: string): (lines: seq<string>)
    ensures forall l :: l in lines ==> forall i :: 0 <= i < |l| ==> !IsLineBreak(l[i])
    ensures s == [] <==> lines == []
    decreases |s|
  {
    if s == [] then []
    else
      var n := LineRun(s);
      if n == |s| then [s]
      else
        var skip := if s[n] == '\r' && n + 1 < |s| && s[n + 1] == '\n' then 2 else 1;
        [s[..n]] + SplitLines(s[n + skip..])
  }

  /** A line terminator of `str.splitlines`: one break character, or `\r\n`. */
  predicate Terminator(b: string)
  {
    b == ['\r', '\n'] || (|b| == 1 && IsLineBreak(b[0]))
  }

  /** `lines[0] + breaks[0] + lines[1] + breaks[1] + …` */
  function Joined(lines: seq<string>, breaks: seq<string>): string
    requires |lines| == |breaks|
    decreases |lines|
  {
    if lines == [] then [] else lines[0] + breaks[0] + Joined(lines[1..], breaks[1..])
  }

  /** Text that does not start with `\n`. */
  predicate NoLeadingNewline(t: string)
  {
    t == [] || t[0] != '\n'
  }

  /**
   * `s` is `lines` each followed by its terminator in `breaks`.  Only the
   * last line may lack a terminator, and then it is not empty; a lone `\r`
   * is never followed by `\n`, which would have made them one `\r\n`.
   */
  predicate LinesOf(s: string, lines: seq<string>, breaks: seq<string>)
  {
    |breaks| == |lines| && s == Joined(lines, breaks)
    && (forall i :: 0 <= i < |breaks| ==>
          Terminator(breaks[i]) || (i == |breaks| - 1 && breaks[i] == [] && lines[i] != []))
    && (forall i :: 0 <= i < |breaks| && breaks[i] == ['\r'] ==>
          NoLeadingNewline(Joined(lines[i + 1..], breaks[i + 1..])))
  }

  /**
   * The lines of `s.splitlines()` are the text between its line breaks:
   * joined with their terminators they give back `s`.  As the lines hold no
   * break, this fixes them.
   */
  lemma {:induction false} SplitLinesJoin(s: string) returns (breaks: seq<string>)
    ensures LinesOf(s, SplitLines(s), breaks)
    decreases |s|
  {
    if s == [] {
      breaks := [];
    } else {
      var n := LineRun(s);
      if n == |s| {
        breaks := [[]];
        assert Joined([s], [[]]) == s + [] + Joined([], []);
      } else {
        var skip := if s[n] == '\r' && n + 1 < |s| && s[n + 1] == '\n' then 2 else 1;
        var rest := s[n + skip..];
        var b := SplitLinesJoin(rest);
        breaks := LinesCons(s, n, skip, SplitLines(rest), b);
      }
    }
  }

  /** One more line, with its terminator, in front of a split. */
  lemma LinesCons(s: string, n: nat, skip: nat, lines: seq<string>, b: seq<string>)
    returns (breaks: seq<string>)
    requires n < |s| && IsLineBreak(s[n]) && (skip == 1 || skip == 2) && n + skip <= |s|
    requires skip == 2 <==> s[n] == '\r' && n + 1 < |s| && s[n + 1] == '\n'
    requires LinesOf(s[n + skip..], lines, b)
    ensures breaks == [s[n..n + skip]] + b
    ensures LinesOf(s, [s[..n]] + lines, breaks)
  {
    breaks := [s[n..n + skip]] + b;
    var all := [s[..n]] + lines;
    assert all[1..] == lines && breaks[1..] == b;
    assert s == s[..n] + s[n..n + skip] + s[n + skip..];
    assert Terminator(breaks[0]);
    forall i | 0 < i < |breaks| && breaks[i] == ['\r']
      ensures NoLeadingNewline(Joined(all[i + 1..], breaks[i + 1..]))
    {
      assert all[i + 1..] == lines[i..] && breaks[i + 1..] == b[i..];
    }
    assert breaks[0] == ['\r'] ==> NoLeadingNewline(Joined(all[1..], breaks[1..]));
    forall i | 0 < i < |breaks|
      ensures Terminator(breaks[i]) || (i == |breaks| - 1 && breaks[i] == [] && all[i] != [])
    {
      assert breaks[i] == b[i - 1] && all[i] == lines[i - 1];
    }
  }

  /** Length of the leading run of characters that are not line breaks. */
  function LineRun(s: string): (n: nat)
    ensures n <= |s|
    ensures forall i :: 0 <= i < n ==> !IsLineBreak(s[i])
    ensures n < |s| ==> IsLineBreak(s[n])
  {
    if s != [] && !IsLineBreak(s[0]) then 1 + LineRun(s[1..]) else 0
  }
}
