/**
 * `Operand` of `avrzero/instruction.py`: a one-letter name and a domain,
 * either a contiguous `range(lo, hi)` or an explicit set of integers.
 * The constructor's type checks (a one-character name, a step of 1, a set
 * of ints) are carried by the Dafny types.
 */
module Operands {

  datatype Domain = Span(lo: int, hi: int) | Among(values: set<int>)

  datatype Operand = Operand(name: char, domain: Domain)

  /** `Operand.check`: `value in self._choices`. */
  predicate Check(o: Operand, value: int)
  {
    match o.domain
    case Span(lo, hi) => lo <= value < hi
    case Among(values) => value in values
  }

  predicate Increasing(s: seq<int>)
  {
    forall i, j :: 0 <= i < j < |s| ==> s[i] < s[j]
  }

  /** `Operand.choices`: `sorted(tuple(self._choices))`. */
  function Choices(o: Operand): (r: seq<int>)
    ensures Increasing(r)
    ensures forall v :: v in r <==> Check(o, v)
  {
    match o.domain
    case Span(lo, hi) => Interval(lo, hi)
    case Among(values) => Sorted(values)
  }

  /** `list(range(lo, hi))` */
  function Interval(lo: int, hi: int): (r: seq<int>)
    ensures |r| == if lo < hi then hi - lo else 0
    ensures forall i :: 0 <= i < |r| ==> r[i] == lo + i
    ensures forall v :: v in r <==> lo <= v < hi
    decreases hi - lo
  {
    if lo < hi then [lo] + Interval(lo + 1, hi) else []
  }

  /** The members of a finite set in increasing order. */
  function Sorted(s: set<int>): (r: seq<int>)
    ensures Increasing(r)
    ensures forall v :: v in r <==> v in s
    ensures |r| == |s|
    decreases s
  {
    if s == {} then []
    else
      LeastExists(s);
      var m :| m in s && forall v :: v in s ==> m <= v;
      var rest := Sorted(s - {m});
      SortedCons(s, m, rest);
      [m] + rest
  }

  /** Putting the least member in front of the sorted rest sorts the set. */
  lemma SortedCons(s: set<int>, m: int, rest: seq<int>)
    requires m in s && forall v :: v in s ==> m <= v
    requires Increasing(rest) && (forall v :: v in rest <==> v in s - {m}) && |rest| == |s - {m}|
    ensures Increasing([m] + rest)
    ensures forall v :: v in [m] + rest <==> v in s
    ensures |[m] + rest| == |s|
  {
    var r := [m] + rest;
    forall i, j | 0 <= i < j < |r| ensures r[i] < r[j] {
      assert r[j] == rest[j - 1] && r[j] in s - {m};
      if i > 0 {
        assert r[i] == rest[i - 1];
      }
    }
    assert s == (s - {m}) + {m};
  }

  lemma LeastExists(s: set<int>)
    requires s != {}
    ensures exists m :: m in s && forall v :: v in s ==> m <= v
    decreases |s|
  {
    HasMember(s);
    var x :| x in s;
    var rest := s - {x};
    if rest == {} {
      forall v | v in s ensures x <= v { assert v == x || v in rest; }
    } else {
      LeastExists(rest);
      var m :| m in rest && forall v :: v in rest ==> m <= v;
      var least := if x < m then x else m;
      forall v | v in s ensures least <= v {
        if v != x { assert v in rest; }
      }
      assert least in s;
    }
  }

  lemma HasMember(s: set<int>)
    requires s != {}
    ensures exists x :: x in s
  {
    if forall y :: y !in s {
      EmptyIfNoMember(s);
      assert false;
    }
  }

  lemma EmptyIfNoMember(s: set<int>)
    requires forall y :: y !in s
    ensures s == {}
  {
    var e: set<int> := {};
    assert forall y :: y in s <==> y in e;
  }

  /** `list.index`: the position of `value` in an increasing sequence. */
  function IndexOf(s: seq<int>, value: int): (k: nat)
    requires value in s
    ensures k < |s| && s[k] == value
  {
    if s[0] == value then 0 else 1 + IndexOf(s[1..], value)
  }

  /** A value's index in an increasing sequence is the only place it occurs. */
  lemma IndexOfUnique(s: seq<int>, k: nat)
    requires Increasing(s) && k < |s|
    ensures IndexOf(s, s[k]) == k
  {
  }

  /** A `range` domain's choices are the range itself, so the index is the offset. */
  lemma SpanIndex(o: Operand, value: int)
    requires o.domain.Span? && Check(o, value)
    ensures IndexOf(Choices(o), value) == value - o.domain.lo
  {
    var c := Choices(o);
    IndexOfUnique(c, value - o.domain.lo);
  }

  /** The names of a list of operands. */
  function NamesOf(operands: seq<Operand>): set<char>
  {
    set o | o in operands :: o.name
  }

  predicate DistinctNames(operands: seq<Operand>)
  {
    forall i, j :: 0 <= i < j < |operands| ==> operands[i].name != operands[j].name
  }

  lemma SameNameSameIndex(operands: seq<Operand>, i: nat, j: nat)
    requires DistinctNames(operands)
    requires i < |operands| && j < |operands| && operands[i].name == operands[j].name
    ensures i == j
  {
  }

  /** `operand.choices.index(value)`: the value's position in the sorted domain. */
  function Index(o: Operand, value: int): (k: nat)
    requires Check(o, value)
    ensures k < |Choices(o)| && Choices(o)[k] == value
  {
    IndexOf(Choices(o), value)
  }

  lemma DistinctNamesTail(operands: seq<Operand>)
    requires DistinctNames(operands) && operands != []
    ensures DistinctNames(operands[1..])
  {
    var rest := operands[1..];
    forall a, b | 0 <= a < b < |rest| ensures rest[a].name != rest[b].name {
      assert rest[a] == operands[a + 1] && rest[b] == operands[b + 1];
    }
  }

  lemma NamesOfSplit(operands: seq<Operand>)
    requires operands != []
    ensures NamesOf(operands) == {operands[0].name} + NamesOf(operands[1..])
  {
    var rest := operands[1..];
    forall c | c in NamesOf(operands) ensures c in {operands[0].name} + NamesOf(rest) {
      var p :| p in operands && p.name == c;
      if p != operands[0] {
        var j :| 0 <= j < |operands| && operands[j] == p;
        assert p == rest[j - 1];
      }
    }
  }
}
