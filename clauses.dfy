/** Clauses as DPS exchanges them: a clause is a sequence of non-zero DIMACS literals. */
module Clauses {

  /** `Clause` in sat/Clause.h is a `std::vector<int>`. */
  type Clause = seq<int>

  /** The outcome of a solver run; the source codes SAT = 10, UNSAT = 20, UNKNOWN = 0. */
  datatype SATResult = SAT | UNSAT | UNKNOWN

  function ResultCode(r: SATResult): (code: int)
    ensures code == 10 || code == 20 || code == 0
    ensures code == 0 <==> r == UNKNOWN
  {
    match r
    case SAT => 10
    case UNSAT => 20
    case UNKNOWN => 0
  }

  /** A literal is a non-zero integer: 0 only ends a clause in the DIMACS format. */
  predicate Literals(c: Clause)
  {
    forall i :: 0 <= i < |c| ==> c[i] != 0
  }

  /** The variable of a literal. */
  function Var(lit: int): (v: nat)
    requires lit != 0
    ensures v > 0 && (v == lit || v == -lit)
  {
    if lit < 0 then -lit else lit
  }

  /** Total number of literals of a sequence of clauses (defined from the back, so appending is one step). */
  function TotalLiterals(cs: seq<Clause>): nat
  {
    if cs == [] then 0 else TotalLiterals(cs[..|cs| - 1]) + |cs[|cs| - 1]|
  }

  lemma TotalLiteralsSnoc(cs: seq<Clause>, c: Clause)
    ensures TotalLiterals(cs + [c]) == TotalLiterals(cs) + |c|
  {
    assert (cs + [c])[..|cs|] == cs;
  }

  lemma {:induction false} TotalLiteralsAppend(a: seq<Clause>, b: seq<Clause>)
    ensures TotalLiterals(a + b) == TotalLiterals(a) + TotalLiterals(b)
    decreases |b|
  {
    if b == [] {
      assert a + b == a;
    } else {
      var b' := b[..|b| - 1];
      assert a + b == (a + b') + [b[|b| - 1]];
      assert b == b' + [b[|b| - 1]];
      TotalLiteralsSnoc(a + b', b[|b| - 1]);
      TotalLiteralsSnoc(b', b[|b| - 1]);
      TotalLiteralsAppend(a, b');
    }
  }

  lemma TotalLiteralsCons(c: Clause, cs: seq<Clause>)
    ensures TotalLiterals([c] + cs) == |c| + TotalLiterals(cs)
  {
    TotalLiteralsAppend([c], cs);
    assert [c] == [] + [c];
    TotalLiteralsSnoc([], c);
  }

  /** The clauses of `cs` that are longer than one literal, in order. */
  function Longs(cs: seq<Clause>): (r: seq<Clause>)
    ensures forall i :: 0 <= i < |r| ==> |r[i]| > 1
  {
    if cs == [] then []
    else if |cs[|cs| - 1]| > 1 then Longs(cs[..|cs| - 1]) + [cs[|cs| - 1]]
    else Longs(cs[..|cs| - 1])
  }

  /** The clauses of `cs` of at most one literal, in order. */
  function Units(cs: seq<Clause>): (r: seq<Clause>)
    ensures forall i :: 0 <= i < |r| ==> |r[i]| <= 1
  {
    if cs == [] then []
    else if |cs[|cs| - 1]| > 1 then Units(cs[..|cs| - 1])
    else Units(cs[..|cs| - 1]) + [cs[|cs| - 1]]
  }

  lemma LongsUnitsSnoc(cs: seq<Clause>, c: Clause)
    ensures Longs(cs + [c]) == if |c| > 1 then Longs(cs) + [c] else Longs(cs)
    ensures Units(cs + [c]) == if |c| > 1 then Units(cs) else Units(cs) + [c]
  {
    assert (cs + [c])[..|cs|] == cs;
  }

  /** One more clause of `cs` taken into the split. */
  lemma LongsUnitsPrefix(cs: seq<Clause>, j: nat)
    requires j < |cs|
    ensures Longs(cs[..j + 1]) == if |cs[j]| > 1 then Longs(cs[..j]) + [cs[j]] else Longs(cs[..j])
    ensures Units(cs[..j + 1]) == if |cs[j]| > 1 then Units(cs[..j]) else Units(cs[..j]) + [cs[j]]
  {
    assert cs[..j + 1][..j] == cs[..j];
  }

  lemma {:induction false} LongsUnitsAppend(a: seq<Clause>, b: seq<Clause>)
    ensures Longs(a + b) == Longs(a) + Longs(b)
    ensures Units(a + b) == Units(a) + Units(b)
    decreases |b|
  {
    if b == [] {
      assert a + b == a;
    } else {
      var b' := b[..|b| - 1];
      var c := b[|b| - 1];
      assert a + b == (a + b') + [c];
      assert b == b' + [c];
      LongsUnitsAppend(a, b');
      LongsUnitsSnoc(a + b', c);
      LongsUnitsSnoc(b', c);
    }
  }

  /** Splitting by length loses and duplicates nothing: the two parts together have as many clauses. */
  lemma {:induction false} LongsUnitsPartition(cs: seq<Clause>)
    ensures |Longs(cs)| + |Units(cs)| == |cs|
    ensures multiset(Longs(cs)) + multiset(Units(cs)) == multiset(cs)
  {
    if cs != [] {
      var cs' := cs[..|cs| - 1];
      assert cs == cs' + [cs[|cs| - 1]];
      LongsUnitsPartition(cs');
    }
  }
}
