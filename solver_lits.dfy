/**
 * What the MiniSat and Glucose wrappers (solvers/MiniSatWrapper.cpp, solvers/GlucoseWrapper.cpp)
 * share: the solvers' literal encoding and its conversion to and from DIMACS numbers, the
 * mapping of the solver's answer, loading an instance, and reading a model back. The two
 * wrappers hold the same code for these, so it is modelled once here.
 */
module SolverLits {
  import opened Clauses
  import opened Dimacs
  import SatModel

  /** A solver literal: `x` is twice the variable plus 1 for a negative literal. Variables count from 0. */
  datatype Lit = Lit(x: nat)

  function VarOf(l: Lit): nat
  {
    l.x / 2
  }

  predicate Sign(l: Lit)
  {
    l.x % 2 == 1
  }

  /** mkLit: the positive literal of a variable. */
  function MkLit(v: nat): (l: Lit)
    ensures VarOf(l) == v && !Sign(l)
  {
    Lit(2 * v)
  }

  /** operator~: the same variable with the other sign. */
  function Negate(l: Lit): (r: Lit)
    ensures VarOf(r) == VarOf(l) && Sign(r) != Sign(l)
  {
    if Sign(l) then Lit(l.x - 1) else Lit(l.x + 1)
  }

  /** INT_LIT: a solver literal as a DIMACS number, the variable shifted up by one and negated for a negative literal. */
  function IntLit(l: Lit): (n: int)
    ensures n != 0 && Var(n) == VarOf(l) + 1 && (n < 0 <==> Sign(l))
  {
    if Sign(l) then -(VarOf(l) + 1) else VarOf(l) + 1
  }

  /** The literal loadFormula builds from a DIMACS number: variable |n| - 1, negated when n < 0. */
  function FromInt(n: int): (l: Lit)
    requires n != 0
  {
    var v := Var(n) - 1;
    if n > 0 then MkLit(v) else Negate(MkLit(v))
  }

  /** Reading a number in and writing it out again gives the number back, and the other way round. */
  lemma IntLitRoundTrip(n: int, l: Lit)
    requires n != 0
    ensures IntLit(FromInt(n)) == n
    ensures FromInt(IntLit(l)) == l
  {
  }

  /** A solver clause as DPS numbers, literal by literal. */
  function IntClause(ls: seq<Lit>): (c: Clause)
    ensures |c| == |ls| && Literals(c)
    ensures forall i :: 0 <= i < |c| ==> c[i] == IntLit(ls[i])
  {
    if ls == [] then [] else [IntLit(ls[0])] + IntClause(ls[1..])
  }

  /** A DPS clause as solver literals, literal by literal. */
  function LitClause(c: Clause): (ls: seq<Lit>)
    requires Literals(c)
    ensures |ls| == |c|
    ensures forall i :: 0 <= i < |c| ==> ls[i] == FromInt(c[i])
  {
    if c == [] then [] else [FromInt(c[0])] + LitClause(c[1..])
  }

  /** Converting a clause out and back in, or in and back out, changes nothing. */
  lemma ClauseRoundTrip(ls: seq<Lit>, c: Clause)
    requires Literals(c)
    ensures LitClause(IntClause(ls)) == ls
    ensures IntClause(LitClause(c)) == c
  {
    forall i | 0 <= i < |ls| {
      IntLitRoundTrip(1, ls[i]);
    }
    forall i | 0 <= i < |c| {
      IntLitRoundTrip(c[i], Lit(0));
    }
  }

  /** The loop of the export functions that fills the temporary clause with INT_LIT of each literal. */
  method ToIntClause(cls: seq<Lit>) returns (c: Clause)
    ensures c == IntClause(cls)
  {
    c := [];
    var i := 0;
    while i < |cls|
      invariant i <= |cls| && |c| == i
      invariant forall j :: 0 <= j < i ==> c[j] == IntLit(cls[j])
    {
      c := c + [IntLit(cls[i])];
      i := i + 1;
    }
  }

  /** MiniSat's and Glucose's three-valued answer. */
  datatype LBool = LTrue | LFalse | LUndef

  /** The result of solve: SAT for l_True, UNSAT for l_False, UNKNOWN otherwise. */
  function ResultOf(b: LBool): (r: SATResult)
    ensures r == SAT <==> b == LTrue
    ensures r == UNSAT <==> b == LFalse
  {
    if b == LTrue then SAT else if b == LFalse then UNSAT else UNKNOWN
  }

  /**
   * The simplifying solver as loadFormula sees it: it has `nVars` variables and the clauses
   * given so far. Whether it accepts a clause depends on its internals (a clause may make it
   * unsatisfiable at once), so that answer is the given function `refuses`.
   */
  class CdclSolver {
    var nVars: nat
    var clauses: seq<seq<Lit>>
    const refuses: (seq<seq<Lit>>, seq<Lit>) -> bool

    constructor (refuses: (seq<seq<Lit>>, seq<Lit>) -> bool)
      ensures nVars == 0 && clauses == [] && this.refuses == refuses
    {
      nVars := 0;
      clauses := [];
      this.refuses := refuses;
    }

    /** newVar: one more variable. */
    method NewVar()
      modifies this`nVars
      ensures nVars == old(nVars) + 1
    {
      nVars := nVars + 1;
    }

    /** addClause: false when the solver refuses the clause; otherwise the clause is kept. */
    method AddClause(c: seq<Lit>) returns (ok: bool)
      modifies this`clauses
      ensures ok == !refuses(old(clauses), c)
      ensures clauses == if ok then old(clauses) + [c] else old(clauses)
    {
      ok := !refuses(clauses, c);
      if ok {
        clauses := clauses + [c];
      }
    }
  }

  /** Whether every literal given to the solver has a variable. */
  predicate Declared(nVars: nat, clauses: seq<seq<Lit>>)
  {
    forall k, i :: 0 <= k < |clauses| && 0 <= i < |clauses[k]| ==> VarOf(clauses[k][i]) < nVars
  }

  /** What loading `cs` leaves given `added`: whether every clause was accepted, and the clauses added, up to the first refused one. */
  function Load(refuses: (seq<seq<Lit>>, seq<Lit>) -> bool, added: seq<seq<Lit>>, cs: seq<Clause>): (r: (bool, seq<seq<Lit>>))
    requires AllLiterals(cs)
    decreases |cs|
  {
    if cs == [] then (true, added)
    else
      var c := LitClause(cs[0]);
      if refuses(added, c) then (false, added) else Load(refuses, added + [c], cs[1..])
  }

  /**
   * Loading adds the clauses in order, converted, up to the first one refused: it answers true
   * exactly when all were added, and false right after the solver refused the next one.
   */
  lemma {:induction false} LoadAll(refuses: (seq<seq<Lit>>, seq<Lit>) -> bool, added: seq<seq<Lit>>, cs: seq<Clause>)
    requires AllLiterals(cs)
    ensures var r := Load(refuses, added, cs);
      |added| <= |r.1| <= |added| + |cs| && r.1[..|added|] == added &&
      (forall k :: |added| <= k < |r.1| ==> r.1[k] == LitClause(cs[k - |added|]))
    ensures var r := Load(refuses, added, cs);
      r.0 <==> |r.1| == |added| + |cs|
    ensures var r := Load(refuses, added, cs);
      !r.0 ==> refuses(r.1, LitClause(cs[|r.1| - |added|]))
    decreases |cs|
  {
    if cs != [] {
      var c := LitClause(cs[0]);
      if !refuses(added, c) {
        assert AllLiterals(cs[1..]) by {
          assert forall k :: 0 <= k < |cs| - 1 ==> cs[1..][k] == cs[k + 1];
        }
        LoadAll(refuses, added + [c], cs[1..]);
        var r := Load(refuses, added, cs);
        assert r == Load(refuses, added + [c], cs[1..]);
        assert r.1[..|added| + 1][..|added|] == r.1[..|added|];
        assert forall k :: 1 <= k < |cs| ==> cs[1..][k - 1] == cs[k];
      }
    }
  }

  /**
   * loadFormula: each number n becomes the literal of variable |n| - 1, after creating
   * variables until that one exists; each clause is given to the solver, and the first
   * refused one ends the load with false.
   */
  method LoadFormula(s: CdclSolver, cs: seq<Clause>) returns (ok: bool)
    requires AllLiterals(cs) && Declared(s.nVars, s.clauses)
    modifies s
    ensures (ok, s.clauses) == Load(s.refuses, old(s.clauses), cs)
    ensures Declared(s.nVars, s.clauses) && old(s.nVars) <= s.nVars
  {
    ghost var added := s.clauses;
    var k := 0;
    while k < |cs|
      invariant k <= |cs| && Declared(s.nVars, s.clauses) && old(s.nVars) <= s.nVars
      invariant AllLiterals(cs[k..]) && Load(s.refuses, added, cs) == Load(s.refuses, s.clauses, cs[k..])
    {
      assert Literals(cs[k]) by {
        assert cs[k..][0] == cs[k];
      }
      var c := ToLits(s, cs[k]);
      assert cs[k..][1..] == cs[k + 1..];
      ok := s.AddClause(c);
      if !ok {
        return;
      }
      k := k + 1;
    }
    ok := true;
  }

  /** The inner loop of loadFormula: one clause as solver literals, declaring variables as needed. */
  method ToLits(s: CdclSolver, clause: Clause) returns (c: seq<Lit>)
    requires Literals(clause) && Declared(s.nVars, s.clauses)
    modifies s`nVars
    ensures c == LitClause(clause) && old(s.nVars) <= s.nVars
    ensures Declared(s.nVars, s.clauses + [c])
  {
    c := [];
    var i := 0;
    while i < |clause|
      invariant i <= |clause| && c == LitClause(clause[..i])
      invariant Declared(s.nVars, s.clauses) && old(s.nVars) <= s.nVars
      invariant forall j :: 0 <= j < i ==> VarOf(c[j]) < s.nVars
    {
      var n := clause[i];
      var v := Var(n) - 1;
      while v >= s.nVars
        invariant Declared(s.nVars, s.clauses) && old(s.nVars) <= s.nVars
        invariant forall j :: 0 <= j < i ==> VarOf(c[j]) < s.nVars
        decreases v - s.nVars
      {
        s.NewVar();
      }
      c := c + [if n > 0 then MkLit(v) else Negate(MkLit(v))];
      assert clause[..i + 1] == clause[..i] + [n];
      LitClauseSnoc(clause[..i], n);
      i := i + 1;
    }
    assert clause[..i] == clause;
  }

  lemma LitClauseSnoc(c: Clause, n: int)
    requires Literals(c) && n != 0
    ensures LitClause(c + [n]) == LitClause(c) + [FromInt(n)]
  {
  }

  /** The value a solver model gives a literal: the variable's value, flipped for a negative literal. */
  function LitValue(vals: seq<LBool>, l: Lit): LBool
    requires VarOf(l) < |vals|
  {
    var b := vals[VarOf(l)];
    if b == LUndef then LUndef else if (b == LTrue) != Sign(l) then LTrue else LFalse
  }

  /** getModel: one slot per solver variable, shifted up by one; an unassigned variable stays false. */
  method GetModel(vals: seq<LBool>) returns (m: SatModel.Model)
    ensures |m.slots| == |vals| + 1 && !m.slots[0]
    ensures forall v :: 1 <= v <= |vals| ==> m.slots[v] == (vals[v - 1] == LTrue)
  {
    m := SatModel.Empty(|vals|);
    var i := 0;
    while i < |vals|
      invariant i <= |vals| && |m.slots| == |vals| + 1 && !m.slots[0]
      invariant forall v :: 1 <= v <= i ==> m.slots[v] == (vals[v - 1] == LTrue)
      invariant forall v :: i < v <= |vals| ==> !m.slots[v]
    {
      if vals[i] != LUndef {
        var val := vals[i] == LTrue;
        m := SatModel.Model(m.slots[i + 1 := val]);
      }
      i := i + 1;
    }
  }

  /** Through the literal encoding, the model read back agrees with the solver on every assigned literal. */
  lemma ModelAgrees(vals: seq<LBool>, m: SatModel.Model, l: Lit)
    requires |m.slots| == |vals| + 1
    requires forall v :: 1 <= v <= |vals| ==> m.slots[v] == (vals[v - 1] == LTrue)
    requires VarOf(l) < |vals| && LitValue(vals, l) != LUndef
    ensures SatModel.Value(m, IntLit(l)) <==> LitValue(vals, l) == LTrue
  {
  }
}
