/**
 * The entry points DPS adds to Kissat (kissat/kissat-sc2021/src/dps_api.c), over a root-level
 * view of the solver: the inconsistency flag, the values fixed at decision level 0, the learned
 * units, the redundant clauses and the temporary literal stack. What Kissat's own code decides
 * (which external literals have an internal counterpart, which variables are eliminated, whether
 * propagation reaches a conflict) is given to the model.
 */
module KissatDps {
  import opened Clauses
  import opened PeriodQueue
  import opened DetSeqSolver
  import opened Buffer
  import opened PeriodClauses
  import DpsCApi

  /** The value of `lit` under the root assignment `fixed` (variable to truth value): 1, -1 or 0 when unassigned. */
  function Fixed(fixed: map<nat, bool>, lit: int): (v: int)
    requires lit != 0
    ensures -1 <= v <= 1
    ensures v == 0 <==> Var(lit) !in fixed
  {
    if Var(lit) !in fixed then 0 else if fixed[Var(lit)] == (lit > 0) then 1 else -1
  }

  /** A literal and its negation have opposite values. */
  lemma FixedNegation(fixed: map<nat, bool>, lit: int)
    requires lit != 0
    ensures Fixed(fixed, -lit) == -Fixed(fixed, lit)
  {
    assert Var(-lit) == Var(lit);
  }

  /** A result that may be absent. */
  datatype Option<T> = None | Some(value: T)

  /** The part of the solver the importers read and change. */
  datatype Root = Root(inconsistent: bool, fixed: map<nat, bool>, units: seq<int>, redundant: seq<Clause>)

  /**
   * What Kissat decides on its own: the external variables that have an internal literal, the
   * eliminated ones, and whether propagating a root assignment ends in a conflict.
   */
  datatype Engine = Engine(importable: set<nat>, eliminated: set<nat>, conflicting: set<map<nat, bool>>)

  /** A literal that makes an import give up: no internal literal, an eliminated variable, or already true. */
  predicate Blocks(e: Engine, fixed: map<nat, bool>, lit: int)
    requires lit != 0
  {
    Var(lit) !in e.importable || Var(lit) in e.eliminated || Fixed(fixed, lit) > 0
  }

  /** `lit` is learned as a unit at the root and propagated. */
  function Learn(e: Engine, s: Root, lit: int): (t: Root)
    requires lit != 0 && Fixed(s.fixed, lit) == 0
    ensures Fixed(t.fixed, lit) == 1 && t.units == s.units + [lit] && t.redundant == s.redundant
    ensures forall x :: x in s.fixed ==> x in t.fixed && t.fixed[x] == s.fixed[x]
  {
    var f := s.fixed[Var(lit) := lit > 0];
    Root(f in e.conflicting, f, s.units + [lit], s.redundant)
  }

  /** kissat_add_imported_unit_clause: the result code and the state after it. */
  function ImportUnit(e: Engine, s: Root, lit: int): (int, Root)
    requires lit != 0
  {
    if s.inconsistent then (-1, s)
    else if Blocks(e, s.fixed, lit) then (1, s)
    else if Fixed(s.fixed, lit) < 0 then (-1, s)
    else
      var t := Learn(e, s, lit);
      (if t.inconsistent then -1 else 0, t)
  }

  /** The literals of `c` not yet assigned at the root, in order (defined from the back). */
  function Kept(fixed: map<nat, bool>, c: Clause): (k: Clause)
    requires Literals(c)
    ensures |k| <= |c| && Literals(k)
    ensures forall i :: 0 <= i < |k| ==> Fixed(fixed, k[i]) == 0
  {
    if c == [] then []
    else
      var last := c[|c| - 1];
      Kept(fixed, c[..|c| - 1]) + (if Fixed(fixed, last) == 0 then [last] else [])
  }

  /** kissat_add_imported_clause: the result code and the state after it. */
  function ImportClause(e: Engine, s: Root, c: Clause): (int, Root)
    requires Literals(c)
  {
    if s.inconsistent then (-1, s)
    else if exists i :: 0 <= i < |c| && Blocks(e, s.fixed, c[i]) then (1, s)
    else
      var k := Kept(s.fixed, c);
      if |k| == 0 then (-1, s)
      else if |k| == 1 then
        var t := Learn(e, s, k[0]);
        (if t.inconsistent then -1 else 0, t)
      else (0, s.(redundant := s.redundant + [k]))
  }

  lemma KeptSnoc(fixed: map<nat, bool>, c: Clause, lit: int)
    requires Literals(c) && lit != 0
    ensures Literals(c + [lit])
    ensures Kept(fixed, c + [lit]) == Kept(fixed, c) + (if Fixed(fixed, lit) == 0 then [lit] else [])
  {
    assert (c + [lit])[..|c|] == c;
  }

  /** Filtering keeps the order of the clause: it distributes over concatenation. */
  lemma {:induction false} KeptAppend(fixed: map<nat, bool>, a: Clause, b: Clause)
    requires Literals(a) && Literals(b)
    ensures Literals(a + b)
    ensures Kept(fixed, a + b) == Kept(fixed, a) + Kept(fixed, b)
    decreases |b|
  {
    if b == [] {
      assert a + b == a;
    } else {
      var b', lit := b[..|b| - 1], b[|b| - 1];
      assert Literals(b');
      assert a + b == (a + b') + [lit];
      assert b == b' + [lit];
      KeptAppend(fixed, a, b');
      KeptSnoc(fixed, a + b', lit);
      KeptSnoc(fixed, b', lit);
    }
  }

  /** Exactly the unassigned literals of the clause survive the filter. */
  lemma {:induction false} KeptMembers(fixed: map<nat, bool>, c: Clause, lit: int)
    requires Literals(c)
    ensures lit in Kept(fixed, c) <==> lit in c && Fixed(fixed, lit) == 0
  {
    if c != [] {
      var c', last := c[..|c| - 1], c[|c| - 1];
      assert Literals(c');
      assert c == c' + [last];
      KeptMembers(fixed, c', lit);
    }
  }

  /** Importing a unit is importing the one-literal clause. */
  lemma UnitIsSingletonClause(e: Engine, s: Root, lit: int)
    requires lit != 0
    ensures Literals([lit])
    ensures ImportClause(e, s, [lit]) == ImportUnit(e, s, lit)
  {
    assert [lit][..0] == [];
    assert Kept(s.fixed, [lit]) == if Fixed(s.fixed, lit) == 0 then [lit] else [];
  }

  /**
   * The outcomes of a clause import: +1 exactly when a literal blocks it, and then nothing
   * changes; -1 with nothing changed when every literal is false; otherwise the unassigned
   * literals become a learned unit (one) or a new redundant clause (several).
   */
  lemma ImportClauseOutcomes(e: Engine, s: Root, c: Clause)
    requires Literals(c)
    ensures var (r, t) := ImportClause(e, s, c);
      (r == 1 <==> !s.inconsistent && exists i :: 0 <= i < |c| && Blocks(e, s.fixed, c[i])) &&
      (r == 1 ==> t == s) &&
      (s.inconsistent ==> r == -1 && t == s) &&
      (r != 1 && !s.inconsistent ==>
        var k := Kept(s.fixed, c);
        (|k| == 0 ==> r == -1 && t == s) &&
        (|k| == 1 ==> t.units == s.units + k && t.redundant == s.redundant) &&
        (|k| > 1 ==> r == 0 && t.units == s.units && t.redundant == s.redundant + [k]))
  {
  }

  /** `t` is `s` with root values, learned units and redundant clauses only added, at most one of each list. */
  predicate Grows(s: Root, t: Root)
  {
    (forall x :: x in s.fixed ==> x in t.fixed && t.fixed[x] == s.fixed[x]) &&
    s.units <= t.units && |t.units| <= |s.units| + 1 &&
    s.redundant <= t.redundant && |t.redundant| <= |s.redundant| + 1
  }

  /** Neither import unassigns a root value or drops a learned clause. */
  lemma ImportsGrow(e: Engine, s: Root, c: Clause, lit: int)
    requires Literals(c) && lit != 0
    ensures Grows(s, ImportClause(e, s, c).1) && Grows(s, ImportUnit(e, s, lit).1)
  {
  }

  /**
   * The Kissat solver as the importers see it. `clause` is the temporary literal stack,
   * `shouldBeTerminated` the termination latch, `dpsTicks` the accesses counted since the last
   * period check, and `wrapper` the DPS worker that drives this solver (none when run alone).
   */
  class Kissat {
    const engine: Engine
    var level: nat
    var inconsistent: bool
    var fixed: map<nat, bool>
    var units: seq<int>
    var redundant: seq<Clause>
    var clause: seq<int>
    var shouldBeTerminated: bool
    var dpsTicks: nat
    var wrapper: AbstDetSeqSolver?
    var thn: nat

    function State(): Root
      reads this
    {
      Root(inconsistent, fixed, units, redundant)
    }

    constructor (e: Engine)
      ensures engine == e && level == 0 && !inconsistent && fixed == map[] && units == [] && redundant == []
      ensures clause == [] && !shouldBeTerminated && dpsTicks == 0 && wrapper == null && thn == 0
    {
      engine := e;
      level, inconsistent, fixed, units, redundant := 0, false, map[], [], [];
      clause, shouldBeTerminated, dpsTicks, wrapper, thn := [], false, 0, null, 0;
    }

    /** kissat_set_wrapper. */
    method SetWrapper(w: AbstDetSeqSolver?, id: nat)
      modifies this`wrapper, this`thn
      ensures wrapper == w && thn == id
    {
      wrapper, thn := w, id;
    }

    /** kissat_get_decision_level. */
    function DecisionLevel(): (l: nat)
      reads this
      ensures l == level
    {
      level
    }

    /** kissat_forced_restart: backtrack to the root; root-level values stay. */
    method ForcedRestart()
      modifies this`level
      ensures level == 0
    {
      level := 0;
    }

    /** kissat_learned_unit followed by kissat_search_propagate. */
    method LearnUnit(lit: int)
      requires lit != 0 && Fixed(fixed, lit) == 0
      modifies this`inconsistent, this`fixed, this`units
      ensures State() == Learn(engine, old(State()), lit)
    {
      fixed := fixed[Var(lit) := lit > 0];
      units := units + [lit];
      inconsistent := fixed in engine.conflicting;
    }

    /**
     * kissat_add_imported_unit_clause: -1 when already inconsistent or the literal is false at
     * the root, +1 when it is blocked, otherwise it is learned, and the answer is -1 exactly when
     * propagation found a conflict.
     */
    method AddImportedUnitClause(elit: int) returns (r: int)
      requires elit != 0
      modifies this`inconsistent, this`fixed, this`units
      ensures (r, State()) == ImportUnit(engine, old(State()), elit)
    {
      if inconsistent {
        return -1;
      }
      if Var(elit) !in engine.importable {
        return 1;
      }
      if Var(elit) in engine.eliminated {
        return 1;
      }
      var value := Fixed(fixed, elit);
      if value > 0 {
        return 1;
      }
      if value < 0 {
        return -1;
      }
      LearnUnit(elit);
      r := if inconsistent then -1 else 0;
    }

    /**
     * kissat_add_imported_clause: the unassigned literals are pushed on the temporary stack in
     * order, a blocking literal abandons the clause with +1, and what is left decides between
     * the empty clause (-1), a learned unit and a redundant clause. The stack is empty again
     * on every exit.
     */
    method AddImportedClause(c: Clause) returns (r: int)
      requires clause == [] && Literals(c)
      modifies this`inconsistent, this`fixed, this`units, this`redundant, this`clause
      ensures clause == []
      ensures (r, State()) == ImportClause(engine, old(State()), c)
    {
      if inconsistent {
        return -1;
      }
      var i := 0;
      while i < |c|
        invariant i <= |c|
        invariant clause == Kept(fixed, c[..i])
        invariant forall j :: 0 <= j < i ==> !Blocks(engine, fixed, c[j])
        invariant State() == old(State())
      {
        var lit := c[i];
        if Var(lit) !in engine.importable || Var(lit) in engine.eliminated {
          break;
        }
        var value := Fixed(fixed, lit);
        if value > 0 {
          break;
        }
        assert c[..i + 1] == c[..i] + [lit];
        KeptSnoc(fixed, c[..i], lit);
        if value == 0 {
          clause := clause + [lit];
        }
        i := i + 1;
      }
      if i != |c| {
        assert Blocks(engine, fixed, c[i]);
        clause := [];
        return 1;
      }
      assert c[..i] == c;
      if |clause| == 0 {
        return -1;
      }
      if |clause| == 1 {
        LearnUnit(clause[0]);
      } else {
        redundant := redundant + [clause];
      }
      clause := [];
      r := if inconsistent then -1 else 0;
    }

    /**
     * dps_check_period: once the latch is set the answer is "stop" and nothing changes; a
     * solver without a worker always goes on; otherwise the accesses counted by the solver are
     * handed to the worker's counter, the solver's count restarts at 0, the worker runs its
     * period check, and a "stop" sets the latch. The worker's period check then keeps the
     * promises of `DpsCApi.CheckPeriod`, from the state at the call with the charged count, and
     * its results are in `step`.
     */
    method DpsCheckPeriod(conflicts: nat, smoothed: nat, overLimits: bool) returns (res: bool, ghost step: Option<Step>)
      requires wrapper != null ==> wrapper.Valid() && this !in wrapper.sharer.pcqm.Repr
      requires wrapper != null && !wrapper.options.nonDet && wrapper.periods >= wrapper.margin ==>
        forall u :: 0 <= u < wrapper.sharer.numThreads && u != wrapper.thn ==>
          wrapper.periods - wrapper.margin < LastPrd(wrapper.sharer.pcqm.queues[u])
      modifies this`shouldBeTerminated, this`dpsTicks
      modifies if wrapper == null then {} else
        {wrapper, wrapper.expClausesBuf, wrapper.sharer.pcqm} + wrapper.sharer.pcqm.Repr
      ensures old(shouldBeTerminated) ==>
        !res && shouldBeTerminated && dpsTicks == old(dpsTicks) &&
        (wrapper != null ==> unchanged(wrapper) && wrapper.OnlyCounted())
      ensures !old(shouldBeTerminated) && wrapper == null ==> res && !shouldBeTerminated && dpsTicks == old(dpsTicks)
      ensures !old(shouldBeTerminated) && wrapper != null ==>
        step.Some? && Charged(wrapper, conflicts, smoothed, overLimits, res, step.value)
    {
      if shouldBeTerminated {
        return false, None;
      }
      if wrapper == null {
        return true, None;
      }
      var w := wrapper;
      var r;
      ghost var st;
      r, st := ChargeAndCheck(w, conflicts, smoothed, overLimits);
      ghost var charged := Charged(w, conflicts, smoothed, overLimits, r, st);
      assert wrapper == w && charged;
      res, step := r, Some(st);
    }

    /**
     * Since the old state, the solver's accesses have been charged to the worker `w` and `w` has
     * run its period check, which answered `res` with the results `r`: the solver's count is 0,
     * the latch is set exactly on a "stop", and either the budget was not spent, the answer is
     * "go on" and only the count changed, or the worker is `Stepped` from the state at the call
     * with the spent budget taken off the count.
     */
    twostate predicate Charged(w: AbstDetSeqSolver, conflicts: nat, smoothed: nat, overLimits: bool, res: bool,
                               new r: Step)
      reads this, w, w.expClausesBuf, w.sharer, w.sharer.pcqm, w.sharer.pcqm.Repr, r.closed, r.next, r.own
    {
      old(w.Valid()) && dpsTicks == 0 && shouldBeTerminated == !res && w.Valid() &&
      fresh(w.sharer.pcqm.Repr - old(w.sharer.pcqm.Repr)) && r.from == old(w.StartOf(conflicts, smoothed)) &&
      (!old(w.numMemAccesses + dpsTicks >= w.memAccLim) ==>
         res && w.numMemAccesses == old(w.numMemAccesses + dpsTicks) && w.Tallies() == old(w.Tallies()) &&
         unchanged(w.expClausesBuf) && unchanged(w.sharer.pcqm) && unchanged(w.sharer.pcqm.Repr)) &&
      (old(w.numMemAccesses + dpsTicks >= w.memAccLim) ==>
         w.numMemAccesses == old(w.numMemAccesses + dpsTicks) - r.from.tally.memAccLim && fresh(r.next) &&
         w.Stepped(conflicts, smoothed, overLimits, res, r))
    }

    /** dps_check_period with a worker attached and the latch clear. */
    method ChargeAndCheck(w: AbstDetSeqSolver, conflicts: nat, smoothed: nat, overLimits: bool)
        returns (res: bool, ghost step: Step)
      requires w.Valid() && this !in w.sharer.pcqm.Repr && !shouldBeTerminated
      requires !w.options.nonDet && w.periods >= w.margin ==>
        forall u :: 0 <= u < w.sharer.numThreads && u != w.thn ==> w.periods - w.margin < LastPrd(w.sharer.pcqm.queues[u])
      modifies this`shouldBeTerminated, this`dpsTicks, w`periods, w`memAccLim, w`nextMemAccLim, w`numMemAccesses, w`importedClauses,
               w`importedUnitClauses, w`sumMemAccs, w`emaMemAccs, w`emaPrevConfs, w`prevExpLits,
               w`prevExpConfs, w`numExportedClauses, w.expClausesBuf, w.sharer.pcqm, w.sharer.pcqm.Repr
      ensures Charged(w, conflicts, smoothed, overLimits, res, step)
    {
      ghost var due := w.numMemAccesses + dpsTicks >= w.memAccLim;
      ghost var tallies := w.Tallies();
      Charge(w, conflicts, smoothed);
      assert w.CanMoveToNextPeriod() == due && w.Tallies() == tallies;
      res, step := Handover(w, conflicts, smoothed, overLimits);
    }

    /**
     * The part of dps_check_period that runs once the solver's accesses are on the worker's
     * count: the worker's period check, whose promises are passed on as they are, and a "stop"
     * sets the latch.
     */
    method Handover(w: AbstDetSeqSolver, conflicts: nat, smoothed: nat, overLimits: bool)
        returns (res: bool, ghost step: Step)
      requires w.Valid() && this !in w.sharer.pcqm.Repr && !shouldBeTerminated
      requires !w.options.nonDet && w.periods >= w.margin ==>
        forall u :: 0 <= u < w.sharer.numThreads && u != w.thn ==> w.periods - w.margin < LastPrd(w.sharer.pcqm.queues[u])
      modifies this`shouldBeTerminated, w`periods, w`memAccLim, w`nextMemAccLim, w`numMemAccesses, w`importedClauses,
               w`importedUnitClauses, w`sumMemAccs, w`emaMemAccs, w`emaPrevConfs, w`prevExpLits,
               w`prevExpConfs, w`numExportedClauses, w.expClausesBuf, w.sharer.pcqm, w.sharer.pcqm.Repr
      ensures shouldBeTerminated == !res && w.Valid()
      ensures !old(w.CanMoveToNextPeriod()) ==>
        res && unchanged(w) && unchanged(w.expClausesBuf) && unchanged(w.sharer.pcqm) && unchanged(w.sharer.pcqm.Repr)
      ensures fresh(w.sharer.pcqm.Repr - old(w.sharer.pcqm.Repr))
      ensures step.from == old(w.StartOf(conflicts, smoothed))
      ensures old(w.CanMoveToNextPeriod()) ==>
        w.numMemAccesses == old(w.numMemAccesses) - step.from.tally.memAccLim && fresh(step.next) &&
        w.Stepped(conflicts, smoothed, overLimits, res, step)
    {
      var code;
      code, step := DpsCApi.CheckPeriod(w, conflicts, smoothed, overLimits);
      res := code != 0;
      ghost var stepped := w.Stepped(conflicts, smoothed, overLimits, res, step);
      shouldBeTerminated := !res;
      assert stepped == w.Stepped(conflicts, smoothed, overLimits, res, step);
    }

    /**
     * The accesses the solver counted move to the worker's count, and the solver's count restarts
     * at 0; the state the worker's period check starts from is otherwise as it was.
     */
    method Charge(w: AbstDetSeqSolver, ghost conflicts: nat, ghost smoothed: nat)
      requires w.Valid() && this !in w.sharer.pcqm.Repr && w !in w.sharer.pcqm.Repr
      modifies this`dpsTicks, w`numMemAccesses
      ensures dpsTicks == 0 && w.numMemAccesses == old(w.numMemAccesses) + old(dpsTicks)
      ensures w.Valid() && this !in w.sharer.pcqm.Repr && w.StartOf(conflicts, smoothed) == old(w.StartOf(conflicts, smoothed))
      ensures unchanged(w.sharer.pcqm) && unchanged(w.sharer.pcqm.Repr) && unchanged(w.expClausesBuf)
    {
      var ticks := dpsTicks;
      dpsTicks := 0;
      w.Untouched(conflicts, smoothed);
      w.AddMemAccesses(ticks, conflicts, smoothed);
    }
  }
}
