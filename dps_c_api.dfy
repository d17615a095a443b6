/**
 * The C entry points of DPS (solvers/DPS_C_API.cpp) that hand a worker's answers to the solver
 * engine written in C. The C side only sees integers, so a truth value comes back as 1 or 0.
 */
module DpsCApi {
  import opened Clauses
  import opened PeriodQueue
  import opened Winners
  import opened DetSeqSolver
  import opened Buffer

  /**
   * DPS_checkPeriod: the worker's period check, answered as 1 (go on) or 0 (stop). Before the
   * budget is spent nothing changes. After it, `CheckPeriod`'s promises hold (`Stepped`), stated
   * over the state at the call, `step.from`, and the results `step`: the worker has exported,
   * closed its own set and opened a new, empty one, imported from the table as it stood at the
   * call, acknowledged what it fetched in every other mailbox, and moved to the next period with
   * its new budget, the spent budget taken off its access count.
   */
  method CheckPeriod(w: AbstDetSeqSolver, conflicts: nat, smoothed: nat, overLimits: bool)
      returns (code: int, ghost step: Step)
    requires w.Valid()
    requires !w.options.nonDet && w.periods >= w.margin ==>
      forall u :: 0 <= u < w.sharer.numThreads && u != w.thn ==> w.periods - w.margin < LastPrd(w.sharer.pcqm.queues[u])
    modifies w`periods, w`memAccLim, w`nextMemAccLim, w`numMemAccesses, w`importedClauses,
             w`importedUnitClauses, w`sumMemAccs, w`emaMemAccs, w`emaPrevConfs, w`prevExpLits,
             w`prevExpConfs, w`numExportedClauses, w.expClausesBuf, w.sharer.pcqm, w.sharer.pcqm.Repr
    ensures w.Valid() && (code == 0 || code == 1)
    ensures fresh(w.sharer.pcqm.Repr - old(w.sharer.pcqm.Repr))
    ensures step.from == old(w.StartOf(conflicts, smoothed))
    ensures !old(w.CanMoveToNextPeriod()) ==>
      code == 1 && unchanged(w) && unchanged(w.expClausesBuf) && unchanged(w.sharer.pcqm) && unchanged(w.sharer.pcqm.Repr)
    ensures old(w.CanMoveToNextPeriod()) ==>
      w.numMemAccesses == old(w.numMemAccesses) - step.from.tally.memAccLim && fresh(step.next) &&
      w.Stepped(conflicts, smoothed, overLimits, code == 1, step)
  {
    var cont, adjust;
    ghost var from := w.StartOf(conflicts, smoothed);
    ghost var imported, len, exported, closed, next, before, batches, sums, total, own, reached;
    cont, adjust, imported, len, exported, closed, next, before, batches, sums, total, own, reached :=
      w.CheckPeriod(conflicts, smoothed, overLimits);
    code := if cont then 1 else 0;
    step := Step(from, adjust, imported, len, exported, closed, next, before, batches, sums, total, own, reached);
  }

  /** DPS_shouldBeTerminated: 1 exactly when the worker should stop. */
  function ShouldBeTerminated(w: AbstDetSeqSolver, overLimits: bool): (code: int)
    reads w, w.sharer
    ensures code == 0 || code == 1
    ensures code == 1 <==> Terminates(w.sharer.Record(), w.sharer.margin, w.periods) || overLimits
  {
    if w.ShouldBeTerminated(overLimits) then 1 else 0
  }

  /** DPS_shouldApplyImportedClauses: 1 exactly when a forced application is due. */
  method ShouldApplyImportedClauses(w: AbstDetSeqSolver) returns (code: int)
    requires w.Valid()
    modifies w`lastFappPeriod
    ensures code == 0 || code == 1
    ensures code == 1 <==> FappDue(|w.importedUnitClauses|, |w.importedClauses|, w.sharer.numThreads,
                                   w.fappClauses, w.periods, old(w.lastFappPeriod), w.fappPeriods)
    ensures w.lastFappPeriod == if code == 1 then w.periods else old(w.lastFappPeriod)
  {
    var b := w.ShouldApplyImportedClauses();
    code := if b then 1 else 0;
  }
}

/**
 * DPS_kissat_applyImportedClauses (solvers/DPS_C_API.cpp): the clauses a Kissat worker imported
 * are handed to the solver, the units first and then the longer clauses, each list in its order.
 */
module DpsKissatApply {
  import opened Clauses
  import opened KissatDps
  import opened DetSeqSolver

  /** Which importer a list goes through. */
  datatype Kind = UnitList | ClauseList

  /** A unit list hands over the first literal of each clause, so its clauses must have one. */
  predicate Applicable(kind: Kind, cs: seq<Clause>)
  {
    forall i :: 0 <= i < |cs| ==> Literals(cs[i]) && (kind == UnitList ==> |cs[i]| > 0)
  }

  /** One application: the unit importer on the first literal, or the clause importer on the clause. */
  function Step(kind: Kind, e: Engine, s: Root, c: Clause): (int, Root)
    requires Literals(c) && (kind == UnitList ==> |c| > 0)
  {
    if kind == UnitList then ImportUnit(e, s, c[0]) else ImportClause(e, s, c)
  }

  /** After a list: whether no application failed, how many were counted as imported, and the solver. */
  datatype Applied = Applied(ok: bool, count: nat, root: Root)

  /** Applying `cs` in order: a +1 is passed over, every other answer is counted, and a -1 ends the list. */
  function ApplyList(kind: Kind, e: Engine, s: Root, cs: seq<Clause>): Applied
    requires Applicable(kind, cs)
    decreases |cs|
  {
    if cs == [] then Applied(true, 0, s)
    else
      var (r, t) := Step(kind, e, s, cs[0]);
      if r == 1 then ApplyList(kind, e, t, cs[1..])
      else if r == -1 then Applied(false, 1, t)
      else
        var a := ApplyList(kind, e, t, cs[1..]);
        a.(count := a.count + 1)
  }

  /** Both lists: the clause list is applied after the unit list even when that one failed. */
  function ApplyAll(e: Engine, s: Root, units: seq<Clause>, clauses: seq<Clause>): (a: Applied)
    requires Applicable(UnitList, units) && Applicable(ClauseList, clauses)
  {
    var u := ApplyList(UnitList, e, s, units);
    var c := ApplyList(ClauseList, e, u.root, clauses);
    Applied(u.ok && c.ok, u.count + c.count, c.root)
  }

  /** The answers of the applications actually made on `cs`, in order. */
  function Answers(kind: Kind, e: Engine, s: Root, cs: seq<Clause>): seq<int>
    requires Applicable(kind, cs)
    decreases |cs|
  {
    if cs == [] then []
    else
      var (r, t) := Step(kind, e, s, cs[0]);
      [r] + (if r == -1 then [] else Answers(kind, e, t, cs[1..]))
  }

  /** How many answers are not +1. */
  function Counted(answers: seq<int>): nat
  {
    if answers == [] then 0 else (if answers[0] == 1 then 0 else 1) + Counted(answers[1..])
  }

  /**
   * The list result read off the answers: it failed exactly when some application answered
   * -1, and the imported count is the number of answers other than +1.
   */
  lemma {:induction false} ApplyListAnswers(kind: Kind, e: Engine, s: Root, cs: seq<Clause>)
    requires Applicable(kind, cs)
    ensures var a, rs := ApplyList(kind, e, s, cs), Answers(kind, e, s, cs);
      (a.ok <==> -1 !in rs) && a.count == Counted(rs)
    decreases |cs|
  {
    if cs != [] {
      var st := Step(kind, e, s, cs[0]);
      var r, t := st.0, st.1;
      var rs := Answers(kind, e, s, cs);
      if r == -1 {
        assert rs == [-1] && rs[1..] == [];
      } else {
        var rest := Answers(kind, e, t, cs[1..]);
        ApplyListAnswers(kind, e, t, cs[1..]);
        assert rs == [r] + rest && rs[1..] == rest;
        assert -1 in rs <==> -1 in rest;
      }
    }
  }

  /** Applications stop at the first -1: it is the last one made, and only it ends a list early. */
  lemma {:induction false} AnswersStopAtFailure(kind: Kind, e: Engine, s: Root, cs: seq<Clause>)
    requires Applicable(kind, cs)
    ensures var rs := Answers(kind, e, s, cs);
      |rs| <= |cs| && (forall i :: 0 <= i < |rs| - 1 ==> rs[i] != -1) && (|rs| < |cs| ==> rs[|rs| - 1] == -1)
    decreases |cs|
  {
    if cs != [] {
      var st := Step(kind, e, s, cs[0]);
      var r, t := st.0, st.1;
      var rs := Answers(kind, e, s, cs);
      if r != -1 {
        var rest := Answers(kind, e, t, cs[1..]);
        AnswersStopAtFailure(kind, e, t, cs[1..]);
        assert rs == [r] + rest;
        assert forall i :: 1 <= i < |rs| ==> rs[i] == rest[i - 1];
      }
    }
  }

  /** Applying a concatenation is applying the first part and, unless it failed, the second after it. */
  lemma {:induction false} ApplyListAppend(kind: Kind, e: Engine, s: Root, xs: seq<Clause>, ys: seq<Clause>)
    requires Applicable(kind, xs) && Applicable(kind, ys)
    ensures Applicable(kind, xs + ys)
    ensures var a := ApplyList(kind, e, s, xs);
      ApplyList(kind, e, s, xs + ys) ==
        if !a.ok then a
        else var b := ApplyList(kind, e, a.root, ys); Applied(b.ok, a.count + b.count, b.root)
    decreases |xs|
  {
    assert Applicable(kind, xs + ys) by {
      forall i | 0 <= i < |xs + ys|
        ensures Literals((xs + ys)[i]) && (kind == UnitList ==> |(xs + ys)[i]| > 0)
      {
        if i < |xs| { assert (xs + ys)[i] == xs[i]; } else { assert (xs + ys)[i] == ys[i - |xs|]; }
      }
    }
    if xs == [] {
      assert xs + ys == ys;
    } else {
      assert (xs + ys)[0] == xs[0];
      assert (xs + ys)[1..] == xs[1..] + ys;
      var (r, t) := Step(kind, e, s, xs[0]);
      if r != -1 {
        ApplyListAppend(kind, e, t, xs[1..], ys);
      }
    }
  }

  /** An inconsistent solver fails the first application at once and nothing changes. */
  lemma InconsistentFailsAtOnce(kind: Kind, e: Engine, s: Root, cs: seq<Clause>)
    requires Applicable(kind, cs) && s.inconsistent && cs != []
    ensures ApplyList(kind, e, s, cs) == Applied(false, 1, s)
  {
  }

  /**
   * Applies one list through the matching importer, in order: a +1 is passed over, any other
   * answer increments the worker's imported-clause counter, and a -1 stops the list.
   */
  method ApplyLoop(w: AbstDetSeqSolver, k: Kissat, kind: Kind, cs: seq<Clause>) returns (ok: bool)
    requires k.clause == [] && Applicable(kind, cs)
    modifies w`numImportedClauses, k`inconsistent, k`fixed, k`units, k`redundant, k`clause
    ensures k.clause == []
    ensures var a := ApplyList(kind, k.engine, old(k.State()), cs);
      ok == a.ok && k.State() == a.root && w.numImportedClauses == old(w.numImportedClauses) + a.count
  {
    ghost var s0 := k.State();
    ghost var n: nat := 0;
    var i := 0;
    ok := true;
    while i < |cs|
      invariant i <= |cs| && k.clause == [] && ok
      invariant w.numImportedClauses == old(w.numImportedClauses) + n
      invariant var a := ApplyList(kind, k.engine, k.State(), cs[i..]);
        ApplyList(kind, k.engine, s0, cs) == Applied(a.ok, n + a.count, a.root)
    {
      assert cs[i..][0] == cs[i] && cs[i..][1..] == cs[i + 1..];
      var r;
      if kind == UnitList {
        r := k.AddImportedUnitClause(cs[i][0]);
      } else {
        r := k.AddImportedClause(cs[i]);
      }
      if r == 1 {
        i := i + 1;
        continue;
      }
      w.numImportedClauses := w.numImportedClauses + 1;
      n := n + 1;
      if r == -1 {
        ok := false;
        break;
      }
      i := i + 1;
    }
  }

  /**
   * DPS_kissat_applyImportedClauses: a solver in the middle of a search is first sent back to
   * the root, which counts as a forced application; both pending lists are moved out of the
   * worker, so that clauses imported meanwhile start new lists; then the units and the longer
   * clauses are applied. The answer is false exactly when an application failed.
   */
  method ApplyImportedClauses(w: AbstDetSeqSolver, k: Kissat) returns (ret: bool)
    requires k.clause == []
    requires Applicable(UnitList, w.importedUnitClauses) && Applicable(ClauseList, w.importedClauses)
    modifies w`numForcedApplications, w`numImportedClauses, w`importedUnitClauses, w`importedClauses
    modifies k`level, k`inconsistent, k`fixed, k`units, k`redundant, k`clause
    ensures w.importedUnitClauses == [] && w.importedClauses == [] && k.clause == [] && k.level == 0
    ensures w.numForcedApplications == old(w.numForcedApplications) + if old(k.level) > 0 then 1 else 0
    ensures var a := ApplyAll(k.engine, old(k.State()), old(w.importedUnitClauses), old(w.importedClauses));
      ret == a.ok && k.State() == a.root && w.numImportedClauses == old(w.numImportedClauses) + a.count
  {
    if k.DecisionLevel() > 0 {
      w.numForcedApplications := w.numForcedApplications + 1;
      k.ForcedRestart();
    }
    var unitClauses := w.importedUnitClauses;
    w.importedUnitClauses := [];
    var clauses := w.importedClauses;
    w.importedClauses := [];
    var unitsOk := ApplyLoop(w, k, UnitList, unitClauses);
    var clausesOk := ApplyLoop(w, k, ClauseList, clauses);
    ret := unitsOk && clausesOk;
  }
}
