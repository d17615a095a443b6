/** The clause export of the Glucose worker (solvers/GlucoseWrapper.cpp and solvers/GlucoseWrapper.h). */
module GlucoseWrap {
  import opened Clauses
  import opened Buffer
  import opened SolverLits

  const U32: nat := 0x1_0000_0000

  /**
   * The three reasons a learnt clause of glue `lbd` is held back: it is not a glue clause
   * (lbd > 2) and longer than a positive length limit; its lbd is above a positive lbd limit;
   * or it is not a glue clause and its lbd is above the quantile bound `upper` of the lbds seen.
   */
  predicate Rejected(lbd: nat, size: nat, lenLim: nat, lbdLim: nat, upper: real)
  {
    (2 < lbd && 0 < lenLim && lenLim < size) ||
    (0 < lbdLim && lbdLim < lbd) ||
    (2 < lbd && upper < lbd as real)
  }

  /** Glue clauses skip the length and quantile tests; only a positive lbd limit can hold them back. */
  lemma GlueClauses(lbd: nat, size: nat, lenLim: nat, lbdLim: nat, upper: real)
    requires lbd <= 2
    ensures Rejected(lbd, size, lenLim, lbdLim, upper) <==> 0 < lbdLim < lbd
  {
  }

  /** With every limit at 0 a clause is held back only when it is not a glue clause and above the quantile bound. */
  lemma ZeroLimits(lbd: nat, size: nat, upper: real)
    ensures Rejected(lbd, size, 0, 0, upper) <==> 2 < lbd && upper < lbd as real
  {
  }

  /** incExpClauseGen: one more, in 32 bits. */
  function Inc(lim: nat): (r: nat)
    requires lim < U32
    ensures r < U32
  {
    (lim + 1) % U32
  }

  /** decExpClauseGen: one less, but only from above 2. */
  function Dec(lim: nat): (r: nat)
    ensures lim > 2 ==> r == lim - 1
    ensures lim <= 2 ==> r == lim
  {
    if lim > 2 then lim - 1 else lim
  }

  /** Lowering never takes the limit below 2 from above, and it undoes a raise that did not wrap. */
  lemma IncDec(lim: nat)
    requires lim < U32
    ensures lim >= 2 ==> Dec(lim) >= 2
    ensures Dec(lim) <= lim
    ensures 2 <= lim < U32 - 1 ==> Dec(Inc(lim)) == lim
  {
  }

  /**
   * The Glucose worker as its export sees it: its export buffer, the lbd limit the period
   * loop raises and lowers, and the length limit from the options.
   */
  class GlucoseWrapper {
    const expClausesBuf: ClauseBuffer
    var expClauseLbdLim: nat
    const expClauseLenLim: nat

    constructor (buf: ClauseBuffer, lbdLim: nat, lenLim: nat)
      requires lbdLim < U32
      ensures expClausesBuf == buf && expClauseLbdLim == lbdLim && expClauseLenLim == lenLim
    {
      expClausesBuf := buf;
      expClauseLbdLim := lbdLim;
      expClauseLenLim := lenLim;
    }

    method IncExpClauseGen()
      requires expClauseLbdLim < U32
      modifies this`expClauseLbdLim
      ensures expClauseLbdLim == Inc(old(expClauseLbdLim))
    {
      expClauseLbdLim := if expClauseLbdLim == U32 - 1 then 0 else expClauseLbdLim + 1;
    }

    method DecExpClauseGen()
      modifies this`expClauseLbdLim
      ensures expClauseLbdLim == Dec(old(expClauseLbdLim))
    {
      if expClauseLbdLim > 2 {
        expClauseLbdLim := expClauseLbdLim - 1;
      }
    }

    /**
     * exportClause: a clause no test holds back is converted to DPS numbers and buffered under
     * its length; otherwise the buffer stays as it was. `upper` is the current quantile bound.
     */
    method ExportClause(cls: seq<Lit>, lbd: nat, upper: real)
      requires expClausesBuf.Valid()
      modifies expClausesBuf
      ensures expClausesBuf.Valid()
      ensures Rejected(lbd, |cls|, expClauseLenLim, expClauseLbdLim, upper) ==>
        expClausesBuf.db == old(expClausesBuf.db) && expClausesBuf.keys == old(expClausesBuf.keys) &&
        expClausesBuf.numClauses == old(expClausesBuf.numClauses) && expClausesBuf.numLiterals == old(expClausesBuf.numLiterals)
      ensures !Rejected(lbd, |cls|, expClauseLenLim, expClauseLbdLim, upper) ==>
        var buf, c := expClausesBuf, IntClause(cls);
        buf.db == old(buf.db)[|c| := (if |c| in old(buf.db) then old(buf.db)[|c|] else []) + [c]] &&
        buf.numClauses == old(buf.numClauses) + 1 && buf.numLiterals == old(buf.numLiterals) + |c| &&
        multiset(buf.Contents()) == multiset(old(buf.Contents())) + multiset{c}
    {
      if 2 < lbd && 0 < expClauseLenLim && expClauseLenLim < |cls| {
        return;
      }
      if 0 < expClauseLbdLim && expClauseLbdLim < lbd {
        return;
      }
      if 2 < lbd && upper < lbd as real {
        return;
      }
      var expTmp := ToIntClause(cls);
      expClausesBuf.AddClause(expTmp, |expTmp|);
    }
  }
}
