/** The clause export of the MiniSat worker (solvers/MiniSatWrapper.cpp). */
module MiniSatWrap {
  import opened Clauses
  import opened Buffer
  import opened SolverLits

  /** A learnt clause is held back when a positive length limit is set and the clause is longer. */
  predicate TooLong(lenLim: int, size: nat)
  {
    0 < lenLim && lenLim < size
  }

  /** A limit that is not positive lets every clause through; a positive one exactly the clauses up to it. */
  lemma LengthFilter(lenLim: int, size: nat)
    ensures lenLim <= 0 ==> !TooLong(lenLim, size)
    ensures lenLim > 0 ==> (!TooLong(lenLim, size) <==> size <= lenLim)
  {
  }

  /**
   * The MiniSat worker as its export sees it: `expClausesBuf` is the worker's export buffer
   * and `expClauseLenLim` the length limit from the options.
   */
  class MiniSatWrapper {
    const expClausesBuf: ClauseBuffer
    const expClauseLenLim: int

    constructor (buf: ClauseBuffer, lenLim: int)
      ensures expClausesBuf == buf && expClauseLenLim == lenLim
    {
      expClausesBuf := buf;
      expClauseLenLim := lenLim;
    }

    /**
     * exportClause: a clause within the limit is converted to DPS numbers and buffered under
     * its length; a longer one leaves the buffer as it was.
     */
    method ExportClause(cls: seq<Lit>)
      requires expClausesBuf.Valid()
      modifies expClausesBuf
      ensures expClausesBuf.Valid()
      ensures TooLong(expClauseLenLim, |cls|) ==>
        expClausesBuf.db == old(expClausesBuf.db) && expClausesBuf.keys == old(expClausesBuf.keys) &&
        expClausesBuf.numClauses == old(expClausesBuf.numClauses) && expClausesBuf.numLiterals == old(expClausesBuf.numLiterals)
      ensures !TooLong(expClauseLenLim, |cls|) ==>
        var buf, c := expClausesBuf, IntClause(cls);
        buf.db == old(buf.db)[|c| := (if |c| in old(buf.db) then old(buf.db)[|c|] else []) + [c]] &&
        buf.numClauses == old(buf.numClauses) + 1 && buf.numLiterals == old(buf.numLiterals) + |c| &&
        multiset(buf.Contents()) == multiset(old(buf.Contents())) + multiset{c}
    {
      if 0 < expClauseLenLim && expClauseLenLim < |cls| {
        return;
      }
      var expTmp := ToIntClause(cls);
      expClausesBuf.AddClause(expTmp, |expTmp|);
    }
  }
}
