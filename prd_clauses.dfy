/** The set of clauses one worker produced during one period (period/PrdClauses.cpp). */
module PeriodClauses {
  import opened Clauses

  /**
   * An append-then-freeze set of clauses. The owner (`thn`) and the period (`prd`) are fixed at
   * construction; clauses are appended while the set is open; `completed` is a one-way latch;
   * `numExportedThreads` counts the consumers that acknowledged the set.
   * The mutexes and the condition variable of the source are not modelled: each operation is
   * atomic here, and `waitAdditionCompleted` becomes the precondition "the set is completed".
   */
  class PrdClauses {
    const thn: int
    const prd: nat
    var prdLen: nat
    var numLiterals: nat
    var clauses: seq<Clause>
    var numExportedThreads: nat
    var completed: bool

    /** The literal count is the total size of the stored clauses. */
    ghost predicate Valid()
      reads this`numLiterals, this`clauses
    {
      numLiterals == TotalLiterals(clauses)
    }

    constructor (threadId: int, period: nat)
      ensures Valid()
      ensures thn == threadId && prd == period
      ensures clauses == [] && numLiterals == 0 && prdLen == 0
      ensures numExportedThreads == 0 && !completed
    {
      thn := threadId;
      prd := period;
      prdLen := 0;
      numLiterals := 0;
      clauses := [];
      numExportedThreads := 0;
      completed := false;
    }

    /** Appends `c`; only an open set accepts clauses. */
    method AddClause(c: Clause) returns (ok: bool)
      requires Valid() && !completed
      modifies this`clauses, this`numLiterals
      ensures Valid()
      ensures clauses == old(clauses) + [c]
      ensures numLiterals == old(numLiterals) + |c|
      ensures ok
    {
      TotalLiteralsSnoc(clauses, c);
      clauses := clauses + [c];
      numLiterals := numLiterals + |c|;
      ok := true;
    }

    /** Freezes the set and records the candidate length of the next period. */
    method CompleteAddition(len: nat)
      requires !completed
      modifies this`completed, this`prdLen
      ensures completed && prdLen == len
    {
      completed := true;
      prdLen := len;
    }

    /** The non-blocking completion query. */
    function IsAdditionCompleted(): (b: bool)
      reads this`completed
      ensures b <==> completed
    {
      completed
    }

    /** One more consumer has finished reading the set. */
    method CompleteExportation(threadId: int)
      modifies this`numExportedThreads
      ensures numExportedThreads == old(numExportedThreads) + 1
    {
      numExportedThreads := numExportedThreads + 1;
    }

    function GetNumExportedThreads(): (n: nat)
      reads this`numExportedThreads
      ensures n == numExportedThreads
    {
      numExportedThreads
    }
  }
}
