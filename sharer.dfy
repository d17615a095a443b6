/** The shared winner record and the termination rule (parallel/Sharer.cpp). */
module Winners {
  import opened Clauses
  import opened PeriodClauses
  import opened PeriodQueue
  import opened PeriodQueueMgr

  /** The winner record: whether a result was reported, and by whom, at which period. */
  datatype Winner = Winner(found: bool, result: SATResult, period: nat, id: int)

  /** The record before any report: no solution, UNKNOWN, period 0, id -1. */
  function NoWinner(): (w: Winner)
    ensures !w.found && w.result == UNKNOWN && w.period == 0 && w.id == -1
  {
    Winner(false, UNKNOWN, 0, -1)
  }

  /** The lexicographic order on (period, thread id) signatures. */
  predicate LexLess(p1: nat, t1: int, p2: nat, t2: int)
  {
    p1 < p2 || (p1 == p2 && t1 < t2)
  }

  /** A report that a thread may make: a solver's status at its period. */
  datatype Report = Report(status: SATResult, prd: nat, thn: int)

  /** A conclusive report must agree with an already recorded conclusive result. */
  predicate Consistent(w: Winner, r: Report)
  {
    r.status == UNKNOWN || w.result == UNKNOWN || w.result == r.status
  }

  /** Whether `IFinished` accepts report `r` against the record `w`. */
  predicate Accepts(w: Winner, r: Report)
  {
    !w.found || (r.status != UNKNOWN && LexLess(r.prd, r.thn, w.period, w.id))
  }

  /**
   * The record after `IFinished(r)`: the first report is always taken, even an UNKNOWN one;
   * later only a conclusive report with a smaller (period, thread id) signature replaces it.
   */
  function Apply(w: Winner, r: Report): (w': Winner)
    ensures w'.found
    ensures Accepts(w, r) ==> w' == Winner(true, r.status, r.prd, r.thn)
    ensures !Accepts(w, r) ==> w' == w
    ensures w.found && w' != w ==> LexLess(w'.period, w'.id, w.period, w.id)
  {
    if Accepts(w, r) then Winner(true, r.status, r.prd, r.thn) else w
  }

  /** The record after a sequence of reports, in order. */
  function ApplyAll(w: Winner, rs: seq<Report>): Winner
    decreases |rs|
  {
    if rs == [] then w else ApplyAll(Apply(w, rs[0]), rs[1..])
  }

  /** Every report is conclusive. */
  predicate AllConclusive(rs: seq<Report>)
  {
    forall i :: 0 <= i < |rs| ==> rs[i].status != UNKNOWN
  }

  /** The record names report `r` exactly. */
  predicate Names(w: Winner, r: Report)
  {
    w.found && w.result == r.status && w.period == r.prd && w.id == r.thn
  }

  /**
   * With conclusive reports only, the winner after a nonempty sequence is one of the reports
   * and its signature is lexicographically no larger than that of any report.
   */
  lemma {:induction false} WinnerIsMinimum(w: Winner, rs: seq<Report>)
    requires AllConclusive(rs) && |rs| > 0
    requires w.found ==> w.result != UNKNOWN
    ensures var f := ApplyAll(w, rs);
      f.found &&
      (forall i :: 0 <= i < |rs| ==> !LexLess(rs[i].prd, rs[i].thn, f.period, f.id)) &&
      (!w.found ==> exists i :: 0 <= i < |rs| && Names(f, rs[i]))
    decreases |rs|
  {
    var w1 := Apply(w, rs[0]);
    if |rs| == 1 {
      assert ApplyAll(w1, rs[1..]) == w1;
      if !w.found {
        assert Names(w1, rs[0]);
      }
    } else {
      var tail := rs[1..];
      assert AllConclusive(tail) by {
        forall i | 0 <= i < |tail| ensures tail[i].status != UNKNOWN {
          assert tail[i] == rs[i + 1];
        }
      }
      WinnerIsMinimum(w1, tail);
      var f := ApplyAll(w1, tail);
      ApplyAllNoLarger(w1, tail);
      forall i | 0 <= i < |rs|
        ensures !LexLess(rs[i].prd, rs[i].thn, f.period, f.id)
      {
        if i > 0 {
          assert rs[i] == tail[i - 1];
        }
      }
      if !w.found {
        ApplyAllKeepsOrNames(w1, tail);
        if f == w1 {
          assert Names(f, rs[0]);
        } else {
          var j :| 0 <= j < |tail| && Names(f, tail[j]);
          assert Names(f, rs[j + 1]);
        }
      }
    }
  }

  /** With a recorded winner, later reports only move the signature down. */
  lemma {:induction false} ApplyAllNoLarger(w: Winner, rs: seq<Report>)
    requires w.found
    ensures var f := ApplyAll(w, rs);
      f.found && ((f.period == w.period && f.id == w.id) || LexLess(f.period, f.id, w.period, w.id))
    decreases |rs|
  {
    if rs != [] {
      var w1 := Apply(w, rs[0]);
      ApplyAllNoLarger(w1, rs[1..]);
    }
  }

  /** The final record is the starting one or names one of the reports. */
  lemma {:induction false} ApplyAllKeepsOrNames(w: Winner, rs: seq<Report>)
    ensures var f := ApplyAll(w, rs);
      f == w || exists i :: 0 <= i < |rs| && Names(f, rs[i])
    decreases |rs|
  {
    if rs != [] {
      var w1 := Apply(w, rs[0]);
      ApplyAllKeepsOrNames(w1, rs[1..]);
      var f := ApplyAll(w1, rs[1..]);
      if f == w1 {
        if w1 != w {
          assert Names(f, rs[0]);
        }
      } else {
        var j :| 0 <= j < |rs[1..]| && Names(f, rs[1..][j]);
        assert Names(f, rs[j + 1]);
      }
    }
  }

  /** The reports (5,2), (3,4), (3,1), all conclusive, leave thread 1 of period 3 as the winner. */
  lemma TieBreakExample()
    ensures var rs := [Report(SAT, 5, 2), Report(SAT, 3, 4), Report(SAT, 3, 1)];
      ApplyAll(NoWinner(), rs) == Winner(true, SAT, 3, 1)
  {
    var rs := [Report(SAT, 5, 2), Report(SAT, 3, 4), Report(SAT, 3, 1)];
    assert rs[1..] == [Report(SAT, 3, 4), Report(SAT, 3, 1)];
    assert rs[1..][1..] == [Report(SAT, 3, 1)];
  }

  /**
   * The termination rule: stop once some result is recorded, immediately when it is UNKNOWN,
   * otherwise once the caller's period is more than `margin` past the winner's period (by then
   * every clause the winner could still have imported has been exchanged).
   */
  predicate Terminates(w: Winner, margin: nat, prd: nat)
  {
    w.found && (w.result == UNKNOWN || w.period + margin < prd)
  }

  /** A conclusive winner at period 100 with margin 20: period 120 goes on, period 121 stops. */
  lemma TerminationExample()
    ensures !Terminates(Winner(true, UNSAT, 100, 3), 20, 120)
    ensures Terminates(Winner(true, UNSAT, 100, 3), 20, 121)
  {
  }

  /** Once a thread should stop at some period it should stop at every later one. */
  lemma TerminatesMonotone(w: Winner, margin: nat, prd: nat, later: nat)
    requires Terminates(w, margin, prd) && prd <= later
    ensures Terminates(w, margin, later)
  {
  }

  /**
   * The shared object of all workers: the mailbox table, the live-worker count and the winner
   * record. The mutex and the atomics are not modelled; each operation is atomic here.
   */
  class Sharer {
    const numThreads: nat
    const margin: nat
    const memAccLim: nat
    const pcqm: PrdClausesQueueMgr
    var numLiveThreads: int
    var launched: bool
    var solFound: bool
    var finalResult: SATResult
    var winnerPeriod: nat
    var winnerId: int

    /**
     * The live count is never negative and stays 0 until the first launch; the table holds one
     * well-formed mailbox per worker and does not contain the sharer itself.
     */
    ghost predicate Valid()
      reads this, pcqm, pcqm.Repr
    {
      numLiveThreads >= 0 && (!launched ==> numLiveThreads == 0) &&
      pcqm.Valid() && |pcqm.queues| == numThreads && this !in pcqm.Repr
    }

    /** The winner record held in the fields. */
    function Record(): Winner
      reads this
    {
      Winner(solFound, finalResult, winnerPeriod, winnerId)
    }

    constructor (nbThreads: nat, prdMargin: nat, lim: nat)
      ensures Valid() && fresh(pcqm.Repr)
      ensures numThreads == nbThreads && margin == prdMargin && memAccLim == lim
      ensures numLiveThreads == 0 && !launched && Record() == NoWinner()
      ensures Initial(pcqm.queues, nbThreads)
    {
      numThreads := nbThreads;
      margin := prdMargin;
      memAccLim := lim;
      pcqm := new PrdClausesQueueMgr(nbThreads);
      numLiveThreads := 0;
      launched := false;
      solFound := false;
      finalResult := UNKNOWN;
      winnerPeriod := 0;
      winnerId := -1;
    }

    /** The mailbox of worker `threadId`. */
    function Get(threadId: nat): (q: PrdClausesQueue)
      reads this, pcqm, pcqm.Repr
      requires Valid() && threadId < numThreads
      ensures q == pcqm.queues[threadId] && q.Valid() && q.thn == threadId && q.numThreads == numThreads
    {
      pcqm.Get(threadId)
    }

    /**
     * Worker `thn` closes its current period with the length candidate `len`: its mailbox gets
     * the next open set (see `PrdClausesQueue.CompleteAddtion`), the sets every reader has
     * acknowledged are dropped from its front up to the first that is not, and no other mailbox
     * changes.
     */
    method CompleteCurrPeriod(thn: nat, len: nat) returns (ghost closed: PrdClauses, ghost evicted: nat)
      requires Valid() && thn < numThreads
      modifies pcqm`Repr, Get(thn)`queue, Get(thn)`Repr, Get(thn).Last()
      ensures Valid()
      ensures closed == old(pcqm.queues[thn].Last())
      ensures closed.completed
      ensures closed.prdLen == len
      ensures closed.clauses == old(closed.clauses)
      ensures fresh(pcqm.queues[thn].Last())
      ensures pcqm.queues[thn].Last().prd == closed.prd + 1
      ensures pcqm.queues[thn].Last().clauses == []
      ensures evicted <= |old(pcqm.queues[thn].queue)|
      ensures pcqm.queues[thn].queue == (old(pcqm.queues[thn].queue) + [pcqm.queues[thn].Last()])[evicted..]
      ensures forall k :: 0 <= k < evicted ==> old(pcqm.queues[thn].queue)[k].numExportedThreads == numThreads
      ensures |pcqm.queues[thn].queue| > 1 ==> pcqm.queues[thn].queue[0].numExportedThreads != numThreads
      ensures pcqm.queues[thn].nextPeriod == old(pcqm.queues[thn].nextPeriod)
      ensures fresh(pcqm.Repr - old(pcqm.Repr))
    {
      closed, evicted := pcqm.CompleteAddtionOf(thn, len);
    }

    /** A worker starts; the sharer counts as launched from now on. */
    method IncNumLiveThreads()
      requires Valid()
      modifies this`numLiveThreads, this`launched
      ensures Valid() && launched
      ensures numLiveThreads == old(numLiveThreads) + 1
    {
      numLiveThreads := numLiveThreads + 1;
      launched := true;
    }

    /** A worker stops; at least one must be live. */
    method DecNumLiveThreads()
      requires Valid() && numLiveThreads >= 1
      modifies this`numLiveThreads
      ensures Valid()
      ensures numLiveThreads == old(numLiveThreads) - 1
    {
      numLiveThreads := numLiveThreads - 1;
    }

    /** -1 before any worker started, the live count afterwards. */
    function GetNumLiveSolvers(): (n: int)
      reads this, pcqm, pcqm.Repr
      requires Valid()
      ensures n >= -1
      ensures n == -1 <==> !launched
      ensures launched ==> n == numLiveThreads
    {
      if launched then numLiveThreads else -1
    }

    function HasNoLiveThreads(): (b: bool)
      reads this, pcqm, pcqm.Repr
      requires Valid()
      ensures b <==> GetNumLiveSolvers() <= 0
    {
      numLiveThreads == 0
    }

    /** The termination query; it changes nothing. */
    function ShouldBeTerminated(prd: nat): (b: bool)
      reads this
      ensures b == Terminates(Record(), margin, prd)
      ensures !solFound ==> !b
      ensures solFound && finalResult == UNKNOWN ==> b
      ensures solFound && finalResult != UNKNOWN ==> (b <==> prd > winnerPeriod + margin)
    {
      solFound && (finalResult == UNKNOWN || winnerPeriod + margin < prd)
    }

    /** Thread `thn` reports `status` at period `prd`; returns whether it became the winner. */
    method IFinished(status: SATResult, prd: nat, thn: int) returns (foundBetterOne: bool)
      requires Consistent(Record(), Report(status, prd, thn))
      modifies this`solFound, this`winnerId, this`winnerPeriod, this`finalResult
      ensures foundBetterOne <==> Accepts(old(Record()), Report(status, prd, thn))
      ensures Record() == Apply(old(Record()), Report(status, prd, thn))
    {
      foundBetterOne := false;
      if !solFound
         || (status != UNKNOWN && prd < winnerPeriod)
         || (status != UNKNOWN && prd == winnerPeriod && thn < winnerId)
      {
        foundBetterOne := true;
        solFound := true;
        winnerId := thn;
        winnerPeriod := prd;
        finalResult := status;
      }
    }
  }
}
