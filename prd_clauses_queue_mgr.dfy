/** The table of mailboxes, one per worker (period/PrdClausesQueueMgr.cpp). */
module PeriodQueueMgr {
  import opened PeriodClauses
  import opened PeriodQueue

  /**
   * Every listed mailbox is in its initial state: all cursors at period 0 and a single set
   * retained, the empty open set of period 0.
   */
  ghost predicate Initial(qs: seq<PrdClausesQueue>, n: nat)
    reads qs, set i | 0 <= i < |qs| && |qs[i].queue| > 0 :: qs[i].queue[0]
  {
    forall i :: 0 <= i < |qs| ==>
      qs[i].nextPeriod == Zeros(n) && |qs[i].queue| == 1 &&
      qs[i].queue[0].prd == 0 && qs[i].queue[0].clauses == []
  }

  /** `queues[i]` is the mailbox of worker `i`; the mailboxes share no object. */
  class PrdClausesQueueMgr {
    var queues: seq<PrdClausesQueue>
    ghost var Repr: set<object>

    ghost predicate Valid()
      reads this, Repr
    {
      Filled(|queues|)
    }

    /** The table invariant for a table under construction that will serve `n` workers. */
    ghost predicate Filled(n: nat)
      reads this, Repr
    {
      this in Repr &&
      (forall i :: 0 <= i < |queues| ==>
         queues[i] in Repr && queues[i].Repr <= Repr && this !in queues[i].Repr) &&
      (forall i :: 0 <= i < |queues| ==>
         queues[i].Valid() && queues[i].thn == i && queues[i].numThreads == n) &&
      (forall i, j :: 0 <= i < j < |queues| ==> queues[i].Repr !! queues[j].Repr)
    }

    /** A mailbox table for `numThreads` workers, each mailbox holding the open set of period 0. */
    constructor (numThreads: nat)
      ensures Valid() && fresh(Repr)
      ensures |queues| == numThreads && Initial(queues, numThreads)
    {
      queues := [];
      Repr := {this};
      new;
      SetNumThreads(numThreads);
    }

    /** Creates mailbox `i` for every worker `i < numThreads`; the table must be empty. */
    method SetNumThreads(numThreads: nat)
      requires Valid() && queues == []
      modifies this`queues, this`Repr
      ensures Valid() && fresh(Repr - old(Repr))
      ensures |queues| == numThreads && Initial(queues, numThreads)
    {
      while |queues| < numThreads
        invariant |queues| <= numThreads
        invariant Filled(numThreads) && Initial(queues, numThreads)
        invariant fresh(Repr - old(Repr))
        decreases numThreads - |queues|
      {
        AddQueue(numThreads);
      }
    }

    /** One round of `setNumThreads`: the mailbox of the next worker. */
    method AddQueue(n: nat)
      requires Filled(n) && Initial(queues, n) && |queues| < n
      modifies this`queues, this`Repr
      ensures Filled(n) && Initial(queues, n)
      ensures |queues| == old(|queues|) + 1 && fresh(Repr - old(Repr))
    {
      ghost var qs := queues;
      ghost var r := Repr;
      var q := new PrdClausesQueue(|queues|, n);
      assert q.Repr !! r && Initial(qs, n);
      queues := queues + [q];
      Repr := Repr + q.Repr;
      assert forall i :: 0 <= i < |qs| ==> queues[i] == qs[i];
      forall i, j | 0 <= i < j < |queues|
        ensures queues[i].Repr !! queues[j].Repr
      {
        if j == |qs| {
          assert queues[i].Repr <= r;
        }
      }
    }

    /**
     * `completeAddtion(len)` on mailbox `i`: it gets the next open set, the fully acknowledged
     * sets at its front are evicted up to the first that is not, and the table footprint grows by
     * the new objects; no other mailbox changes.
     */
    method CompleteAddtionOf(i: nat, len: nat) returns (ghost closed: PrdClauses, ghost evicted: nat)
      requires Valid() && i < |queues|
      modifies this`Repr, Get(i)`queue, Get(i)`Repr, Get(i).Last()
      ensures Valid()
      ensures closed == old(queues[i].Last())
      ensures closed.completed
      ensures closed.prdLen == len
      ensures closed.clauses == old(closed.clauses)
      ensures fresh(queues[i].Last())
      ensures queues[i].Last().prd == closed.prd + 1
      ensures queues[i].Last().clauses == []
      ensures evicted <= |old(queues[i].queue)|
      ensures queues[i].queue == (old(queues[i].queue) + [queues[i].Last()])[evicted..]
      ensures forall k :: 0 <= k < evicted ==> old(queues[i].queue)[k].numExportedThreads == queues[i].numThreads
      ensures |queues[i].queue| > 1 ==> queues[i].queue[0].numExportedThreads != queues[i].numThreads
      ensures queues[i].nextPeriod == old(queues[i].nextPeriod)
      ensures fresh(Repr - old(Repr))
    {
      var q := queues[i];
      closed := q.Last();
      evicted := q.CompleteAddtion(len);
      Repr := Repr + q.Repr;
      OthersKept(i);
    }

    /**
     * `completeExportation(t, s)` on mailbox `i`: consumer `t` acknowledges the set at its cursor;
     * no other mailbox changes.
     */
    method CompleteExportationOf(i: nat, t: nat, s: PrdClauses)
      requires Valid() && i < |queues| && t < |queues|
      requires s in queues[i].queue && queues[i].nextPeriod[t] == s.prd && s.completed
      modifies Get(i)`nextPeriod, s`numExportedThreads
      ensures Valid()
      ensures queues[i].nextPeriod == old(queues[i].nextPeriod)[t := old(queues[i].nextPeriod[t]) + 1]
      ensures s.numExportedThreads == old(s.numExportedThreads) + 1
      ensures forall j :: 0 <= j < |queues| && j != i ==> queues[j].nextPeriod == old(queues[j].nextPeriod)
    {
      queues[i].CompleteExportation(t, s);
      OthersKept(i);
    }

    /**
     * The frame argument shared by the operations that change one mailbox: when only objects of
     * the old footprint of mailbox `i0` (and the table's own `Repr`) changed, every other mailbox
     * keeps its footprint and validity, and the footprints stay pairwise disjoint.
     */
    twostate lemma OthersKept(i0: nat)
      requires old(Valid()) && i0 < |queues| && queues == old(queues)
      requires forall o :: o in old(Repr) && o !in old(queues[i0].Repr) && o != this ==> unchanged(o)
      requires fresh(queues[i0].Repr - old(queues[i0].Repr))
      ensures forall j :: 0 <= j < |queues| && j != i0 ==>
        queues[j].Repr == old(queues[j].Repr) && queues[j].Valid() == old(queues[j].Valid())
      ensures forall j, k :: 0 <= j < k < |queues| ==> queues[j].Repr !! queues[k].Repr
    {
      forall j | 0 <= j < |queues| && j != i0
        ensures queues[j].Repr == old(queues[j].Repr) && queues[j].Valid() == old(queues[j].Valid())
      {
        assert old(queues[j].Repr) !! old(queues[i0].Repr);
      }
      forall j, k | 0 <= j < k < |queues|
        ensures queues[j].Repr !! queues[k].Repr
      {
        assert old(queues[j].Repr) !! old(queues[k].Repr);
      }
    }

    /** The mailbox of worker `threadId`. */
    function Get(threadId: nat): (q: PrdClausesQueue)
      reads this, Repr
      requires Valid() && threadId < |queues|
      ensures q.Valid() && q.thn == threadId && q.numThreads == |queues|
      ensures q in Repr && q.Repr <= Repr && this !in q.Repr
    {
      queues[threadId]
    }
  }
}
