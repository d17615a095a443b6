/** One producer's mailbox of period clause sets (period/PrdClausesQueue.cpp). */
module PeriodQueue {
  import opened Clauses
  import opened PeriodClauses

  /** `n` cursors at period 0. */
  function Zeros(n: nat): (z: seq<nat>)
    ensures |z| == n && forall t :: 0 <= t < n ==> z[t] == 0
  {
    if n == 0 then [] else Zeros(n - 1) + [0]
  }

  /** The number of consumers whose read cursor has already moved past period `p`. */
  function CountAbove(cursors: seq<nat>, p: nat): (n: nat)
    ensures n <= |cursors|
  {
    if cursors == [] then 0
    else CountAbove(cursors[..|cursors| - 1], p) + (if cursors[|cursors| - 1] > p then 1 else 0)
  }

  lemma {:induction false} CountAboveUpdate(s: seq<nat>, t: nat, x: nat, q: nat)
    requires t < |s|
    ensures CountAbove(s[t := x], q) + (if s[t] > q then 1 else 0)
         == CountAbove(s, q) + (if x > q then 1 else 0)
    decreases |s|
  {
    var n := |s| - 1;
    var s' := s[t := x];
    assert s'[..n] == if t == n then s[..n] else s[..n][t := x];
    if t < n {
      CountAboveUpdate(s[..n], t, x, q);
    }
  }

  /** Moving one cursor from `p` to `p + 1` adds one acknowledgement for period `p` and no other. */
  lemma CountAboveStep(s: seq<nat>, t: nat, p: nat, q: nat)
    requires t < |s| && s[t] == p
    ensures CountAbove(s[t := p + 1], q) == CountAbove(s, q) + (if q == p then 1 else 0)
  {
    CountAboveUpdate(s, t, p + 1, q);
  }

  /** A cursor still at or below period `p` keeps the set of `p` short of a full acknowledgement. */
  lemma CountAboveShort(s: seq<nat>, t: nat, p: nat)
    requires t < |s| && s[t] <= p
    ensures CountAbove(s, p) < |s|
  {
    CountAboveUpdate(s, t, p + 1, p);
  }

  lemma {:induction false} CountAboveNone(s: seq<nat>, p: nat)
    requires forall t :: 0 <= t < |s| ==> s[t] <= p
    ensures CountAbove(s, p) == 0
    decreases |s|
  {
    if s != [] {
      CountAboveNone(s[..|s| - 1], p);
    }
  }

  /** A period acknowledged by every consumer has been passed by every cursor. */
  lemma {:induction false} CountAboveAll(s: seq<nat>, p: nat)
    requires CountAbove(s, p) == |s|
    ensures forall t :: 0 <= t < |s| ==> s[t] > p
    decreases |s|
  {
    if s != [] {
      var s' := s[..|s| - 1];
      assert CountAbove(s', p) <= |s'|;
      CountAboveAll(s', p);
      assert forall t :: 0 <= t < |s'| ==> s[t] == s'[t];
    }
  }

  /** The chain shape of a mailbox: consecutive periods of one owner, all but the last completed. */
  ghost predicate Chain(qs: seq<PrdClauses>, owner: int)
    reads qs`numLiterals, qs`clauses, qs`completed
  {
    |qs| > 0 &&
    (forall k :: 0 <= k < |qs| ==> qs[k].thn == owner && qs[k].prd == qs[0].prd + k) &&
    (forall k {:trigger qs[k].Valid()} :: 0 <= k < |qs| ==> qs[k].Valid()) &&
    (forall k :: 0 <= k < |qs| - 1 ==> qs[k].completed) &&
    !qs[|qs| - 1].completed
  }

  /** Every set's acknowledgement count is the number of cursors past its period. */
  ghost predicate AcksMatch(qs: seq<PrdClauses>, cursors: seq<nat>)
    reads qs`numExportedThreads
  {
    forall k {:trigger qs[k].numExportedThreads} :: 0 <= k < |qs| ==> qs[k].numExportedThreads == CountAbove(cursors, qs[k].prd)
  }

  /**
   * The mailbox of producer `thn`. `queue` holds the retained sets, oldest first; `nextPeriod[t]`
   * is the next period consumer `t` has not fetched yet. The read/write lock is not modelled.
   */
  class PrdClausesQueue {
    const thn: int
    const numThreads: nat
    var nextPeriod: seq<nat>
    var queue: seq<PrdClauses>
    ghost var Repr: set<object>

    ghost predicate Valid()
      reads this, Repr
    {
      this in Repr &&
      (forall k :: 0 <= k < |queue| ==> queue[k] in Repr) &&
      |nextPeriod| == numThreads &&
      Chain(queue, thn) &&
      (forall t :: 0 <= t < numThreads ==> queue[0].prd <= nextPeriod[t] <= queue[|queue| - 1].prd) &&
      AcksMatch(queue, nextPeriod)
    }

    /** The oldest retained period. */
    function Front(): nat
      reads this`queue
      requires |queue| > 0
    {
      queue[0].prd
    }

    /** The newest set: the one the owner is still filling. */
    function Last(): (s: PrdClauses)
      reads this, Repr
      requires Valid()
      ensures s in Repr && !s.completed
      ensures forall k :: 0 <= k < |queue| ==> queue[k].prd <= s.prd
      ensures s.prd == Front() + |queue| - 1
    {
      queue[|queue| - 1]
    }

    constructor (threadId: int, nbThreads: nat)
      ensures Valid() && fresh(Repr)
      ensures thn == threadId && numThreads == nbThreads
      ensures nextPeriod == Zeros(nbThreads)
      ensures |queue| == 1 && queue[0].prd == 0 && queue[0].clauses == []
      ensures queue[0].numExportedThreads == 0 && queue[0].prdLen == 0
    {
      thn := threadId;
      numThreads := nbThreads;
      nextPeriod := Zeros(nbThreads);
      var pcs := new PrdClauses(threadId, 0);
      queue := [pcs];
      Repr := {this, pcs};
      CountAboveNone(Zeros(nbThreads), 0);
    }

    /**
     * Ends the owner's current period: appends a fresh open set for the next period, completes the
     * previous last set with the candidate length `len`, then drops fully acknowledged sets from
     * the front. `evicted` is the number of sets dropped.
     */
    method CompleteAddtion(len: nat) returns (ghost evicted: nat)
      requires Valid()
      modifies this`queue, this`Repr, Last()
      ensures Valid() && fresh(Repr - old(Repr))
      ensures fresh(Last()) && Last().prd == old(Last().prd) + 1 && Last().thn == thn
      ensures Last().clauses == [] && Last().numExportedThreads == 0 && Last().prdLen == 0
      ensures old(Last()).completed && old(Last()).prdLen == len
      ensures old(Last()).clauses == old(Last().clauses)
      ensures old(Last()).numExportedThreads == old(Last().numExportedThreads)
      ensures evicted <= |old(queue)|
      ensures queue == (old(queue) + [Last()])[evicted..]
      ensures forall k :: 0 <= k < evicted ==> old(queue)[k].numExportedThreads == numThreads
      ensures |queue| > 1 ==> queue[0].numExportedThreads != numThreads
    {
      ghost var q0 := queue;
      AppendNext(len);
      assert forall k :: 0 <= k < |q0| ==> queue[k] == q0[k];
      evicted := EvictAcknowledged();
    }

    /** The first half of `completeAddtion`: open the next period's set, then complete the old last one. */
    method AppendNext(len: nat)
      requires Valid()
      modifies this`queue, this`Repr, Last()
      ensures Valid() && Repr == old(Repr) + {Last()}
      ensures fresh(Last()) && Last().prd == old(Last().prd) + 1
      ensures Last().clauses == [] && Last().numExportedThreads == 0 && Last().prdLen == 0
      ensures old(Last()).completed && old(Last()).prdLen == len
      ensures old(Last()).clauses == old(Last().clauses)
      ensures old(Last()).numExportedThreads == old(Last().numExportedThreads)
      ensures queue == old(queue) + [Last()]
    {
      var last := queue[|queue| - 1];
      var pcs := new PrdClauses(thn, last.prd + 1);
      ghost var before := queue;
      queue := queue + [pcs];
      Repr := Repr + {pcs};
      last.CompleteAddition(len);
      CountAboveNone(nextPeriod, pcs.prd);
      assert forall k :: 0 <= k < |before| ==> queue[k] == before[k];
      assert Chain(queue, thn);
      assert AcksMatch(queue, nextPeriod);
    }

    /** The eviction loop of `completeAddtion`: drop front sets every consumer has acknowledged. */
    method EvictAcknowledged() returns (ghost evicted: nat)
      requires Valid()
      modifies this`queue
      ensures Valid()
      ensures evicted < |old(queue)| && queue == old(queue)[evicted..]
      ensures forall k :: 0 <= k < evicted ==> old(queue)[k].numExportedThreads == numThreads
      ensures |queue| > 1 ==> queue[0].numExportedThreads != numThreads
    {
      ghost var full := queue;
      evicted := 0;
      while |queue| > 1
        invariant 0 <= evicted < |full| && queue == full[evicted..]
        invariant forall k :: 0 <= k < evicted ==> full[k].numExportedThreads == numThreads
        invariant forall t :: 0 <= t < numThreads ==> full[0].prd + evicted <= nextPeriod[t]
        decreases |queue|
      {
        var head := queue[0];
        if head.GetNumExportedThreads() != numThreads {
          break;
        }
        assert head == full[evicted];
        CountAboveAll(nextPeriod, head.prd);
        queue := queue[1..];
        evicted := evicted + 1;
      }
      SuffixKeepsShape(full, thn, evicted, nextPeriod);
    }

    /** Consumer `t` has read set `s` (the one at its cursor): advance the cursor, count the ack. */
    method CompleteExportation(t: nat, s: PrdClauses)
      requires Valid() && t < numThreads && s in queue
      requires nextPeriod[t] == s.prd && s.completed
      modifies this`nextPeriod, s`numExportedThreads
      ensures Valid()
      ensures nextPeriod == old(nextPeriod)[t := old(nextPeriod[t]) + 1]
      ensures s.numExportedThreads == old(s.numExportedThreads) + 1
    {
      ghost var k :| 0 <= k < |queue| && queue[k] == s;
      assert k < |queue| - 1;
      AcksAfterStep(queue, thn, nextPeriod, t, k);
      nextPeriod := nextPeriod[t := nextPeriod[t] + 1];
      s.CompleteExportation(t);
      forall j | 0 <= j < |queue|
        ensures queue[j].numExportedThreads == CountAbove(nextPeriod, queue[j].prd)
      {
        if j != k {
          assert queue[j] != s;
          assert queue[j].numExportedThreads == old(queue[j].numExportedThreads);
        }
      }
    }

    /**
     * The set consumer `thread` should read next: null when `period` is already behind its cursor,
     * otherwise the set AT THE CURSOR (which may be older than `period`).
     */
    method Get(thread: nat, period: nat) returns (p: PrdClauses?)
      requires Valid() && thread < numThreads
      ensures p == null <==> period < nextPeriod[thread]
      ensures p != null ==> p == queue[nextPeriod[thread] - Front()] && p.prd == nextPeriod[thread]
      ensures p != null ==> p in queue && (p.completed <==> p.prd < Front() + |queue| - 1)
    {
      var c := nextPeriod[thread];
      if period < c {
        return null;
      }
      var index := c - queue[0].prd;
      p := queue[index];
    }

    /**
     * The frame argument for filling the open set: when, of this mailbox, only the clause list and
     * literal count of the last set changed and that set is still valid, the mailbox stays valid.
     */
    twostate lemma LastFilled()
      requires old(Valid())
      requires forall o :: o in old(Repr) && o != old(queue[|queue| - 1]) ==> unchanged(o)
      requires queue[|queue| - 1].Valid()
      requires var s := queue[|queue| - 1];
        s.completed == old(s.completed) && s.numExportedThreads == old(s.numExportedThreads)
      ensures Valid()
    {
      assert queue == old(queue) && Repr == old(Repr);
      assert forall k :: 0 <= k < |queue| - 1 ==> queue[k] != queue[|queue| - 1];
    }

    /** `get(period)` of the source: the owner's own lookup of the set of exactly `period`. */
    method GetOwn(period: nat) returns (p: PrdClauses)
      requires Valid() && Front() <= period < Front() + |queue|
      ensures p == queue[period - Front()] && p.prd == period
    {
      var index := period - queue[0].prd;
      p := queue[index];
    }
  }

  /**
   * When consumer `t` passes the set at index `k` (the one at its cursor), that set gains one
   * acknowledgement and every other set keeps its count.
   */
  lemma AcksAfterStep(qs: seq<PrdClauses>, owner: int, cursors: seq<nat>, t: nat, k: nat)
    requires Chain(qs, owner) && AcksMatch(qs, cursors)
    requires t < |cursors| && k < |qs| && cursors[t] == qs[k].prd
    ensures forall j :: 0 <= j < |qs| ==>
      qs[j].numExportedThreads + (if j == k then 1 else 0) ==
      CountAbove(cursors[t := cursors[t] + 1], qs[j].prd)
  {
    forall j | 0 <= j < |qs|
      ensures qs[j].numExportedThreads + (if j == k then 1 else 0) ==
        CountAbove(cursors[t := cursors[t] + 1], qs[j].prd)
    {
      CountAboveStep(cursors, t, cursors[t], qs[j].prd);
    }
  }

  /** Dropping fully acknowledged sets from the front keeps the chain and the ack counts. */
  lemma SuffixKeepsShape(full: seq<PrdClauses>, owner: int, d: nat, cursors: seq<nat>)
    requires Chain(full, owner) && AcksMatch(full, cursors) && d < |full|
    ensures Chain(full[d..], owner) && AcksMatch(full[d..], cursors)
    ensures full[d..][0].prd == full[0].prd + d
  {
    var s := full[d..];
    assert forall k :: 0 <= k < |s| ==> s[k] == full[d + k];
  }
}
