/** The period loop of one worker (solvers/AbstDetSeqSolver.cpp). */
module DetSeqSolver {
  import opened Clauses
  import opened PeriodClauses
  import opened PeriodQueue
  import opened PeriodQueueMgr
  import opened Buffer
  import opened Winners

  /** The producer visited in round `i` of an import: `i` steps after the worker itself, in ring order. */
  function RingTarget(thn: nat, i: nat, n: nat): (t: nat)
    requires n > 0
    ensures t < n
  {
    (thn + i) % n
  }

  /** Rounds `1 .. n-1` never visit the importing worker itself. */
  lemma RingSkipsSelf(thn: nat, i: nat, n: nat)
    requires thn < n && 0 < i < n
    ensures RingTarget(thn, i, n) != thn
  {
    if thn + i < n {
      assert RingTarget(thn, i, n) == thn + i;
    } else {
      assert RingTarget(thn, i, n) == thn + i - n;
    }
  }

  /** Every other producer is visited in exactly one of the rounds `1 .. n-1`. */
  lemma RingVisitsOthersOnce(thn: nat, t: nat, n: nat)
    requires thn < n && t < n && t != thn
    ensures exists i :: 0 < i < n && RingTarget(thn, i, n) == t
    ensures forall i, j :: 0 < i < n && 0 < j < n && RingTarget(thn, i, n) == t && RingTarget(thn, j, n) == t ==> i == j
  {
    var i := if thn < t then t - thn else t + n - thn;
    RingUnfold(thn, i, n);
    forall i, j | 0 < i < n && 0 < j < n && RingTarget(thn, i, n) == t && RingTarget(thn, j, n) == t
      ensures i == j
    {
      RingUnfold(thn, i, n);
      RingUnfold(thn, j, n);
    }
  }

  /** For a worker and a round below `n`, the modulus wraps at most once. */
  lemma RingUnfold(thn: nat, i: nat, n: nat)
    requires thn < n && i < n
    ensures RingTarget(thn, i, n) == if thn + i < n then thn + i else thn + i - n
  {
    var x := thn + i;
    if x < n {
      assert x / n == 0;
    } else {
      assert x / n == 1;
    }
  }

  /**
   * Where one import leaves a consumer cursor that starts at `c0`, when it fetches up to `period`
   * from a mailbox whose open set has period `last`: nothing when the cursor is already past
   * `period`, otherwise up to `period`, but never into the open set.
   */
  function Reach(c0: nat, period: nat, last: nat): (r: nat)
    requires c0 <= last
    ensures c0 <= r <= last
    ensures period < c0 ==> r == c0
    ensures c0 <= period ==> r <= period + 1 && (r == period + 1 || r == last)
  {
    if period < c0 then c0 else if period + 1 <= last then period + 1 else last
  }

  /**
   * The clause lists of the sets `qs`, as values: a snapshot of fields with no counterpart in
   * the source, so that contracts can speak of the contents before and after a heap update.
   */
  ghost function ClausesOf(qs: seq<PrdClauses>): (cls: seq<seq<Clause>>)
    reads qs`clauses
    ensures |cls| == |qs| && forall k :: 0 <= k < |qs| ==> cls[k] == qs[k].clauses
  {
    if qs == [] then [] else ClausesOf(qs[..|qs| - 1]) + [qs[|qs| - 1].clauses]
  }

  /** The period-length candidates of the sets `qs`, as values: a snapshot of fields, like `ClausesOf`. */
  ghost function LensOf(qs: seq<PrdClauses>): (lens: seq<nat>)
    reads qs`prdLen
    ensures |lens| == |qs| && forall k :: 0 <= k < |qs| ==> lens[k] == qs[k].prdLen
  {
    if qs == [] then [] else LensOf(qs[..|qs| - 1]) + [qs[|qs| - 1].prdLen]
  }

  /** The concatenation of `cls[lo .. hi)`. */
  function Gather(cls: seq<seq<Clause>>, lo: nat, hi: nat): seq<Clause>
    requires lo <= hi <= |cls|
    decreases hi
  {
    if lo == hi then [] else Gather(cls, lo, hi - 1) + cls[hi - 1]
  }

  /** The sum of `lens[lo .. hi)`. */
  function SumLen(lens: seq<nat>, lo: nat, hi: nat): nat
    requires lo <= hi <= |lens|
    decreases hi
  {
    if lo == hi then 0 else SumLen(lens, lo, hi - 1) + lens[hi - 1]
  }

  /**
   * The sets `sets` are non-empty with consecutive periods (as `PrdClausesQueue.Valid` guarantees
   * of a mailbox), and a cursor at `c` lies within them.
   */
  ghost predicate InRange(sets: seq<PrdClauses>, c: nat)
  {
    |sets| > 0 && sets[|sets| - 1].prd == sets[0].prd + |sets| - 1 && sets[0].prd <= c <= sets[|sets| - 1].prd
  }

  /**
   * The clauses a consumer whose cursor is at `c` fetches, up to `period`, from the sets `sets`
   * whose clause lists are `cls`.
   */
  ghost function Picked(sets: seq<PrdClauses>, cls: seq<seq<Clause>>, c: nat, period: nat): seq<Clause>
    requires InRange(sets, c) && |cls| == |sets|
  {
    var f := sets[0].prd;
    Gather(cls, c - f, Reach(c, period, sets[|sets| - 1].prd) - f)
  }

  /** The period-length candidates a consumer at `c` collects, up to `period`, from sets whose candidates are `lens`. */
  ghost function PickedLen(sets: seq<PrdClauses>, lens: seq<nat>, c: nat, period: nat): nat
    requires InRange(sets, c) && |lens| == |sets|
  {
    var f := sets[0].prd;
    SumLen(lens, c - f, Reach(c, period, sets[|sets| - 1].prd) - f)
  }

  /** The cursor of consumer `t` lies within the retained periods of `q`. */
  ghost predicate Fetchable(q: PrdClausesQueue, t: nat)
    reads q`nextPeriod, q`queue
  {
    t < |q.nextPeriod| && InRange(q.queue, q.nextPeriod[t])
  }

  /** The clauses consumer `t` fetches from `q` when it imports up to `period`. */
  ghost function Fetched(q: PrdClausesQueue, t: nat, period: nat): seq<Clause>
    reads q`nextPeriod, q`queue, q.queue`clauses
    requires Fetchable(q, t)
  {
    Picked(q.queue, ClausesOf(q.queue), q.nextPeriod[t], period)
  }

  /** The period-length candidates consumer `t` collects from `q` when it imports up to `period`. */
  ghost function FetchedLen(q: PrdClausesQueue, t: nat, period: nat): nat
    reads q`nextPeriod, q`queue, q.queue`prdLen
    requires Fetchable(q, t)
  {
    PickedLen(q.queue, LensOf(q.queue), q.nextPeriod[t], period)
  }

  /**
   * The split of one fetched set: clauses longer than one literal go to the end of `longs`, the
   * others to the end of `units`, each in stored order.
   */
  method SplitInto(cs: seq<Clause>, longs: seq<Clause>, units: seq<Clause>)
      returns (longs': seq<Clause>, units': seq<Clause>)
    ensures longs' == longs + Longs(cs) && units' == units + Units(cs)
  {
    var ls: seq<Clause>, us: seq<Clause> := [], [];
    var j := 0;
    while j < |cs|
      invariant j <= |cs|
      invariant ls == Longs(cs[..j]) && us == Units(cs[..j])
    {
      LongsUnitsPrefix(cs, j);
      if |cs[j]| > 1 {
        ls := ls + [cs[j]];
      } else {
        us := us + [cs[j]];
      }
      j := j + 1;
    }
    assert cs[..|cs|] == cs;
    longs', units' := longs + ls, units + us;
  }

  /** What an import has gathered so far: the non-unit and unit clauses and the candidate sum. */
  datatype Intake = Intake(longs: seq<Clause>, units: seq<Clause>, sum: nat)

  /** `acc` after taking in the clauses `cs` with candidate total `len`. */
  function Absorb(acc: Intake, cs: seq<Clause>, len: nat): Intake
  {
    Intake(acc.longs + Longs(cs), acc.units + Units(cs), acc.sum + len)
  }

  /** Taking in `g` and then `c` is taking in `g + c`. */
  lemma AbsorbTwice(acc: Intake, g: seq<Clause>, s: nat, c: seq<Clause>, l: nat)
    ensures Absorb(Absorb(acc, g, s), c, l) == Absorb(acc, g + c, s + l)
  {
    LongsUnitsAppend(g, c);
    assert acc.longs + Longs(g) + Longs(c) == acc.longs + (Longs(g) + Longs(c));
    assert acc.units + Units(g) + Units(c) == acc.units + (Units(g) + Units(c));
  }

  /** `acc` after taking in the sets `lo .. hi)` one at a time, as the fetch loop does. */
  function Taken(acc: Intake, cls: seq<seq<Clause>>, lens: seq<nat>, lo: nat, hi: nat): Intake
    requires lo <= hi <= |cls| && |lens| == |cls|
    decreases hi
  {
    if lo == hi then acc else Absorb(Taken(acc, cls, lens, lo, hi - 1), cls[hi - 1], lens[hi - 1])
  }

  /** Taking the sets in one at a time is taking in their concatenation and candidate sum. */
  lemma {:induction false} TakenAll(acc: Intake, cls: seq<seq<Clause>>, lens: seq<nat>, lo: nat, hi: nat)
    requires lo <= hi <= |cls| && |lens| == |cls|
    ensures Taken(acc, cls, lens, lo, hi) == Absorb(acc, Gather(cls, lo, hi), SumLen(lens, lo, hi))
    decreases hi
  {
    if lo == hi {
      assert acc.longs + Longs([]) == acc.longs && acc.units + Units([]) == acc.units;
    } else {
      TakenAll(acc, cls, lens, lo, hi - 1);
      AbsorbTwice(acc, Gather(cls, lo, hi - 1), SumLen(lens, lo, hi - 1), cls[hi - 1], lens[hi - 1]);
    }
  }

  /**
   * The fetch loop of `importClauses` on one mailbox: consumer `t` takes every set from its cursor
   * up to `period`, splits its clauses, adds up the candidates and acknowledges it. In the
   * deterministic mode the source waits for each set to be completed; here that wait is the
   * precondition that the open set lies past `period`. In the non-deterministic mode the loop
   * stops at the first set that is not completed (the `break` is the second half of the loop test).
   */
  method ImportFrom(q: PrdClausesQueue, t: nat, period: nat, nonDet: bool, acc: Intake) returns (acc': Intake)
    requires q.Valid() && t < q.numThreads
    requires !nonDet ==> period < q.Last().prd
    modifies q`nextPeriod, q.queue`numExportedThreads
    ensures q.Valid()
    ensures acc' == Absorb(acc, old(Fetched(q, t, period)), old(FetchedLen(q, t, period)))
    ensures |q.nextPeriod| == |old(q.nextPeriod)|
    ensures q.nextPeriod[t] == Reach(old(q.nextPeriod[t]), period, old(q.Last().prd))
    ensures forall u :: 0 <= u < |q.nextPeriod| && u != t ==> q.nextPeriod[u] == old(q.nextPeriod[u])
  {
    ghost var f := q.Front();
    ghost var c0 := q.nextPeriod[t];
    ghost var cls := ClausesOf(q.queue);
    ghost var lens := LensOf(q.queue);
    acc' := FetchLoop(q, t, period, nonDet, acc, f, f + |q.queue| - 1, c0, cls, lens);
    TakenAll(acc, cls, lens, c0 - f, Reach(c0, period, f + |q.queue| - 1) - f);
  }

  /**
   * The loop of `ImportFrom`, stated over the front period `f`, the open period `last`, the
   * starting cursor `c0` and the clause lists and candidates of the sets.
   */
  method FetchLoop(q: PrdClausesQueue, t: nat, period: nat, nonDet: bool, acc: Intake,
                   ghost f: nat, ghost last: nat, ghost c0: nat, ghost cls: seq<seq<Clause>>, ghost lens: seq<nat>)
      returns (acc': Intake)
    requires q.Valid() && t < q.numThreads
    requires f == q.Front() && last == f + |q.queue| - 1 && c0 == q.nextPeriod[t]
    requires |cls| == |q.queue| && |lens| == |q.queue|
    requires forall k :: 0 <= k < |q.queue| ==> q.queue[k].clauses == cls[k] && q.queue[k].prdLen == lens[k]
    requires !nonDet ==> period < last
    modifies q`nextPeriod, q.queue`numExportedThreads
    ensures q.Valid()
    ensures f <= c0 <= Reach(c0, period, last) <= last
    ensures acc' == Taken(acc, cls, lens, c0 - f, Reach(c0, period, last) - f)
    ensures |q.nextPeriod| == |old(q.nextPeriod)| && q.nextPeriod[t] == Reach(c0, period, last)
    ensures forall u :: 0 <= u < |q.nextPeriod| && u != t ==> q.nextPeriod[u] == old(q.nextPeriod[u])
  {
    ghost var np0 := q.nextPeriod;
    ghost var i := c0 - f;
    acc' := acc;
    var p := q.Get(t, period);
    while p != null && (!nonDet || p.IsAdditionCompleted())
      invariant Fetching(q, t, period, p, f, last, c0, np0, cls, lens, i)
      invariant acc' == Taken(acc, cls, lens, c0 - f, i)
      decreases Reach(c0, period, last) - i
    {
      p, acc' := FetchStep(q, t, period, p, acc', f, last, c0, np0, cls, lens, acc, i);
      i := i + 1;
    }
    assert f + i == Reach(c0, period, last);
  }

  /**
   * The state of the fetch loop: the cursor of consumer `t` is at index `i` of a mailbox whose front
   * period is `f` and open period `last`, between its start `c0` and where the import ends; the
   * other cursors are as in `np0`; `p` is what `get` returned for the cursor.
   */
  ghost predicate Fetching(q: PrdClausesQueue, t: nat, period: nat, p: PrdClauses?, f: nat, last: nat, c0: nat,
                           np0: seq<nat>, cls: seq<seq<Clause>>, lens: seq<nat>, i: nat)
    reads q, q.Repr
  {
    q.Valid() && t < q.numThreads && q.Front() == f && last == f + |q.queue| - 1 &&
    q.nextPeriod[t] == f + i && f <= c0 <= f + i <= Reach(c0, period, last) && i < |q.queue| &&
    |q.nextPeriod| == |np0| &&
    (forall u :: 0 <= u < |q.nextPeriod| && u != t ==> q.nextPeriod[u] == np0[u]) &&
    (p == null <==> period < q.nextPeriod[t]) &&
    (p != null ==> p == q.queue[i] && p.prd == q.nextPeriod[t] && (p.completed <==> p.prd < last)) &&
    |cls| == |q.queue| && |lens| == |q.queue| &&
    (forall k :: 0 <= k < |q.queue| ==> q.queue[k].clauses == cls[k] && q.queue[k].prdLen == lens[k])
  }

  /**
   * One round of the fetch loop: split and acknowledge the set `p` at consumer `t`'s cursor (index
   * `i` of the mailbox, whose front period is `f` and open period `last`), then fetch again.
   * `acc'` is `acc0` after taking in the sets from period `c0` up to the cursor; `cls` and `lens`
   * are the clause lists and candidates of the sets; `np0` are the cursors before the loop.
   */
  method FetchStep(q: PrdClausesQueue, t: nat, period: nat, p: PrdClauses, acc: Intake,
                   ghost f: nat, ghost last: nat, ghost c0: nat, ghost np0: seq<nat>,
                   ghost cls: seq<seq<Clause>>, ghost lens: seq<nat>, ghost acc0: Intake, ghost i: nat)
      returns (p': PrdClauses?, acc': Intake)
    requires Fetching(q, t, period, p, f, last, c0, np0, cls, lens, i) && p.completed
    requires acc == Taken(acc0, cls, lens, c0 - f, i)
    modifies q`nextPeriod, p`numExportedThreads
    ensures Fetching(q, t, period, p', f, last, c0, np0, cls, lens, i + 1)
    ensures acc' == Taken(acc0, cls, lens, c0 - f, i + 1)
  {
    var longs, units := SplitInto(p.clauses, acc.longs, acc.units);
    acc' := Intake(longs, units, acc.sum + p.prdLen);
    q.CompleteExportation(t, p);
    assert q.nextPeriod[t] == f + i + 1 && q.Front() == f && |q.nextPeriod| == |np0|;
    p' := q.Get(t, period);
  }

  /** Consumer `t` has no cursor other than in `np` moved from `np0`, and that one now reads `c`. */
  predicate Advanced(np: seq<nat>, np0: seq<nat>, t: nat, c: nat)
  {
    |np| == |np0| && t < |np| && np[t] == c && forall u :: 0 <= u < |np| && u != t ==> np[u] == np0[u]
  }

  /**
   * The fetch loop of `importClauses` on the mailbox of worker `target` in the table `m`, whose
   * mailboxes `qs` hold the sets `sq` (clause lists `cls`, candidates `lens`) under the cursors
   * `np`: consumer `t` takes in what it fetches from that mailbox, its cursor there moves to `c`,
   * as `ImportFrom` says, and nothing else in the table changes.
   */
  method FetchFrom(m: PrdClausesQueueMgr, n: nat, target: nat, t: nat, period: nat, nonDet: bool, acc: Intake,
                   ghost qs: seq<PrdClausesQueue>, ghost sq: seq<seq<PrdClauses>>, ghost cls: seq<seq<seq<Clause>>>,
                   ghost lens: seq<seq<nat>>, ghost np: seq<seq<nat>>)
      returns (acc': Intake, ghost c: seq<nat>)
    requires RingHeap(m, n, qs, sq, cls, lens, np) && target < n && t < n
    requires InRange(sq[target], np[target][t])
    requires !nonDet ==> period < sq[target][|sq[target]| - 1].prd
    modifies m.Get(target)`nextPeriod, m.Get(target).queue`numExportedThreads
    ensures RingHeap(m, n, qs, sq, cls, lens, np[target := c])
    ensures acc' == Absorb(acc, Picked(sq[target], cls[target], np[target][t], period),
                           PickedLen(sq[target], lens[target], np[target][t], period))
    ensures Advanced(c, np[target], t, Reach(np[target][t], period, sq[target][|sq[target]| - 1].prd))
  {
    var q := m.queues[target];
    assert q == m.Get(target);
    acc' := ImportFrom(q, t, period, nonDet, acc);
    m.OthersKept(target);
    c := q.nextPeriod;
    forall u | 0 <= u < n
      ensures qs[u].queue == sq[u] && qs[u].nextPeriod == np[target := c][u]
    {
    }
    forall u | 0 <= u < n
      ensures ClausesOf(sq[u]) == cls[u] && LensOf(sq[u]) == lens[u]
    {
      assert old(ClausesOf(sq[u])) == cls[u] && old(LensOf(sq[u])) == lens[u];
    }
  }

  /**
   * A copy, as values, of the mailbox table when an import begins: every mailbox's cursors, its
   * retained sets, and the clause lists and period-length candidates of those sets.
   */
  datatype View = View(cursors: seq<seq<nat>>, sets: seq<seq<PrdClauses>>,
                       clauses: seq<seq<seq<Clause>>>, lens: seq<seq<nat>>)

  /** The view of the table `m` in the present state. */
  ghost function ViewOf(m: PrdClausesQueueMgr): (v: View)
    reads m, m.Repr
    requires m.Valid()
    ensures |v.sets| == |m.queues|
  {
    SetsInRepr(m);
    var sq := SetsOf(m.queues);
    View(CursorsOf(m.queues), sq, ClausesAll(sq), LensAll(sq))
  }

  /** The view of a valid table holds, mailbox by mailbox, its cursors, its sets and their contents. */
  lemma ViewRows(m: PrdClausesQueueMgr, v: View)
    requires m.Valid() && v == ViewOf(m)
    ensures |v.sets| == |m.queues| && |v.cursors| == |m.queues| && |v.clauses| == |m.queues| && |v.lens| == |m.queues|
    ensures forall u :: 0 <= u < |m.queues| ==>
      v.sets[u] == m.queues[u].queue && v.cursors[u] == m.queues[u].nextPeriod &&
      v.clauses[u] == ClausesOf(m.queues[u].queue) && v.lens[u] == LensOf(m.queues[u].queue)
  {
  }

  /** Every cursor of worker `thn` in the view lies within the sets of its mailbox. */
  ghost predicate Seen(v: View, thn: nat)
  {
    Snapshot(|v.sets|, thn, v.cursors, v.sets, v.clauses, v.lens)
  }

  /**
   * What an import by worker `thn` up to `period` takes from the table seen as `v`: for each
   * round `1 .. n-1` in ring order, the clauses it fetches from the visited mailbox from its
   * cursor in `v`.
   */
  ghost function RoundBatches(v: View, thn: nat, period: nat): (r: seq<seq<Clause>>)
    requires Seen(v, thn)
    ensures |r| == |v.sets| - 1
  {
    PickedRounds(|v.sets|, thn, period, v.cursors, v.sets, v.clauses, v.lens, |v.sets| - 1)
  }

  /** The period-length candidates each round of that import collects, in ring order. */
  ghost function RoundLens(v: View, thn: nat, period: nat): (r: seq<nat>)
    requires Seen(v, thn)
    ensures |r| == |v.sets| - 1
  {
    PickedRoundLens(|v.sets|, thn, period, v.cursors, v.sets, v.clauses, v.lens, |v.sets| - 1)
  }

  /** In the view, the cursor of worker `thn` in mailbox `u` lies within the sets of that mailbox. */
  ghost predicate RowSeen(v: View, thn: nat, u: nat)
  {
    u < |v.sets| && u < |v.cursors| && thn < |v.cursors[u]| && InRange(v.sets[u], v.cursors[u][thn])
  }

  /**
   * The cursors of mailbox `u` after an import by worker `thn` up to `period` from the table seen
   * as `v` (no import when `period` is negative): only the cursor of `thn` has moved, to where the
   * fetch loop leaves it once it has acknowledged every set it fetched.
   */
  ghost function AckedRow(v: View, thn: nat, period: int, u: nat): (np: seq<nat>)
    requires RowSeen(v, thn, u)
    ensures |np| == |v.cursors[u]|
  {
    if period < 0 then v.cursors[u]
    else v.cursors[u][thn := Reach(v.cursors[u][thn], period, v.sets[u][|v.sets[u]| - 1].prd)]
  }

  /** The cursor row `Advanced` describes is `AckedRow`, and conversely. */
  lemma AckedRowAdvanced(v: View, thn: nat, period: nat, u: nat, np: seq<nat>)
    requires Seen(v, thn) && u < |v.sets|
    ensures np == AckedRow(v, thn, period, u) <==>
      Advanced(np, v.cursors[u], thn, Reach(v.cursors[u][thn], period, v.sets[u][|v.sets[u]| - 1].prd))
  {
    var r := Reach(v.cursors[u][thn], period, v.sets[u][|v.sets[u]| - 1].prd);
    if Advanced(np, v.cursors[u], thn, r) {
      assert np == v.cursors[u][thn := r];
    }
  }

  /**
   * After an import up to `period`, the importer's cursor in another mailbox has passed every set
   * up to `period`, unless it stopped at the open set; a cursor already past `period` stays put.
   * So the next import starts where this one stopped and fetches no set twice.
   */
  lemma AckedRowResumes(v: View, thn: nat, period: nat, u: nat)
    requires Seen(v, thn) && u < |v.sets|
    ensures var c0, last := v.cursors[u][thn], v.sets[u][|v.sets[u]| - 1].prd;
      var c := AckedRow(v, thn, period, u)[thn];
      c0 <= c <= last && (period < c0 ==> c == c0) && (c0 <= period ==> c == period + 1 || c == last)
  {
  }

  /**
   * The table `m` after an import by worker `thn` up to `period` from the table seen as `v`: every
   * other mailbox retains the sets `v` shows, and its cursors are those of `AckedRow`, so `thn` has
   * acknowledged every set it fetched there and no other cursor has moved.
   */
  ghost predicate Acked(m: PrdClausesQueueMgr, v: View, thn: nat, period: int)
    reads m, m.queues
  {
    |m.queues| == |v.sets| &&
    forall u {:trigger AckedRow(v, thn, period, u)} :: 0 <= u < |v.sets| && u != thn ==>
      RowSeen(v, thn, u) && m.queues[u].queue == v.sets[u] && m.queues[u].nextPeriod == AckedRow(v, thn, period, u)
  }

  /** Without an import, the table as it is is the table as it was seen. */
  lemma AckedNone(m: PrdClausesQueueMgr, v: View, thn: nat, period: int)
    requires m.Valid() && v == ViewOf(m) && Seen(v, thn) && period < 0
    ensures Acked(m, v, thn, period)
  {
    ViewRows(m, v);
    forall u | 0 <= u < |v.sets| && u != thn
      ensures RowSeen(v, thn, u) && m.queues[u].nextPeriod == AckedRow(v, thn, period, u)
    {
    }
  }

  /** An import described over one view is described over any view that agrees on the others' mailboxes. */
  lemma AckedAgree(m: PrdClausesQueueMgr, v: View, w: View, thn: nat, period: int)
    requires Acked(m, v, thn, period) && Seen(w, thn) && OthersAgree(v, w, thn)
    ensures Acked(m, w, thn, period)
  {
    forall u | 0 <= u < |w.sets| && u != thn
      ensures RowSeen(w, thn, u) && m.queues[u].queue == w.sets[u] && m.queues[u].nextPeriod == AckedRow(w, thn, period, u)
    {
      assert AckedRow(v, thn, period, u) == AckedRow(w, thn, period, u);
    }
  }

  /** Two views of the table that differ at most in the mailbox of worker `thn`. */
  ghost predicate OthersAgree(v: View, w: View, thn: nat)
  {
    |v.sets| == |w.sets| && |v.cursors| == |w.cursors| == |v.sets| &&
    |v.clauses| == |w.clauses| == |v.sets| && |v.lens| == |w.lens| == |v.sets| &&
    forall u :: 0 <= u < |v.sets| && u != thn ==>
      v.cursors[u] == w.cursors[u] && v.sets[u] == w.sets[u] && v.clauses[u] == w.clauses[u] && v.lens[u] == w.lens[u]
  }

  lemma {:induction false} PickedRoundsOthers(v: View, w: View, thn: nat, period: nat, k: nat)
    requires Seen(v, thn) && Seen(w, thn) && OthersAgree(v, w, thn) && k < |v.sets|
    ensures PickedRounds(|v.sets|, thn, period, v.cursors, v.sets, v.clauses, v.lens, k)
         == PickedRounds(|w.sets|, thn, period, w.cursors, w.sets, w.clauses, w.lens, k)
    ensures PickedRoundLens(|v.sets|, thn, period, v.cursors, v.sets, v.clauses, v.lens, k)
         == PickedRoundLens(|w.sets|, thn, period, w.cursors, w.sets, w.clauses, w.lens, k)
    decreases k
  {
    if k > 0 {
      PickedRoundsOthers(v, w, thn, period, k - 1);
      RingSkipsSelf(thn, k, |v.sets|);
    }
  }

  /** A mailbox none of whose objects changed keeps its cursors, its sets and their contents. */
  twostate lemma QueueKept(q: PrdClausesQueue)
    requires old(q.Valid())
    requires forall o :: o in old(q.Repr) ==> unchanged(o)
    ensures q.queue == old(q.queue) && q.nextPeriod == old(q.nextPeriod)
    ensures ClausesOf(q.queue) == old(ClausesOf(q.queue)) && LensOf(q.queue) == old(LensOf(q.queue))
  {
    forall k | 0 <= k < |q.queue|
      ensures unchanged(q.queue[k])
    {
      assert q.queue[k] in old(q.Repr);
    }
  }

  /** What an import takes never depends on the importer's own mailbox. */
  lemma RoundsOthers(v: View, w: View, thn: nat, period: nat)
    requires Seen(v, thn) && Seen(w, thn) && OthersAgree(v, w, thn)
    ensures RoundBatches(v, thn, period) == RoundBatches(w, thn, period)
    ensures RoundLens(v, thn, period) == RoundLens(w, thn, period)
  {
    PickedRoundsOthers(v, w, thn, period, |v.sets| - 1);
  }

  /**
   * An import by worker `thn` up to `period` from the table seen as `v` took `batches`, collected
   * the candidates `sums`, and moved the non-unit clauses taken from the pending list `longs0` to
   * `longs` and the unit ones from `units0` to `units`.
   */
  ghost predicate Took(v: View, thn: nat, period: nat, batches: seq<seq<Clause>>, sums: seq<nat>,
                       longs0: seq<Clause>, longs: seq<Clause>, units0: seq<Clause>, units: seq<Clause>)
  {
    Seen(v, thn) && batches == RoundBatches(v, thn, period) && sums == RoundLens(v, thn, period) &&
    longs == longs0 + Longs(Gather(batches, 0, |batches|)) && units == units0 + Units(Gather(batches, 0, |batches|))
  }

  /** An import that took from `v` took the same from any `before` that agrees with `v` on the others. */
  lemma TookAsSeen(v: View, before: View, thn: nat, period: nat, batches: seq<seq<Clause>>, sums: seq<nat>,
                   longs0: seq<Clause>, longs: seq<Clause>, units0: seq<Clause>, units: seq<Clause>)
    requires Seen(v, thn) && Seen(before, thn) && OthersAgree(v, before, thn)
    requires batches == RoundBatches(v, thn, period) && sums == RoundLens(v, thn, period)
    requires longs == longs0 + Longs(Gather(batches, 0, |batches|))
    requires units == units0 + Units(Gather(batches, 0, |batches|))
    ensures Took(before, thn, period, batches, sums, longs0, longs, units0, units)
  {
    RoundsOthers(v, before, thn, period);
  }

  /** The round in which an import by worker `thn` visits worker `u`: its distance in ring order. */
  function RingIndex(thn: nat, u: nat, n: nat): (i: nat)
    requires thn < n && u < n
    ensures i < n && RingTarget(thn, i, n) == u
    ensures i == 0 <==> u == thn
  {
    RingUnfold(thn, if thn <= u then u - thn else u + n - thn, n);
    if thn <= u then u - thn else u + n - thn
  }

  /** Round `i` visits the worker whose ring distance is `i`. */
  lemma RingIndexOfTarget(thn: nat, i: nat, n: nat)
    requires thn < n && i < n
    ensures RingIndex(thn, RingTarget(thn, i, n), n) == i
  {
    RingUnfold(thn, i, n);
  }

  /** `sets` holds every set retained in the mailboxes of `m` (and possibly more). */
  ghost predicate Covers(m: PrdClausesQueueMgr, sets: set<PrdClauses>)
    reads m, m.queues
  {
    forall u, k :: 0 <= u < |m.queues| && 0 <= k < |m.queues[u].queue| ==> m.queues[u].queue[k] in sets
  }

  /** The sets owned by the mailbox table `m`. */
  ghost function ReprSets(m: PrdClausesQueueMgr): (sets: set<PrdClauses>)
    reads m
    ensures forall o :: o in sets ==> o in m.Repr
  {
    set o: PrdClauses | o in m.Repr
  }

  /** A valid table owns every set retained in its mailboxes. */
  lemma ReprCovers(m: PrdClausesQueueMgr)
    requires m.Valid()
    ensures Covers(m, ReprSets(m))
  {
    SetsInRepr(m);
  }

  /** Taking in the sets `lo .. hi)` does not look past `hi`. */
  lemma {:induction false} TakenPrefix(acc: Intake, cls: seq<seq<Clause>>, lens: seq<nat>, cs: seq<Clause>, len: nat,
                                       lo: nat, hi: nat)
    requires lo <= hi <= |cls| && |lens| == |cls|
    ensures Taken(acc, cls + [cs], lens + [len], lo, hi) == Taken(acc, cls, lens, lo, hi)
    decreases hi
  {
    if lo < hi {
      TakenPrefix(acc, cls, lens, cs, len, lo, hi - 1);
      assert (cls + [cs])[hi - 1] == cls[hi - 1] && (lens + [len])[hi - 1] == lens[hi - 1];
    }
  }

  /** The period of the open set of `q`, read off the retained sets. */
  ghost function LastPrd(q: PrdClausesQueue): nat
    reads q`queue
    requires |q.queue| > 0
  {
    q.queue[|q.queue| - 1].prd
  }

  /** The cursors of every mailbox in `qs`, as values: a snapshot of fields, like `ClausesOf`. */
  ghost function CursorsOf(qs: seq<PrdClausesQueue>): (np: seq<seq<nat>>)
    reads qs
    ensures |np| == |qs| && forall u :: 0 <= u < |qs| ==> np[u] == qs[u].nextPeriod
  {
    if qs == [] then [] else CursorsOf(qs[..|qs| - 1]) + [qs[|qs| - 1].nextPeriod]
  }

  /** The retained sets of every mailbox in `qs`, as values: a snapshot of fields, like `ClausesOf`. */
  ghost function SetsOf(qs: seq<PrdClausesQueue>): (r: seq<seq<PrdClauses>>)
    reads qs
    ensures |r| == |qs| && forall u :: 0 <= u < |qs| ==> r[u] == qs[u].queue
  {
    if qs == [] then [] else SetsOf(qs[..|qs| - 1]) + [qs[|qs| - 1].queue]
  }

  /** The clause lists of the sets of every mailbox, as values: a snapshot of fields, like `ClausesOf`. */
  ghost function ClausesAll(sets: seq<seq<PrdClauses>>): (r: seq<seq<seq<Clause>>>)
    reads set u, k | 0 <= u < |sets| && 0 <= k < |sets[u]| :: sets[u][k]
    ensures |r| == |sets| && forall u :: 0 <= u < |sets| ==> r[u] == ClausesOf(sets[u])
  {
    if sets == [] then [] else ClausesAll(sets[..|sets| - 1]) + [ClausesOf(sets[|sets| - 1])]
  }

  /** The period-length candidates of the sets of every mailbox, as values: a snapshot of fields. */
  ghost function LensAll(sets: seq<seq<PrdClauses>>): (r: seq<seq<nat>>)
    reads set u, k | 0 <= u < |sets| && 0 <= k < |sets[u]| :: sets[u][k]
    ensures |r| == |sets| && forall u :: 0 <= u < |sets| ==> r[u] == LensOf(sets[u])
  {
    if sets == [] then [] else LensAll(sets[..|sets| - 1]) + [LensOf(sets[|sets| - 1])]
  }

  /**
   * The state of the ring loop before round `i` on the `n` mailboxes `qs` of the table `m`. When
   * the import began their cursors were `np0`, their retained sets `sq` with clause lists `cls`
   * and candidates `lens`; `np` are the cursors now. The loop changes no set, and rounds
   * `1 .. i-1` took, in ring order, what worker `thn` fetches from each visited mailbox from its
   * starting cursor.
   */
  ghost predicate Ringing(m: PrdClausesQueueMgr, n: nat, thn: nat, period: nat, i: nat, qs: seq<PrdClausesQueue>,
                          np0: seq<seq<nat>>, sq: seq<seq<PrdClauses>>, cls: seq<seq<seq<Clause>>>, lens: seq<seq<nat>>,
                          acc0: Intake, acc: Intake, batches: seq<seq<Clause>>, sums: seq<nat>, np: seq<seq<nat>>)
    reads m, m.Repr
  {
    RingLog(n, thn, period, i, np0, sq, cls, lens, acc0, acc, batches, sums) &&
    RingCursors(n, thn, period, i, np0, sq, cls, lens, np) &&
    RingHeap(m, n, qs, sq, cls, lens, np)
  }

  /** The snapshot taken when the ring loop began, and what rounds `1 .. i-1` took, as values. */
  ghost predicate RingLog(n: nat, thn: nat, period: nat, i: nat, np0: seq<seq<nat>>, sq: seq<seq<PrdClauses>>,
                          cls: seq<seq<seq<Clause>>>, lens: seq<seq<nat>>,
                          acc0: Intake, acc: Intake, batches: seq<seq<Clause>>, sums: seq<nat>)
  {
    Snapshot(n, thn, np0, sq, cls, lens) && 1 <= i <= n &&
    batches == PickedRounds(n, thn, period, np0, sq, cls, lens, i - 1) &&
    sums == PickedRoundLens(n, thn, period, np0, sq, cls, lens, i - 1) &&
    acc == Taken(acc0, batches, sums, 0, i - 1)
  }

  /** The shapes of the snapshot of `n` mailboxes: each cursor of `thn` lies within the sets of its mailbox. */
  ghost predicate Snapshot(n: nat, thn: nat, np0: seq<seq<nat>>, sq: seq<seq<PrdClauses>>,
                           cls: seq<seq<seq<Clause>>>, lens: seq<seq<nat>>)
  {
    thn < n && |np0| == n && |sq| == n && |cls| == n && |lens| == n &&
    (forall u :: 0 <= u < n ==>
       |cls[u]| == |sq[u]| && |lens[u]| == |sq[u]| && |np0[u]| == n && InRange(sq[u], np0[u][thn]))
  }

  /** What rounds `1 .. k` take from the snapshot, in ring order. */
  ghost function PickedRounds(n: nat, thn: nat, period: nat, np0: seq<seq<nat>>, sq: seq<seq<PrdClauses>>,
                              cls: seq<seq<seq<Clause>>>, lens: seq<seq<nat>>, k: nat): (r: seq<seq<Clause>>)
    requires Snapshot(n, thn, np0, sq, cls, lens) && k < n
    ensures |r| == k
    ensures forall j :: 0 <= j < k ==>
      r[j] == Picked(sq[RingTarget(thn, j + 1, n)], cls[RingTarget(thn, j + 1, n)], np0[RingTarget(thn, j + 1, n)][thn], period)
  {
    if k == 0 then []
    else
      var v := RingTarget(thn, k, n);
      PickedRounds(n, thn, period, np0, sq, cls, lens, k - 1) + [Picked(sq[v], cls[v], np0[v][thn], period)]
  }

  /** The candidates rounds `1 .. k` collect from the snapshot, in ring order. */
  ghost function PickedRoundLens(n: nat, thn: nat, period: nat, np0: seq<seq<nat>>, sq: seq<seq<PrdClauses>>,
                                 cls: seq<seq<seq<Clause>>>, lens: seq<seq<nat>>, k: nat): (r: seq<nat>)
    requires Snapshot(n, thn, np0, sq, cls, lens) && k < n
    ensures |r| == k
    ensures forall j :: 0 <= j < k ==>
      r[j] == PickedLen(sq[RingTarget(thn, j + 1, n)], lens[RingTarget(thn, j + 1, n)], np0[RingTarget(thn, j + 1, n)][thn], period)
  {
    if k == 0 then []
    else
      var v := RingTarget(thn, k, n);
      PickedRoundLens(n, thn, period, np0, sq, cls, lens, k - 1) + [PickedLen(sq[v], lens[v], np0[v][thn], period)]
  }

  /** Where the ring loop has left the cursors `np`: only those of the mailboxes visited before round `i` moved. */
  ghost predicate RingCursors(n: nat, thn: nat, period: nat, i: nat, np0: seq<seq<nat>>, sq: seq<seq<PrdClauses>>,
                              cls: seq<seq<seq<Clause>>>, lens: seq<seq<nat>>, np: seq<seq<nat>>)
  {
    Snapshot(n, thn, np0, sq, cls, lens) && |np| == n &&
    (forall u :: 0 <= u < n && !(0 < RingIndex(thn, u, n) < i) ==> np[u] == np0[u]) &&
    (forall u :: 0 <= u < n && 0 < RingIndex(thn, u, n) < i ==>
       Advanced(np[u], np0[u], thn, Reach(np0[u][thn], period, sq[u][|sq[u]| - 1].prd)))
  }

  /** The mailboxes during the ring loop: their sets are those of the snapshot, unchanged, and their cursors are `np`. */
  ghost predicate RingHeap(m: PrdClausesQueueMgr, n: nat, qs: seq<PrdClausesQueue>, sq: seq<seq<PrdClauses>>,
                           cls: seq<seq<seq<Clause>>>, lens: seq<seq<nat>>, np: seq<seq<nat>>)
    reads m, m.Repr
  {
    m.Valid() && m.queues == qs && |qs| == n && |sq| == n && |cls| == n && |lens| == n && |np| == n &&
    (forall u :: 0 <= u < n ==> qs[u].queue == sq[u] && qs[u].nextPeriod == np[u]) &&
    (forall u :: 0 <= u < n ==> ClausesOf(sq[u]) == cls[u] && LensOf(sq[u]) == lens[u])
  }

  /** Round `i` takes in what `thn` fetches from the mailbox `i` steps after it. */
  lemma RingLogStep(n: nat, thn: nat, period: nat, i: nat, np0: seq<seq<nat>>, sq: seq<seq<PrdClauses>>,
                    cls: seq<seq<seq<Clause>>>, lens: seq<seq<nat>>, acc0: Intake, acc: Intake,
                    batches: seq<seq<Clause>>, sums: seq<nat>, acc': Intake, b: seq<Clause>, l: nat)
    requires RingLog(n, thn, period, i, np0, sq, cls, lens, acc0, acc, batches, sums) && i < n
    requires b == Picked(sq[RingTarget(thn, i, n)], cls[RingTarget(thn, i, n)], np0[RingTarget(thn, i, n)][thn], period)
    requires l == PickedLen(sq[RingTarget(thn, i, n)], lens[RingTarget(thn, i, n)], np0[RingTarget(thn, i, n)][thn], period)
    requires acc' == Absorb(acc, b, l)
    ensures RingLog(n, thn, period, i + 1, np0, sq, cls, lens, acc0, acc', batches + [b], sums + [l])
  {
    TakenPrefix(acc0, batches, sums, b, l, 0, i - 1);
  }

  /** Round `i` moves the cursor of `thn` in the mailbox `i` steps after it, and no other. */
  lemma RingCursorStep(n: nat, thn: nat, period: nat, i: nat, np0: seq<seq<nat>>, sq: seq<seq<PrdClauses>>,
                       cls: seq<seq<seq<Clause>>>, lens: seq<seq<nat>>, np: seq<seq<nat>>, c: seq<nat>)
    requires RingCursors(n, thn, period, i, np0, sq, cls, lens, np) && 0 < i < n
    requires var v := RingTarget(thn, i, n);
      Advanced(c, np0[v], thn, Reach(np0[v][thn], period, sq[v][|sq[v]| - 1].prd))
    ensures RingCursors(n, thn, period, i + 1, np0, sq, cls, lens, np[RingTarget(thn, i, n) := c])
  {
    var target := RingTarget(thn, i, n);
    RingIndexOfTarget(thn, i, n);
    var np' := np[target := c];
    forall u | 0 <= u < n && 0 < RingIndex(thn, u, n) < i + 1
      ensures Advanced(np'[u], np0[u], thn, Reach(np0[u][thn], period, sq[u][|sq[u]| - 1].prd))
    {
      if u != target {
        assert RingTarget(thn, RingIndex(thn, u, n), n) == u;
      }
    }
  }

  /**
   * The ring loop of `importClauses`: worker `thn` visits every other worker in ring order and
   * fetches from its mailbox everything up to `period`. `batches[j]` and `sums[j]` are what round
   * `j + 1` took, which is what `thn` would have fetched from that mailbox when the import began;
   * every other mailbox cursor of `thn` has moved to where the fetch loop leaves it, and the own
   * mailbox is untouched.
   */
  method ImportRing(m: PrdClausesQueueMgr, n: nat, thn: nat, period: nat, nonDet: bool, acc0: Intake,
                    ghost sets: set<PrdClauses>, ghost v: View)
      returns (acc: Intake, ghost batches: seq<seq<Clause>>, ghost sums: seq<nat>)
    requires m.Valid() && |m.queues| == n && thn < n && Covers(m, sets) && v == ViewOf(m) && Seen(v, thn)
    requires !nonDet ==> forall u :: 0 <= u < n && u != thn ==> period < LastPrd(m.queues[u])
    modifies m.queues`nextPeriod, sets`numExportedThreads
    ensures m.Valid()
    ensures batches == RoundBatches(v, thn, period) && sums == RoundLens(v, thn, period)
    ensures acc == Taken(acc0, batches, sums, 0, |batches|)
    ensures m.queues[thn].nextPeriod == old(m.queues[thn].nextPeriod)
    ensures m.queues[thn].queue == old(m.queues[thn].queue)
    ensures Acked(m, v, thn, period)
  {
    ghost var qs := m.queues;
    assert v.sets[thn] == qs[thn].queue && v.cursors[thn] == qs[thn].nextPeriod;
    acc, batches, sums := RingLoop(m, n, thn, period, nonDet, qs, v.cursors, v.sets, v.clauses, v.lens, acc0, sets);
    assert batches == RoundBatches(v, thn, period) && sums == RoundLens(v, thn, period);
    RingAcked(m, qs, v, thn, period);
  }

  /** The cursors the ring loop leaves are those of `AckedRow`. */
  lemma RingAcked(m: PrdClausesQueueMgr, qs: seq<PrdClausesQueue>, v: View, thn: nat, period: nat)
    requires Seen(v, thn) && m.queues == qs && |qs| == |v.sets|
    requires forall u :: 0 <= u < |v.sets| ==> qs[u].queue == v.sets[u]
    requires forall u :: 0 <= u < |v.sets| && u != thn ==>
      Advanced(qs[u].nextPeriod, v.cursors[u], thn, Reach(v.cursors[u][thn], period, v.sets[u][|v.sets[u]| - 1].prd))
    ensures Acked(m, v, thn, period)
  {
    forall u | 0 <= u < |v.sets| && u != thn
      ensures RowSeen(v, thn, u) && qs[u].nextPeriod == AckedRow(v, thn, period, u)
    {
      AckedRowAdvanced(v, thn, period, u, qs[u].nextPeriod);
    }
  }

  /** The retained sets of a valid table belong to its footprint. */
  lemma SetsInRepr(m: PrdClausesQueueMgr)
    requires m.Valid()
    ensures forall u, k :: 0 <= u < |m.queues| && 0 <= k < |m.queues[u].queue| ==> m.queues[u].queue[k] in m.Repr
  {
    forall u | 0 <= u < |m.queues|
      ensures forall k :: 0 <= k < |m.queues[u].queue| ==> m.queues[u].queue[k] in m.Repr
    {
      assert m.queues[u] == m.Get(u);
    }
  }

  /** In the view of a valid table, every cursor of any worker lies within the sets of its mailbox. */
  lemma SnapshotOf(m: PrdClausesQueueMgr, thn: nat)
    requires m.Valid() && thn < |m.queues|
    ensures Seen(ViewOf(m), thn)
  {
    forall u | 0 <= u < |m.queues|
      ensures |m.queues[u].nextPeriod| == |m.queues| && InRange(m.queues[u].queue, m.queues[u].nextPeriod[thn])
    {
      assert m.queues[u] == m.Get(u);
    }
  }

  /**
   * A view `before` that shows every mailbox but the own one as the table `m` holds it agrees
   * with the view of `m` on the others, and both are within range for worker `thn`.
   */
  lemma ViewAgrees(m: PrdClausesQueueMgr, before: View, thn: nat)
    requires m.Valid() && thn < |m.queues|
    requires |before.sets| == |before.cursors| == |before.clauses| == |before.lens| == |m.queues|
    requires forall u :: 0 <= u < |m.queues| && u != thn ==>
      before.sets[u] == m.queues[u].queue && before.cursors[u] == m.queues[u].nextPeriod &&
      before.clauses[u] == ClausesOf(m.queues[u].queue) && before.lens[u] == LensOf(m.queues[u].queue)
    ensures Seen(ViewOf(m), thn) && OthersAgree(ViewOf(m), before, thn)
  {
    ViewRows(m, ViewOf(m));
    SnapshotOf(m, thn);
  }

  /**
   * The rounds `1 .. n-1` of the ring loop on the mailboxes `qs` of `m`, stated over the snapshot
   * of their cursors `np0`, sets `sq`, clause lists `cls` and candidates `lens`.
   */
  method RingLoop(m: PrdClausesQueueMgr, n: nat, thn: nat, period: nat, nonDet: bool,
                  ghost qs: seq<PrdClausesQueue>, ghost np0: seq<seq<nat>>, ghost sq: seq<seq<PrdClauses>>,
                  ghost cls: seq<seq<seq<Clause>>>, ghost lens: seq<seq<nat>>, acc0: Intake, ghost sets: set<PrdClauses>)
      returns (acc: Intake, ghost batches: seq<seq<Clause>>, ghost sums: seq<nat>)
    requires m.Valid() && m.queues == qs && |qs| == n && thn < n && Covers(m, sets)
    requires |np0| == n && forall u :: 0 <= u < n ==> np0[u] == qs[u].nextPeriod
    requires |sq| == n && forall u :: 0 <= u < n ==> sq[u] == qs[u].queue
    requires |cls| == n && forall u :: 0 <= u < n ==> cls[u] == ClausesOf(sq[u])
    requires |lens| == n && forall u :: 0 <= u < n ==> lens[u] == LensOf(sq[u])
    requires !nonDet ==> forall u :: 0 <= u < n && u != thn ==> period < LastPrd(qs[u])
    modifies m.queues`nextPeriod, sets`numExportedThreads
    ensures m.Valid() && forall u :: 0 <= u < n ==> qs[u].queue == sq[u]
    ensures Snapshot(n, thn, np0, sq, cls, lens)
    ensures batches == PickedRounds(n, thn, period, np0, sq, cls, lens, n - 1)
    ensures sums == PickedRoundLens(n, thn, period, np0, sq, cls, lens, n - 1)
    ensures acc == Taken(acc0, batches, sums, 0, |batches|)
    ensures forall u :: 0 <= u < n && u != thn ==>
      Advanced(qs[u].nextPeriod, np0[u], thn, Reach(np0[u][thn], period, sq[u][|sq[u]| - 1].prd))
    ensures qs[thn].nextPeriod == np0[thn]
    ensures Covers(m, sets)
  {
    RingStart(m, n, thn, period, qs, np0, sq, cls, lens, acc0);
    acc, batches, sums := acc0, [], [];
    ghost var np := np0;
    for i := 1 to n
      invariant Ringing(m, n, thn, period, i, qs, np0, sq, cls, lens, acc0, acc, batches, sums, np)
      invariant Covers(m, sets)
    {
      acc, batches, sums, np := RingRound(m, n, thn, period, nonDet, i, qs, np0, sq, cls, lens, acc0, acc, batches, sums, np, sets);
    }
    RingEnd(m, n, thn, period, qs, np0, sq, cls, lens, acc0, acc, batches, sums, np);
  }

  /** Before the first round nothing has been visited. */
  lemma RingStart(m: PrdClausesQueueMgr, n: nat, thn: nat, period: nat, qs: seq<PrdClausesQueue>,
                  np0: seq<seq<nat>>, sq: seq<seq<PrdClauses>>, cls: seq<seq<seq<Clause>>>, lens: seq<seq<nat>>,
                  acc0: Intake)
    requires m.Valid() && m.queues == qs && |qs| == n && thn < n
    requires |np0| == n && forall u :: 0 <= u < n ==> np0[u] == qs[u].nextPeriod
    requires |sq| == n && forall u :: 0 <= u < n ==> sq[u] == qs[u].queue
    requires |cls| == n && forall u :: 0 <= u < n ==> cls[u] == ClausesOf(sq[u])
    requires |lens| == n && forall u :: 0 <= u < n ==> lens[u] == LensOf(sq[u])
    ensures Ringing(m, n, thn, period, 1, qs, np0, sq, cls, lens, acc0, acc0, [], [], np0)
  {
    forall u | 0 <= u < n
      ensures |np0[u]| == n && InRange(sq[u], np0[u][thn])
    {
      assert qs[u] == m.Get(u);
    }
  }

  /** After the last round every other mailbox has been visited once, in ring order. */
  lemma RingEnd(m: PrdClausesQueueMgr, n: nat, thn: nat, period: nat, qs: seq<PrdClausesQueue>,
                np0: seq<seq<nat>>, sq: seq<seq<PrdClauses>>, cls: seq<seq<seq<Clause>>>, lens: seq<seq<nat>>,
                acc0: Intake, acc: Intake, batches: seq<seq<Clause>>, sums: seq<nat>, np: seq<seq<nat>>)
    requires Ringing(m, n, thn, period, n, qs, np0, sq, cls, lens, acc0, acc, batches, sums, np)
    ensures batches == PickedRounds(n, thn, period, np0, sq, cls, lens, n - 1)
    ensures sums == PickedRoundLens(n, thn, period, np0, sq, cls, lens, n - 1)
    ensures acc == Taken(acc0, batches, sums, 0, |batches|)
    ensures forall u :: 0 <= u < n && u != thn ==>
      Advanced(qs[u].nextPeriod, np0[u], thn, Reach(np0[u][thn], period, sq[u][|sq[u]| - 1].prd))
    ensures qs[thn].nextPeriod == np0[thn]
  {
    forall u | 0 <= u < n && u != thn
      ensures Advanced(qs[u].nextPeriod, np0[u], thn, Reach(np0[u][thn], period, sq[u][|sq[u]| - 1].prd))
    {
      assert 0 < RingIndex(thn, u, n) < n;
    }
    assert RingIndex(thn, thn, n) == 0;
  }

  /** Round `i` of the ring loop: fetch from the worker `i` steps after `thn`. */
  method RingRound(m: PrdClausesQueueMgr, n: nat, thn: nat, period: nat, nonDet: bool, i: nat,
                   ghost qs: seq<PrdClausesQueue>, ghost np0: seq<seq<nat>>, ghost sq: seq<seq<PrdClauses>>,
                   ghost cls: seq<seq<seq<Clause>>>, ghost lens: seq<seq<nat>>, ghost acc0: Intake, acc: Intake,
                   ghost batches: seq<seq<Clause>>, ghost sums: seq<nat>, ghost np: seq<seq<nat>>,
                   ghost sets: set<PrdClauses>)
      returns (acc': Intake, ghost batches': seq<seq<Clause>>, ghost sums': seq<nat>, ghost np': seq<seq<nat>>)
    requires Ringing(m, n, thn, period, i, qs, np0, sq, cls, lens, acc0, acc, batches, sums, np) && i < n
    requires Covers(m, sets)
    requires !nonDet ==> forall u :: 0 <= u < n && u != thn ==> period < LastPrd(qs[u])
    modifies m.queues`nextPeriod, sets`numExportedThreads
    ensures Ringing(m, n, thn, period, i + 1, qs, np0, sq, cls, lens, acc0, acc', batches', sums', np')
    ensures Covers(m, sets)
  {
    var target := RingTarget(thn, i, n);
    RingSkipsSelf(thn, i, n);
    RingIndexOfTarget(thn, i, n);
    ghost var b := Picked(sq[target], cls[target], np0[target][thn], period);
    ghost var l := PickedLen(sq[target], lens[target], np0[target][thn], period);
    assert ClausesOf(sq[target]) == cls[target] && LensOf(sq[target]) == lens[target];
    assert np[target] == np0[target];
    batches', sums' := batches + [b], sums + [l];
    ghost var c;
    acc', c := FetchFrom(m, n, target, thn, period, nonDet, acc, qs, sq, cls, lens, np);
    np' := np[target := c];
    RingLogStep(n, thn, period, i, np0, sq, cls, lens, acc0, acc, batches, sums, acc', b, l);
    RingCursorStep(n, thn, period, i, np0, sq, cls, lens, np, c);
  }

  /** `2^32`: the modulus of the source's `uint32_t` literal counts. */
  const U32: nat := 0x1_0000_0000

  /**
   * `int32_t diff = curr - prev` on two `uint32_t` counts: the difference modulo `2^32`, read back
   * as a two's-complement 32-bit value.
   */
  function Int32Diff(curr: nat, prev: nat): (d: int)
    ensures -0x8000_0000 <= d < 0x8000_0000
    ensures (curr - prev - d) % U32 == 0
  {
    var w := (curr - prev) % U32;
    if w < 0x8000_0000 then w else w - U32
  }

  /** When both counts stay below `2^31` the wrapped difference is the exact one. */
  lemma Int32DiffExact(curr: nat, prev: nat)
    requires curr < 0x8000_0000 && prev < 0x8000_0000
    ensures Int32Diff(curr, prev) == curr - prev
  {
    var w := (curr - prev) % U32;
    if curr >= prev {
      assert w == curr - prev;
    } else {
      assert w == curr - prev + U32;
    }
  }

  /** What `exportSelectedClauses` asks of the solver's clause-generation threshold. */
  datatype Adjust = Keep | Inc | Dec

  /**
   * The export steering rule: `curr` literals are buffered, `diff` more than at the previous
   * check, against the target `lim * milli / 1000` (`exp_lits_margin` in thousandths). Below the
   * target and not growing asks for more clauses; above it and growing asks for fewer.
   */
  function Steer(curr: nat, diff: int, lim: nat, milli: nat): (a: Adjust)
    ensures a == Inc ==> curr * 1000 < lim * milli && diff <= 0
    ensures a == Dec ==> curr * 1000 > lim * milli && diff > 0
    ensures curr * 1000 == lim * milli ==> a == Keep
    ensures a == Keep ==> (diff <= 0 ==> curr * 1000 >= lim * milli) && (diff > 0 ==> curr * 1000 <= lim * milli)
  {
    if curr * 1000 < lim * milli && diff <= 0 then Inc
    else if curr * 1000 > lim * milli && diff > 0 then Dec
    else Keep
  }

  /**
   * The next period length in the adaptive mode: the average `sum / n` of the candidates, raised
   * to `lb` when `lb` is set and lowered to `ub` when `ub` is set (`ub` wins when `lb > ub`).
   */
  function NextLimit(sum: nat, n: nat, lb: nat, ub: nat): (r: nat)
    requires n > 0
    ensures ub != 0 ==> r <= ub
    ensures lb != 0 && (ub == 0 || lb <= ub) ==> lb <= r
    ensures (lb == 0 || lb <= sum / n) && (ub == 0 || sum / n <= ub) ==> r == sum / n
    ensures r == sum / n || r == lb || r == ub
  {
    var avg := sum / n;
    var raised := if lb != 0 && avg < lb then lb else avg;
    if ub != 0 && ub < raised then ub else raised
  }

  /** A larger candidate sum never gives a shorter next period. */
  lemma NextLimitMonotone(sum1: nat, sum2: nat, n: nat, lb: nat, ub: nat)
    requires n > 0 && sum1 <= sum2
    ensures NextLimit(sum1, n, lb, ub) <= NextLimit(sum2, n, lb, ub)
  {
    DivMonotone(sum1, sum2, n);
  }

  lemma DivMonotone(a: nat, b: nat, n: nat)
    requires n > 0 && a <= b
    ensures a / n <= b / n
  {
    var q1, q2 := a / n, b / n;
    assert q1 * n <= a;
    assert b < (q2 + 1) * n;
    MulMonotone(q1, q2 + 1, n);
  }

  lemma MulMonotone(x: nat, y: nat, n: nat)
    ensures y <= x ==> y * n <= x * n
  {
    if y <= x {
      assert x * n == y * n + (x - y) * n;
    }
  }

  /**
   * The forced-application rule: the cooldown of `fappPeriods` periods since the last forced
   * application has elapsed, and there are pending unit clauses, or (with `fappClauses` set) at
   * least `fappClauses` pending non-unit clauses per worker.
   */
  predicate FappDue(units: nat, longs: nat, n: nat, fappClauses: nat, periods: nat, last: nat, fappPeriods: nat)
    requires n > 0
  {
    periods >= last + fappPeriods && (units > 0 || (fappClauses > 0 && longs / n >= fappClauses))
  }

  /**
   * Right after a forced application at period `p`, none is due before period `p + fappPeriods`:
   * a direct corollary of the cooldown conjunct of `FappDue`, whichever clauses are pending. It adds
   * nothing to `FappDue` beyond naming that consequence.
   */
  lemma FappCooldown(units: nat, longs: nat, n: nat, fappClauses: nat, p: nat, later: nat, fappPeriods: nat)
    requires n > 0 && later < p + fappPeriods
    ensures !FappDue(units, longs, n, fappClauses, later, p, fappPeriods)
  {
  }

  /** The options a worker reads; `expLitsMargin` is `exp_lits_margin` in thousandths. */
  datatype Options = Options(margin: nat, memAccLim: nat, nonDet: bool,
                             fappClauses: nat, fappPeriods: nat,
                             adptPrd: nat, adptPrdLB: nat, adptPrdUB: nat,
                             expLitsLim: nat, expLitsMargin: nat)

  /** The fields of a worker other than its constants and its memory-access count. */
  datatype Tally = Tally(periods: nat, memAccLim: nat, nextMemAccLim: nat,
                         importedClauses: seq<Clause>, importedUnitClauses: seq<Clause>,
                         lastFappPeriod: nat, sumMemAccs: nat, emaMemAccs: nat, emaPrevConfs: nat,
                         prevExpLits: nat, prevExpConfs: nat, numImportedClauses: nat,
                         numExportedClauses: nat, numForcedApplications: nat)

  /**
   * What a period check starts from, as values: the worker's fields (`tally`), the staged
   * clauses, the own open set and its clauses, the candidate length of the next period and the
   * view of the table.
   */
  datatype Start = Start(tally: Tally, staged: seq<Clause>, open: PrdClauses, openClauses: seq<Clause>,
                         cand: nat, view: View)

  /**
   * The results of a period check that spent its budget, from the state `from`: the steering of
   * the export, whether it imported, the candidate length, the number of clauses exported, the
   * set closed and the new open set, the view it imported from, the batches and candidates it
   * read, their total with the own candidate, the own set acknowledged, and the period the
   * import reached.
   */
  datatype Step = Step(from: Start, adjust: Adjust, imported: bool, len: nat, exported: nat, closed: PrdClauses,
                       next: PrdClauses, before: View, batches: seq<seq<Clause>>, sums: seq<nat>, total: nat,
                       own: PrdClauses, reached: int)

  /**
   * One worker's side of the period loop (`AbstDetSeqSolver`): worker `thn` fills its mailbox
   * `prdClausesQueue` in the table of `sharer`, stages outgoing clauses in `expClausesBuf` and
   * collects incoming ones in `importedClauses` / `importedUnitClauses`. `numMemAccesses` is the
   * thread-local access counter the underlying solver increments; the exponential average of the
   * adaptive period length, computed in floating point, is passed in.
   */
  class AbstDetSeqSolver {
    const thn: nat
    const sharer: Sharer
    const options: Options
    const margin: nat
    const prdClausesQueue: PrdClausesQueue
    const expClausesBuf: ClauseBuffer
    const fappClauses: nat
    const fappPeriods: nat
    const expLitsLim: nat
    const expLitsMargin: nat
    var periods: nat
    var memAccLim: nat
    var numMemAccesses: nat
    var importedClauses: seq<Clause>
    var importedUnitClauses: seq<Clause>
    var lastFappPeriod: nat
    var sumMemAccs: nat
    var emaMemAccs: nat
    var emaPrevConfs: nat
    var nextMemAccLim: nat
    var prevExpLits: nat
    var prevExpConfs: nat
    var numImportedClauses: nat
    var numExportedClauses: nat
    var numForcedApplications: nat

    /**
     * The shared state is well formed, `prdClausesQueue` is this worker's mailbox, and neither the
     * worker nor its buffer belongs to the mailbox table.
     */
    ghost predicate Base()
      reads sharer, sharer.pcqm, sharer.pcqm.Repr, expClausesBuf
    {
      sharer.Valid() && thn < sharer.numThreads && prdClausesQueue == sharer.pcqm.queues[thn] &&
      expClausesBuf.Valid() && this !in sharer.pcqm.Repr && expClausesBuf !in sharer.pcqm.Repr
    }

    /** The own mailbox is open at period `p` and the worker's own cursor in it is at `c`. */
    ghost predicate Phase(p: nat, c: nat)
      reads sharer, sharer.pcqm, sharer.pcqm.Repr, expClausesBuf
    {
      Base() && LastPrd(prdClausesQueue) == p && prdClausesQueue.nextPeriod[thn] == c
    }

    /**
     * Where the worker's own cursor stands at period `p`: it acknowledges its own set of period
     * `p - margin` at every import from period `margin` on, but only in the adaptive mode.
     */
    function OwnCursor(p: nat): nat
    {
      if options.adptPrd != 0 && p >= margin then p - margin else 0
    }

    /** Between periods: the open set of the own mailbox is that of the current period. */
    ghost predicate Valid()
      reads this`periods, sharer, sharer.pcqm, sharer.pcqm.Repr, expClausesBuf
    {
      Phase(periods, OwnCursor(periods))
    }

    /**
     * Worker `id` on the shared state `s`, whose mailbox is still at period 0; every counter
     * starts at 0 and both period-length limits at the configured one.
     */
    constructor (id: nat, s: Sharer, opts: Options)
      requires s.Valid() && id < s.numThreads
      requires LastPrd(s.pcqm.queues[id]) == 0 && s.pcqm.queues[id].nextPeriod[id] == 0
      ensures Valid() && fresh(expClausesBuf) && expClausesBuf.Contents() == []
      ensures thn == id && sharer == s && options == opts && prdClausesQueue == s.pcqm.queues[id]
      ensures margin == opts.margin && fappClauses == opts.fappClauses && fappPeriods == opts.fappPeriods
      ensures expLitsLim == opts.expLitsLim && expLitsMargin == opts.expLitsMargin
      ensures periods == 0 && memAccLim == opts.memAccLim && nextMemAccLim == opts.memAccLim
      ensures emaMemAccs == opts.memAccLim && sumMemAccs == 0 && emaPrevConfs == 0
      ensures numMemAccesses == 0 && importedClauses == [] && importedUnitClauses == []
      ensures lastFappPeriod == 0 && prevExpLits == 0 && prevExpConfs == 0
      ensures numImportedClauses == 0 && numExportedClauses == 0 && numForcedApplications == 0
    {
      thn := id;
      sharer := s;
      options := opts;
      margin := opts.margin;
      periods := 0;
      memAccLim := opts.memAccLim;
      prdClausesQueue := s.pcqm.queues[id];
      expClausesBuf := new ClauseBuffer();
      numMemAccesses := 0;
      importedClauses := [];
      importedUnitClauses := [];
      fappClauses := opts.fappClauses;
      fappPeriods := opts.fappPeriods;
      lastFappPeriod := 0;
      sumMemAccs := 0;
      emaMemAccs := opts.memAccLim;
      emaPrevConfs := 0;
      nextMemAccLim := opts.memAccLim;
      expLitsLim := opts.expLitsLim;
      expLitsMargin := opts.expLitsMargin;
      prevExpLits := 0;
      prevExpConfs := 0;
      numImportedClauses := 0;
      numExportedClauses := 0;
      numForcedApplications := 0;
    }

    /** A period ends once the solver has made at least `memAccLim` memory accesses in it. */
    function CanMoveToNextPeriod(): (b: bool)
      reads this
      ensures b <==> memAccLim <= numMemAccesses
    {
      numMemAccesses >= memAccLim
    }

    /**
     * The step into the next period, once the own set of the current one is closed and the
     * import is done: the budget is charged, the period counter advances and the candidate
     * length from the import becomes the new budget.
     */
    method MoveToNextPeriod()
      requires Phase(periods + 1, OwnCursor(periods + 1)) && numMemAccesses >= memAccLim
      modifies this`numMemAccesses, this`periods, this`memAccLim
      ensures Valid()
      ensures numMemAccesses == old(numMemAccesses) - old(memAccLim)
      ensures periods == old(periods) + 1 && memAccLim == nextMemAccLim
    {
      numMemAccesses := numMemAccesses - memAccLim;
      periods := periods + 1;
      memAccLim := nextMemAccLim;
    }

    /**
     * Whether the pending imported clauses should be applied now; a yes records the current
     * period as that of the last forced application.
     */
    method ShouldApplyImportedClauses() returns (b: bool)
      requires Valid()
      modifies this`lastFappPeriod
      ensures b == FappDue(|importedUnitClauses|, |importedClauses|, sharer.numThreads, fappClauses,
                           periods, old(lastFappPeriod), fappPeriods)
      ensures lastFappPeriod == if b then periods else old(lastFappPeriod)
    {
      if |importedUnitClauses| > 0 && periods >= lastFappPeriod + fappPeriods {
        lastFappPeriod := periods;
        return true;
      }
      if fappClauses > 0 && |importedClauses| / sharer.numThreads >= fappClauses
         && periods >= lastFappPeriod + fappPeriods
      {
        lastFappPeriod := periods;
        return true;
      }
      return false;
    }

    /**
     * The termination query: the shared rule at the current period, or a memory or time limit
     * (`overLimits`, the operating-system queries of the source) exceeded.
     */
    function ShouldBeTerminated(overLimits: bool): (b: bool)
      reads this, sharer
      ensures b <==> Terminates(sharer.Record(), sharer.margin, periods) || overLimits
    {
      sharer.ShouldBeTerminated(periods) || overLimits
    }

    /** The candidate length `GetNewPeriodLength` returns from the present state. */
    function CandidateLength(conflicts: nat, smoothed: nat): nat
      reads this`memAccLim, this`emaPrevConfs, this`emaMemAccs
    {
      if options.adptPrd == 0 then memAccLim
      else if conflicts > emaPrevConfs + options.adptPrd then smoothed
      else emaMemAccs
    }

    /**
     * The candidate length of the next period. Without the adaptive mode it is the current
     * budget. In the adaptive mode the budget is added to the accesses since the last average
     * update; once more than `adptPrd` conflicts have passed since then, the average is replaced
     * by `smoothed` (the floating-point moving average of the source) and the sums restart.
     */
    method GetNewPeriodLength(conflicts: nat, smoothed: nat) returns (len: nat)
      modifies this`sumMemAccs, this`emaMemAccs, this`emaPrevConfs
      ensures len == old(CandidateLength(conflicts, smoothed))
      ensures options.adptPrd == 0 ==> len == memAccLim && unchanged(this)
      ensures options.adptPrd != 0 && conflicts > old(emaPrevConfs) + options.adptPrd ==>
        len == smoothed && emaMemAccs == smoothed && sumMemAccs == 0 && emaPrevConfs == conflicts
      ensures options.adptPrd != 0 && conflicts <= old(emaPrevConfs) + options.adptPrd ==>
        len == old(emaMemAccs) && emaMemAccs == old(emaMemAccs) &&
        sumMemAccs == old(sumMemAccs) + memAccLim && emaPrevConfs == old(emaPrevConfs)
    {
      if options.adptPrd == 0 {
        return memAccLim;
      }
      sumMemAccs := sumMemAccs + memAccLim;
      if conflicts > emaPrevConfs + options.adptPrd {
        emaMemAccs := smoothed;
        sumMemAccs := 0;
        emaPrevConfs := conflicts;
      }
      len := emaMemAccs;
    }

    /**
     * The export step: the staged clauses go into the own open set, in key order, under the
     * literal budget `expLitsLim` (see `ClauseBuffer.ExportTo`), and `exported` counts them.
     * With a budget set and new conflicts since the last export, the buffered literal count
     * (truncated to 32 bits) and its change steer the clause-generation threshold; otherwise
     * nothing is steered, and the literal count is not sampled.
     */
    method ExportSelectedClauses(conflicts: nat) returns (adjust: Adjust, exported: nat)
      requires Valid()
      modifies this`numExportedClauses, this`prevExpConfs, this`prevExpLits, expClausesBuf,
               prdClausesQueue.Last()`clauses, prdClausesQueue.Last()`numLiterals
      ensures Valid()
      ensures prdClausesQueue.queue == old(prdClausesQueue.queue)
      ensures prdClausesQueue.nextPeriod == old(prdClausesQueue.nextPeriod)
      ensures exported == DrainCount(old(expClausesBuf.Contents()), expLitsLim)
      ensures prdClausesQueue.Last().clauses ==
        old(prdClausesQueue.Last().clauses) + old(expClausesBuf.Contents())[..exported]
      ensures expClausesBuf.Contents() == old(expClausesBuf.Contents())[exported..]
      ensures numExportedClauses == old(numExportedClauses) + exported
      ensures expLitsLim == 0 ==>
        adjust == Keep && prevExpConfs == old(prevExpConfs) && prevExpLits == old(prevExpLits)
      ensures expLitsLim != 0 ==> prevExpConfs == conflicts
      ensures expLitsLim != 0 && conflicts == old(prevExpConfs) ==>
        adjust == Keep && prevExpLits == old(prevExpLits)
      ensures expLitsLim != 0 && conflicts != old(prevExpConfs) ==>
        prevExpLits == TotalLiterals(expClausesBuf.Contents()) % U32 &&
        adjust == Steer(prevExpLits, Int32Diff(prevExpLits, old(prevExpLits)), expLitsLim, expLitsMargin)
    {
      exported := ExportToOwnSet();
      adjust := Keep;
      if expLitsLim == 0 {
        return;
      }
      var noConf := conflicts == prevExpConfs;
      prevExpConfs := conflicts;
      if !noConf {
        var curr := expClausesBuf.GetNumLiterals() % U32;
        var diff := Int32Diff(curr, prevExpLits);
        prevExpLits := curr;
        adjust := Steer(curr, diff, expLitsLim, expLitsMargin);
      }
    }

    /** The draining half of the export step. */
    method ExportToOwnSet() returns (exported: nat)
      requires Valid()
      modifies this`numExportedClauses, expClausesBuf,
               prdClausesQueue.Last()`clauses, prdClausesQueue.Last()`numLiterals
      ensures Valid()
      ensures prdClausesQueue.queue == old(prdClausesQueue.queue)
      ensures prdClausesQueue.nextPeriod == old(prdClausesQueue.nextPeriod)
      ensures exported == DrainCount(old(expClausesBuf.Contents()), expLitsLim)
      ensures prdClausesQueue.Last().clauses ==
        old(prdClausesQueue.Last().clauses) + old(expClausesBuf.Contents())[..exported]
      ensures expClausesBuf.Contents() == old(expClausesBuf.Contents())[exported..]
      ensures numExportedClauses == old(numExportedClauses) + exported
    {
      var dest := prdClausesQueue.Last();
      exported := expClausesBuf.ExportTo(dest, expLitsLim);
      prdClausesQueue.LastFilled();
      sharer.pcqm.OthersKept(thn);
      numExportedClauses := numExportedClauses + exported;
    }

    /** Every field of the worker that can change, except its memory-access count. */
    function Tallies(): (t: Tally)
      reads this`periods, this`memAccLim, this`nextMemAccLim, this`importedClauses, this`importedUnitClauses,
            this`lastFappPeriod, this`sumMemAccs, this`emaMemAccs, this`emaPrevConfs, this`prevExpLits,
            this`prevExpConfs, this`numImportedClauses, this`numExportedClauses, this`numForcedApplications
      ensures t.periods == periods && t.memAccLim == memAccLim && t.nextMemAccLim == nextMemAccLim &&
              t.importedClauses == importedClauses && t.importedUnitClauses == importedUnitClauses &&
              t.lastFappPeriod == lastFappPeriod && t.sumMemAccs == sumMemAccs && t.emaMemAccs == emaMemAccs &&
              t.emaPrevConfs == emaPrevConfs && t.prevExpLits == prevExpLits && t.prevExpConfs == prevExpConfs &&
              t.numImportedClauses == numImportedClauses && t.numExportedClauses == numExportedClauses &&
              t.numForcedApplications == numForcedApplications
    {
      Tally(periods, memAccLim, nextMemAccLim, importedClauses, importedUnitClauses, lastFappPeriod,
              sumMemAccs, emaMemAccs, emaPrevConfs, prevExpLits, prevExpConfs, numImportedClauses,
              numExportedClauses, numForcedApplications)
    }

    /**
     * Since the old state the worker has changed at most its memory-access count: every other
     * field keeps its value, and neither the export buffer nor the mailbox table has changed.
     */
    twostate predicate OnlyCounted()
      reads this, expClausesBuf, sharer, sharer.pcqm, sharer.pcqm.Repr
    {
      Tallies() == old(Tallies()) &&
      unchanged(expClausesBuf) && unchanged(sharer.pcqm) && unchanged(sharer.pcqm.Repr)
    }

    /** The state a period check starts from, for the arguments `conflicts` and `smoothed`. */
    ghost function StartOf(conflicts: nat, smoothed: nat): (s: Start)
      reads this`periods, this`memAccLim, this`nextMemAccLim, this`importedClauses, this`importedUnitClauses,
            this`lastFappPeriod, this`sumMemAccs, this`emaMemAccs, this`emaPrevConfs, this`prevExpLits,
            this`prevExpConfs, this`numImportedClauses, this`numExportedClauses, this`numForcedApplications,
            sharer, sharer.pcqm, sharer.pcqm.Repr, expClausesBuf
      requires Valid()
      ensures s.tally == Tallies() && s.staged == expClausesBuf.Contents() && s.open == prdClausesQueue.Last() &&
              s.openClauses == s.open.clauses && s.cand == CandidateLength(conflicts, smoothed) &&
              s.view == ViewOf(sharer.pcqm)
    {
      Start(Tallies(), expClausesBuf.Contents(), prdClausesQueue.Last(), prdClausesQueue.Last().clauses,
            CandidateLength(conflicts, smoothed), ViewOf(sharer.pcqm))
    }

    /**
     * A step that changes none of the objects the worker's state is made of keeps the worker
     * valid and keeps the state its period check starts from.
     */
    twostate lemma Untouched(new conflicts: nat, new smoothed: nat)
      requires old(Valid())
      requires unchanged(this) && unchanged(expClausesBuf) && unchanged(sharer) && unchanged(sharer.pcqm)
      requires unchanged(sharer.pcqm.Repr)
      ensures Valid() == old(Valid()) && StartOf(conflicts, smoothed) == old(StartOf(conflicts, smoothed))
    {
    }

    /**
     * Accesses counted elsewhere are added to the memory-access count; the state a period check
     * starts from is otherwise as it was.
     */
    method AddMemAccesses(n: nat, ghost conflicts: nat, ghost smoothed: nat)
      requires Valid()
      modifies this`numMemAccesses
      ensures numMemAccesses == old(numMemAccesses) + n
      ensures Valid() && StartOf(conflicts, smoothed) == old(StartOf(conflicts, smoothed))
    {
      numMemAccesses := numMemAccesses + n;
    }

    /**
     * The worker is where a period check that spent its budget leaves it, from the state
     * `r.from`, with the results `r` and the answer `cont`: `CheckPeriod`'s promises for that
     * case, stated over the values of `r.from` (`t` its counters), except the memory-access count
     * and the freshness of the new open set, together with the counters its frame keeps.
     */
    ghost predicate Stepped(conflicts: nat, smoothed: nat, overLimits: bool, cont: bool, r: Step)
      reads this, expClausesBuf, sharer, sharer.pcqm, sharer.pcqm.Repr, r.closed, r.next, r.own
    {
      var s, t := r.from, r.from.tally;
      Valid() &&
      r.imported == (r.reached >= 0) && periods == t.periods + 1 &&
      cont == !ShouldBeTerminated(overLimits) &&
      // 1. the export
      r.exported == DrainCount(s.staged, expLitsLim) && expClausesBuf.Contents() == s.staged[r.exported..] &&
      numExportedClauses == t.numExportedClauses + r.exported &&
      (if expLitsLim == 0 || conflicts == t.prevExpConfs then r.adjust == Keep && prevExpLits == t.prevExpLits
       else prevExpLits == TotalLiterals(expClausesBuf.Contents()) % U32 &&
            r.adjust == Steer(prevExpLits, Int32Diff(prevExpLits, t.prevExpLits), expLitsLim, expLitsMargin)) &&
      prevExpConfs == (if expLitsLim == 0 then t.prevExpConfs else conflicts) &&
      // 2. the candidate length and 3. the own set closed with it
      (if options.adptPrd == 0 then
         sumMemAccs == t.sumMemAccs && emaMemAccs == t.emaMemAccs && emaPrevConfs == t.emaPrevConfs
       else if conflicts > t.emaPrevConfs + options.adptPrd then
         sumMemAccs == 0 && emaMemAccs == smoothed && emaPrevConfs == conflicts
       else
         sumMemAccs == t.sumMemAccs + t.memAccLim && emaMemAccs == t.emaMemAccs && emaPrevConfs == t.emaPrevConfs) &&
      r.len == s.cand && r.closed == s.open && r.closed.prd == t.periods && r.closed.completed &&
      r.closed.prdLen == r.len && r.closed.clauses == s.openClauses + s.staged[..r.exported] &&
      r.next.clauses == [] &&
      |prdClausesQueue.queue| > 0 && prdClausesQueue.queue[|prdClausesQueue.queue| - 1] == r.next &&
      // 4. the import, from the others' mailboxes as they were at the call (their rows: `ViewRows`)
      r.before == s.view && Seen(r.before, thn) &&
      (!r.imported ==> importedClauses == t.importedClauses && importedUnitClauses == t.importedUnitClauses) &&
      (r.imported ==>
         r.batches == RoundBatches(r.before, thn, r.reached) &&
         r.sums == RoundLens(r.before, thn, r.reached) &&
         importedClauses == t.importedClauses + Longs(Gather(r.batches, 0, |r.batches|)) &&
         importedUnitClauses == t.importedUnitClauses + Units(Gather(r.batches, 0, |r.batches|))) &&
      // 5. the next period's budget
      ((!r.imported || options.adptPrd == 0) ==> memAccLim == if r.imported then t.memAccLim else t.nextMemAccLim) &&
      (r.imported && options.adptPrd != 0 ==>
         r.own in prdClausesQueue.queue && r.own.prd == r.reached &&
         r.total == SumLen(r.sums, 0, |r.sums|) + r.own.prdLen &&
         memAccLim == NextLimit(r.total, sharer.numThreads, options.adptPrdLB, options.adptPrdUB)) &&
      nextMemAccLim == memAccLim &&
      // the counters the step does not touch
      lastFappPeriod == t.lastFappPeriod && numImportedClauses == t.numImportedClauses &&
      numForcedApplications == t.numForcedApplications &&
      // 6. every other mailbox after the import
      Acked(sharer.pcqm, r.before, thn, r.reached)
    }

    /**
     * The period-boundary check, run by the solver between search steps. Until the budget of
     * the period is used up nothing happens and the answer is "continue". Otherwise, in this
     * order: the staged clauses are exported into the own open set, the candidate length of
     * the next period is computed, the own set is closed with it, the clauses of the others
     * are imported, and the worker moves to the next period; the answer is then whether it
     * should go on. `conflicts` is the solver's conflict count, `smoothed` the floating-point
     * moving average of the adaptive mode and `overLimits` the memory and time checks.
     */
    method CheckPeriod(conflicts: nat, smoothed: nat, overLimits: bool)
        returns (cont: bool, adjust: Adjust, ghost imported: bool, ghost len: nat, ghost exported: nat,
                 ghost closed: PrdClauses, ghost next: PrdClauses, ghost before: View, ghost batches: seq<seq<Clause>>,
                 ghost sums: seq<nat>, ghost total: nat, ghost own: PrdClauses, ghost reached: int)
      requires Valid()
      requires !options.nonDet && periods >= margin ==>
        forall u :: 0 <= u < sharer.numThreads && u != thn ==> periods - margin < LastPrd(sharer.pcqm.queues[u])
      modifies this`periods, this`memAccLim, this`nextMemAccLim, this`numMemAccesses, this`importedClauses,
               this`importedUnitClauses, this`sumMemAccs, this`emaMemAccs, this`emaPrevConfs, this`prevExpLits,
               this`prevExpConfs, this`numExportedClauses, expClausesBuf, sharer.pcqm, sharer.pcqm.Repr
      ensures Valid() && reached == old(periods) - margin
      ensures !old(CanMoveToNextPeriod()) ==>
        cont && adjust == Keep && !imported && unchanged(this) && unchanged(expClausesBuf) &&
        unchanged(sharer.pcqm) && unchanged(sharer.pcqm.Repr)
      ensures old(CanMoveToNextPeriod()) ==>
        imported == (reached >= 0) && periods == old(periods) + 1 &&
        numMemAccesses == old(numMemAccesses) - old(memAccLim) &&
        cont == !ShouldBeTerminated(overLimits)
      // 1. the export
      ensures old(CanMoveToNextPeriod()) ==>
        exported == DrainCount(old(expClausesBuf.Contents()), expLitsLim) &&
        expClausesBuf.Contents() == old(expClausesBuf.Contents())[exported..] &&
        numExportedClauses == old(numExportedClauses) + exported
      ensures old(CanMoveToNextPeriod()) ==>
        if expLitsLim == 0 || conflicts == old(prevExpConfs) then adjust == Keep && prevExpLits == old(prevExpLits)
        else (prevExpLits == TotalLiterals(expClausesBuf.Contents()) % U32 &&
              adjust == Steer(prevExpLits, Int32Diff(prevExpLits, old(prevExpLits)), expLitsLim, expLitsMargin))
      ensures old(CanMoveToNextPeriod()) ==>
        prevExpConfs == (if expLitsLim == 0 then old(prevExpConfs) else conflicts)
      // 2. the candidate length and 3. the own set closed with it
      ensures old(CanMoveToNextPeriod()) ==>
        if options.adptPrd == 0 then
          sumMemAccs == old(sumMemAccs) && emaMemAccs == old(emaMemAccs) && emaPrevConfs == old(emaPrevConfs)
        else if conflicts > old(emaPrevConfs) + options.adptPrd then
          sumMemAccs == 0 && emaMemAccs == smoothed && emaPrevConfs == conflicts
        else
          sumMemAccs == old(sumMemAccs) + old(memAccLim) && emaMemAccs == old(emaMemAccs) &&
          emaPrevConfs == old(emaPrevConfs)
      ensures old(CanMoveToNextPeriod()) ==>
        len == old(CandidateLength(conflicts, smoothed)) &&
        closed == old(prdClausesQueue.Last()) && closed.prd == old(periods) &&
        closed.completed && closed.prdLen == len &&
        closed.clauses == old(closed.clauses) + old(expClausesBuf.Contents())[..exported]
      ensures old(CanMoveToNextPeriod()) ==>
        fresh(next) && next.clauses == [] &&
        |prdClausesQueue.queue| > 0 && prdClausesQueue.queue[|prdClausesQueue.queue| - 1] == next
      // 4. the import, from the others' mailboxes as they were at the call
      ensures old(CanMoveToNextPeriod()) && !imported ==>
        importedClauses == old(importedClauses) && importedUnitClauses == old(importedUnitClauses)
      ensures old(CanMoveToNextPeriod()) ==>
        |before.sets| == |before.cursors| == |before.clauses| == |before.lens| == sharer.numThreads
      ensures old(CanMoveToNextPeriod()) ==> forall u :: 0 <= u < sharer.numThreads ==>
        before.sets[u] == old(sharer.pcqm.queues[u].queue) &&
        before.cursors[u] == old(sharer.pcqm.queues[u].nextPeriod) &&
        before.clauses[u] == old(ClausesOf(sharer.pcqm.queues[u].queue)) &&
        before.lens[u] == old(LensOf(sharer.pcqm.queues[u].queue))
      ensures old(CanMoveToNextPeriod()) && imported ==>
        Seen(before, thn) && batches == RoundBatches(before, thn, reached) &&
        sums == RoundLens(before, thn, reached) &&
        importedClauses == old(importedClauses) + Longs(Gather(batches, 0, |batches|)) &&
        importedUnitClauses == old(importedUnitClauses) + Units(Gather(batches, 0, |batches|))
      // 5. the next period's budget
      ensures old(CanMoveToNextPeriod()) && (!imported || options.adptPrd == 0) ==>
        memAccLim == if imported then old(memAccLim) else old(nextMemAccLim)
      ensures old(CanMoveToNextPeriod()) && imported && options.adptPrd != 0 ==>
        own in prdClausesQueue.queue && own.prd == reached &&
        total == SumLen(sums, 0, |sums|) + own.prdLen &&
        memAccLim == NextLimit(total, sharer.numThreads, options.adptPrdLB, options.adptPrdUB)
      ensures old(CanMoveToNextPeriod()) ==> nextMemAccLim == memAccLim
      // 6. every other mailbox after the import
      ensures old(CanMoveToNextPeriod()) ==>
        before == old(ViewOf(sharer.pcqm)) && Seen(before, thn) && Acked(sharer.pcqm, before, thn, reached)
      ensures fresh(sharer.pcqm.Repr - old(sharer.pcqm.Repr))
    {
      if !CanMoveToNextPeriod() {
        return true, Keep, false, 0, 0, prdClausesQueue.Last(), prdClausesQueue.Last(), View([], [], [], []), [], [], 0,
          prdClausesQueue.Last(), periods - margin;
      }
      cont, adjust, imported, len, exported, closed, next, before, batches, sums, total, own, reached :=
        Boundary(conflicts, smoothed, overLimits);
    }

    /**
     * The body of `checkPeriod` once the memory-access budget of the period is spent: the export,
     * the close of the own set, the import and the move to the next period. Its results are those
     * of `CheckPeriod`, and `before` is the table as it stood when the period ended.
     */
    method Boundary(conflicts: nat, smoothed: nat, overLimits: bool)
        returns (cont: bool, adjust: Adjust, ghost imported: bool, ghost len: nat, ghost exported: nat,
                 ghost closed: PrdClauses, ghost next: PrdClauses, ghost before: View, ghost batches: seq<seq<Clause>>,
                 ghost sums: seq<nat>, ghost total: nat, ghost own: PrdClauses, ghost reached: int)
      requires Valid() && CanMoveToNextPeriod()
      requires !options.nonDet && periods >= margin ==>
        forall u :: 0 <= u < sharer.numThreads && u != thn ==> periods - margin < LastPrd(sharer.pcqm.queues[u])
      modifies this`periods, this`memAccLim, this`nextMemAccLim, this`numMemAccesses, this`importedClauses,
               this`importedUnitClauses, this`sumMemAccs, this`emaMemAccs, this`emaPrevConfs, this`prevExpLits,
               this`prevExpConfs, this`numExportedClauses, expClausesBuf, sharer.pcqm, sharer.pcqm.Repr
      ensures Valid()
      ensures reached == old(periods) - margin && imported == (reached >= 0) && periods == old(periods) + 1 &&
        numMemAccesses == old(numMemAccesses) - old(memAccLim) &&
        cont == !ShouldBeTerminated(overLimits)
      // 1. the export
      ensures exported == DrainCount(old(expClausesBuf.Contents()), expLitsLim) &&
        expClausesBuf.Contents() == old(expClausesBuf.Contents())[exported..] &&
        numExportedClauses == old(numExportedClauses) + exported
      ensures if expLitsLim == 0 || conflicts == old(prevExpConfs) then adjust == Keep && prevExpLits == old(prevExpLits)
        else (prevExpLits == TotalLiterals(expClausesBuf.Contents()) % U32 &&
              adjust == Steer(prevExpLits, Int32Diff(prevExpLits, old(prevExpLits)), expLitsLim, expLitsMargin))
      ensures prevExpConfs == (if expLitsLim == 0 then old(prevExpConfs) else conflicts)
      // 2. the candidate length and 3. the own set closed with it
      ensures if options.adptPrd == 0 then
          sumMemAccs == old(sumMemAccs) && emaMemAccs == old(emaMemAccs) && emaPrevConfs == old(emaPrevConfs)
        else if conflicts > old(emaPrevConfs) + options.adptPrd then
          sumMemAccs == 0 && emaMemAccs == smoothed && emaPrevConfs == conflicts
        else
          sumMemAccs == old(sumMemAccs) + old(memAccLim) && emaMemAccs == old(emaMemAccs) &&
          emaPrevConfs == old(emaPrevConfs)
      ensures len == old(CandidateLength(conflicts, smoothed)) &&
        closed == old(prdClausesQueue.Last()) && closed.prd == old(periods) &&
        closed.completed && closed.prdLen == len &&
        closed.clauses == old(closed.clauses) + old(expClausesBuf.Contents())[..exported]
      ensures fresh(next) && next.clauses == [] &&
        |prdClausesQueue.queue| > 0 && prdClausesQueue.queue[|prdClausesQueue.queue| - 1] == next
      // 4. the import, from the others' mailboxes as they were at the call
      ensures !imported ==>
        importedClauses == old(importedClauses) && importedUnitClauses == old(importedUnitClauses)
      ensures |before.sets| == |before.cursors| == |before.clauses| == |before.lens| == sharer.numThreads
      ensures forall u :: 0 <= u < sharer.numThreads ==>
        before.sets[u] == old(sharer.pcqm.queues[u].queue) &&
        before.cursors[u] == old(sharer.pcqm.queues[u].nextPeriod) &&
        before.clauses[u] == old(ClausesOf(sharer.pcqm.queues[u].queue)) &&
        before.lens[u] == old(LensOf(sharer.pcqm.queues[u].queue))
      ensures imported ==>
        Seen(before, thn) && batches == RoundBatches(before, thn, reached) &&
        sums == RoundLens(before, thn, reached) &&
        importedClauses == old(importedClauses) + Longs(Gather(batches, 0, |batches|)) &&
        importedUnitClauses == old(importedUnitClauses) + Units(Gather(batches, 0, |batches|))
      // 5. the next period's budget
      ensures (!imported || options.adptPrd == 0) ==>
        memAccLim == if imported then old(memAccLim) else old(nextMemAccLim)
      ensures imported && options.adptPrd != 0 ==>
        own in prdClausesQueue.queue && own.prd == reached &&
        total == SumLen(sums, 0, |sums|) + own.prdLen &&
        memAccLim == NextLimit(total, sharer.numThreads, options.adptPrdLB, options.adptPrdUB)
      ensures nextMemAccLim == memAccLim
      // 6. every other mailbox after the import
      ensures before == old(ViewOf(sharer.pcqm)) && Seen(before, thn) && Acked(sharer.pcqm, before, thn, reached)
      ensures fresh(sharer.pcqm.Repr - old(sharer.pcqm.Repr))
    {
      before := TakeView();
      adjust, len, exported, closed, next := EndPeriod(conflicts, smoothed, before);
      ghost var longs, units;
      reached := old(periods) - margin;
      imported, batches, sums, total, longs, units, own :=
        ImportAndMove(before, reached, old(importedClauses), old(importedUnitClauses), closed, next);
      cont := !ShouldBeTerminated(overLimits);
    }

    /** The table as it stands, as a value: the view of every mailbox, row by row. */
    lemma TakeView() returns (v: View)
      requires Valid()
      ensures v == ViewOf(sharer.pcqm)
      ensures Seen(v, thn) && |v.sets| == |v.cursors| == |v.clauses| == |v.lens| == sharer.numThreads
      ensures forall u :: 0 <= u < sharer.numThreads ==>
        v.sets[u] == sharer.pcqm.queues[u].queue && v.cursors[u] == sharer.pcqm.queues[u].nextPeriod &&
        v.clauses[u] == ClausesOf(sharer.pcqm.queues[u].queue) && v.lens[u] == LensOf(sharer.pcqm.queues[u].queue)
    {
      v := ViewOf(sharer.pcqm);
      ViewRows(sharer.pcqm, v);
      SnapshotOf(sharer.pcqm, thn);
    }

    /**
     * When no object of the old footprint of the mailbox table changed except the table itself
     * and what the own mailbox owned, every other mailbox still has the cursors, the sets and the
     * contents it had.
     */
    twostate lemma OthersRowsKept()
      requires old(sharer.pcqm.Valid()) && sharer.pcqm.Valid()
      requires thn < |sharer.pcqm.queues| && sharer.pcqm.queues == old(sharer.pcqm.queues)
      requires forall o :: o in old(sharer.pcqm.Repr) && o !in old(sharer.pcqm.queues[thn].Repr) && o != sharer.pcqm ==>
        unchanged(o)
      ensures forall u :: 0 <= u < |sharer.pcqm.queues| && u != thn ==>
        sharer.pcqm.queues[u].queue == old(sharer.pcqm.queues[u].queue) &&
        sharer.pcqm.queues[u].nextPeriod == old(sharer.pcqm.queues[u].nextPeriod) &&
        ClausesOf(sharer.pcqm.queues[u].queue) == old(ClausesOf(sharer.pcqm.queues[u].queue)) &&
        LensOf(sharer.pcqm.queues[u].queue) == old(LensOf(sharer.pcqm.queues[u].queue))
    {
      var m := sharer.pcqm;
      forall u | 0 <= u < |m.queues| && u != thn
        ensures m.queues[u].queue == old(m.queues[u].queue) && m.queues[u].nextPeriod == old(m.queues[u].nextPeriod)
        ensures ClausesOf(m.queues[u].queue) == old(ClausesOf(m.queues[u].queue))
        ensures LensOf(m.queues[u].queue) == old(LensOf(m.queues[u].queue))
      {
        var q := m.queues[u];
        assert old(m.Get(u)) == q && old(m.Get(thn)) == m.queues[thn];
        assert old(q.Repr) !! old(m.queues[thn].Repr);
        forall o | o in old(q.Repr)
          ensures unchanged(o)
        {
          assert o in old(m.Repr) && o !in old(m.queues[thn].Repr) && o != m;
        }
        QueueKept(q);
      }
    }

    /**
     * The first half of the boundary step: export, candidate length, and the own set closed
     * with that length. No object of the table outside the own mailbox changes.
     */
    method EndPeriod(conflicts: nat, smoothed: nat, ghost before: View)
        returns (adjust: Adjust, len: nat, ghost exported: nat, ghost closed: PrdClauses, ghost next: PrdClauses)
      requires Valid()
      requires |before.sets| == |before.cursors| == |before.clauses| == |before.lens| == sharer.numThreads
      requires forall u :: 0 <= u < sharer.numThreads ==>
        before.sets[u] == sharer.pcqm.queues[u].queue && before.cursors[u] == sharer.pcqm.queues[u].nextPeriod &&
        before.clauses[u] == ClausesOf(sharer.pcqm.queues[u].queue) && before.lens[u] == LensOf(sharer.pcqm.queues[u].queue)
      requires !options.nonDet && periods >= margin ==>
        forall u :: 0 <= u < sharer.numThreads && u != thn ==> periods - margin < LastPrd(sharer.pcqm.queues[u])
      modifies this`numExportedClauses, this`prevExpConfs, this`prevExpLits, this`sumMemAccs,
               this`emaMemAccs, this`emaPrevConfs, expClausesBuf, sharer.pcqm`Repr,
               prdClausesQueue`queue, prdClausesQueue`Repr, prdClausesQueue.Last()
      ensures Phase(periods + 1, OwnCursor(periods))
      ensures len == old(CandidateLength(conflicts, smoothed))
      ensures closed == old(prdClausesQueue.Last()) && closed.prd == periods && closed.completed && closed.prdLen == len
      ensures exported == DrainCount(old(expClausesBuf.Contents()), expLitsLim)
      ensures closed.clauses == old(closed.clauses) + old(expClausesBuf.Contents())[..exported]
      ensures expClausesBuf.Contents() == old(expClausesBuf.Contents())[exported..]
      ensures numExportedClauses == old(numExportedClauses) + exported
      ensures if expLitsLim == 0 || conflicts == old(prevExpConfs) then adjust == Keep && prevExpLits == old(prevExpLits)
        else (prevExpLits == TotalLiterals(expClausesBuf.Contents()) % U32 &&
              adjust == Steer(prevExpLits, Int32Diff(prevExpLits, old(prevExpLits)), expLitsLim, expLitsMargin))
      ensures forall u :: 0 <= u < sharer.numThreads && u != thn ==>
        before.sets[u] == sharer.pcqm.queues[u].queue && before.cursors[u] == sharer.pcqm.queues[u].nextPeriod &&
        before.clauses[u] == ClausesOf(sharer.pcqm.queues[u].queue) &&
        before.lens[u] == LensOf(sharer.pcqm.queues[u].queue)
      ensures !options.nonDet && periods >= margin ==>
        forall u :: 0 <= u < sharer.numThreads && u != thn ==> periods - margin < LastPrd(sharer.pcqm.queues[u])
      ensures periods == old(periods) && numMemAccesses == old(numMemAccesses) && memAccLim == old(memAccLim)
      ensures importedClauses == old(importedClauses) && importedUnitClauses == old(importedUnitClauses)
      ensures nextMemAccLim == old(nextMemAccLim)
      ensures prevExpConfs == (if expLitsLim == 0 then old(prevExpConfs) else conflicts)
      ensures if options.adptPrd == 0 then
          sumMemAccs == old(sumMemAccs) && emaMemAccs == old(emaMemAccs) && emaPrevConfs == old(emaPrevConfs)
        else if conflicts > old(emaPrevConfs) + options.adptPrd then
          sumMemAccs == 0 && emaMemAccs == smoothed && emaPrevConfs == conflicts
        else
          sumMemAccs == old(sumMemAccs) + old(memAccLim) && emaMemAccs == old(emaMemAccs) &&
          emaPrevConfs == old(emaPrevConfs)
      ensures |prdClausesQueue.queue| > 0 && next == prdClausesQueue.queue[|prdClausesQueue.queue| - 1]
      ensures fresh(next) && next.clauses == []
      ensures fresh(sharer.pcqm.Repr - old(sharer.pcqm.Repr))
    {
      adjust, exported := ExportSelectedClauses(conflicts);
      len := GetNewPeriodLength(conflicts, smoothed);
      ghost var evicted;
      closed, evicted := CloseOwnPeriod(len);
      next := prdClausesQueue.Last();
      OthersRowsKept();
    }

    /**
     * Outside the adaptive mode the worker's own cursor stays at 0, so no set of its own mailbox
     * is acknowledged by every worker.
     */
    lemma NoneFullyAcked()
      requires Valid() && options.adptPrd == 0
      ensures forall k :: 0 <= k < |prdClausesQueue.queue| ==>
        prdClausesQueue.queue[k].numExportedThreads < sharer.numThreads
    {
      var q := prdClausesQueue;
      forall k | 0 <= k < |q.queue| ensures q.queue[k].numExportedThreads < sharer.numThreads {
        CountAboveShort(q.nextPeriod, thn, q.queue[k].prd);
      }
    }

    /**
     * The worker closes its own set of the current period with the candidate length `len`
     * (`Sharer.CompleteCurrPeriod`): the own mailbox is now open at the next period with a fresh
     * empty set, its own cursor has not moved, and the sets every reader has acknowledged are
     * dropped from its front (`evicted` of them); outside the adaptive mode there are none.
     */
    method CloseOwnPeriod(len: nat) returns (ghost closed: PrdClauses, ghost evicted: nat)
      requires Valid()
      modifies sharer.pcqm`Repr, prdClausesQueue`queue, prdClausesQueue`Repr, prdClausesQueue.Last()
      ensures Phase(periods + 1, OwnCursor(periods))
      ensures closed == old(prdClausesQueue.Last()) && closed.prd == periods
      ensures closed.completed && closed.prdLen == len && closed.clauses == old(closed.clauses)
      ensures fresh(prdClausesQueue.Last()) && prdClausesQueue.Last().clauses == []
      ensures evicted <= |old(prdClausesQueue.queue)|
      ensures prdClausesQueue.queue == (old(prdClausesQueue.queue) + [prdClausesQueue.Last()])[evicted..]
      ensures forall k :: 0 <= k < evicted ==> old(prdClausesQueue.queue)[k].numExportedThreads == sharer.numThreads
      ensures |prdClausesQueue.queue| > 1 ==> prdClausesQueue.queue[0].numExportedThreads != sharer.numThreads
      ensures fresh(sharer.pcqm.Repr - old(sharer.pcqm.Repr))
      ensures options.adptPrd == 0 ==> evicted == 0
    {
      if options.adptPrd == 0 {
        NoneFullyAcked();
      }
      closed, evicted := sharer.CompleteCurrPeriod(thn, len);
    }

    /**
     * The import step on the others' mailboxes as `before` shows them: what `ImportClauses`
     * states, with the batches and candidates read from `before`. `period` is the period the
     * import reaches (negative before period `margin`), `longs0` and `units0` the pending lists
     * before it, and `longs` and `units` the lists after it; in the adaptive mode `own` is the
     * own set of `period`, whose candidate joins the average.
     */
    method ImportFromView(ghost sets: set<PrdClauses>, ghost before: View, ghost period: int,
                          ghost longs0: seq<Clause>, ghost units0: seq<Clause>)
        returns (imported: bool, ghost batches: seq<seq<Clause>>, ghost sums: seq<nat>, ghost total: nat,
                 ghost longs: seq<Clause>, ghost units: seq<Clause>, ghost own: PrdClauses)
      requires Phase(periods + 1, OwnCursor(periods)) && Covers(sharer.pcqm, sets) && Seen(before, thn)
      requires period == periods - margin && longs0 == importedClauses && units0 == importedUnitClauses
      requires |before.sets| == |before.cursors| == |before.clauses| == |before.lens| == sharer.numThreads
      requires forall u :: 0 <= u < sharer.numThreads && u != thn ==>
        before.sets[u] == sharer.pcqm.queues[u].queue && before.cursors[u] == sharer.pcqm.queues[u].nextPeriod &&
        before.clauses[u] == ClausesOf(sharer.pcqm.queues[u].queue) &&
        before.lens[u] == LensOf(sharer.pcqm.queues[u].queue)
      requires !options.nonDet && periods >= margin ==>
        forall u :: 0 <= u < sharer.numThreads && u != thn ==> periods - margin < LastPrd(sharer.pcqm.queues[u])
      modifies sharer.pcqm.queues`nextPeriod, sets`numExportedThreads, this`importedClauses, this`importedUnitClauses, this`nextMemAccLim
      ensures Phase(periods + 1, OwnCursor(periods + 1))
      ensures imported <==> period >= 0
      ensures longs == importedClauses && units == importedUnitClauses
      ensures !imported ==> longs == longs0 && units == units0 && nextMemAccLim == old(nextMemAccLim)
      ensures imported ==>
        Seen(before, thn) && batches == RoundBatches(before, thn, period) && sums == RoundLens(before, thn, period) &&
        longs == longs0 + Longs(Gather(batches, 0, |batches|)) && units == units0 + Units(Gather(batches, 0, |batches|))
      ensures imported && options.adptPrd == 0 ==> nextMemAccLim == memAccLim
      ensures imported && options.adptPrd != 0 ==>
        own in prdClausesQueue.queue && own.prd == period && total == SumLen(sums, 0, |sums|) + own.prdLen &&
        nextMemAccLim == NextLimit(total, sharer.numThreads, options.adptPrdLB, options.adptPrdUB)
      ensures Acked(sharer.pcqm, before, thn, period)
    {
      ghost var v := ViewOf(sharer.pcqm);
      ViewAgrees(sharer.pcqm, before, thn);
      own := prdClausesQueue.Last();
      if period >= 0 && options.adptPrd != 0 {
        own := OwnSet(period);
      }
      imported, batches, sums, total := ImportKeeping(sets, v, before, period);
      longs, units := importedClauses, importedUnitClauses;
      if imported {
        TookAsSeen(v, before, thn, period, batches, sums, longs0, longs, units0, units);
      }
    }

    /**
     * The second half of a period boundary, after the own set is closed: the import, taken from the
     * others' mailboxes as `before` shows them, then the move to the next period. The export buffer,
     * the export counters and the closed set `closed` stay as the export left them.
     */
    method ImportAndMove(ghost before: View, ghost period: int, ghost longs0: seq<Clause>, ghost units0: seq<Clause>,
                         ghost closed: PrdClauses, ghost next: PrdClauses)
        returns (imported: bool, ghost batches: seq<seq<Clause>>, ghost sums: seq<nat>, ghost total: nat,
                 ghost longs: seq<Clause>, ghost units: seq<Clause>, ghost own: PrdClauses)
      requires Phase(periods + 1, OwnCursor(periods)) && numMemAccesses >= memAccLim && Seen(before, thn)
      requires period == periods - margin && longs0 == importedClauses && units0 == importedUnitClauses
      requires |before.sets| == |before.cursors| == |before.clauses| == |before.lens| == sharer.numThreads
      requires forall u :: 0 <= u < sharer.numThreads && u != thn ==>
        before.sets[u] == sharer.pcqm.queues[u].queue && before.cursors[u] == sharer.pcqm.queues[u].nextPeriod &&
        before.clauses[u] == ClausesOf(sharer.pcqm.queues[u].queue) &&
        before.lens[u] == LensOf(sharer.pcqm.queues[u].queue)
      requires !options.nonDet && periods >= margin ==>
        forall u :: 0 <= u < sharer.numThreads && u != thn ==> periods - margin < LastPrd(sharer.pcqm.queues[u])
      modifies sharer.pcqm.queues`nextPeriod, ReprSets(sharer.pcqm)`numExportedThreads, this`importedClauses,
               this`importedUnitClauses, this`nextMemAccLim, this`numMemAccesses, this`periods, this`memAccLim
      ensures Valid()
      ensures expClausesBuf.keys == old(expClausesBuf.keys) && expClausesBuf.db == old(expClausesBuf.db)
      ensures numExportedClauses == old(numExportedClauses) && prevExpLits == old(prevExpLits)
      ensures closed.completed == old(closed.completed) && closed.prdLen == old(closed.prdLen) &&
        closed.clauses == old(closed.clauses)
      ensures periods == old(periods) + 1 && numMemAccesses == old(numMemAccesses) - old(memAccLim)
      ensures imported <==> period >= 0
      ensures longs == importedClauses && units == importedUnitClauses
      ensures !imported ==> longs == longs0 && units == units0
      ensures imported ==>
        Seen(before, thn) && batches == RoundBatches(before, thn, period) && sums == RoundLens(before, thn, period) &&
        longs == longs0 + Longs(Gather(batches, 0, |batches|)) && units == units0 + Units(Gather(batches, 0, |batches|))
      ensures !imported || options.adptPrd == 0 ==> memAccLim == if imported then old(memAccLim) else old(nextMemAccLim)
      ensures imported && options.adptPrd != 0 ==>
        own in prdClausesQueue.queue && own.prd == period && total == SumLen(sums, 0, |sums|) + own.prdLen &&
        memAccLim == NextLimit(total, sharer.numThreads, options.adptPrdLB, options.adptPrdUB)
      ensures nextMemAccLim == memAccLim
      ensures prevExpConfs == old(prevExpConfs) && sumMemAccs == old(sumMemAccs) && emaMemAccs == old(emaMemAccs) &&
        emaPrevConfs == old(emaPrevConfs)
      ensures prdClausesQueue.queue == old(prdClausesQueue.queue) && next.clauses == old(next.clauses)
      ensures Acked(sharer.pcqm, before, thn, period)
    {
      ReprCovers(sharer.pcqm);
      imported, batches, sums, total, longs, units, own := ImportFromView(ReprSets(sharer.pcqm), before, period, longs0, units0);
      MoveToNextPeriod();
    }

    /**
     * `ImportClauses`, with the others' mailboxes after it described over `before`, which shows
     * them as `v` does. The fields its frame leaves out (the export buffer, the export counters,
     * the closed set) keep their values.
     */
    method ImportKeeping(ghost sets: set<PrdClauses>, ghost v: View, ghost before: View, ghost period: int)
        returns (imported: bool, ghost batches: seq<seq<Clause>>, ghost sums: seq<nat>, ghost total: nat)
      requires Phase(periods + 1, OwnCursor(periods)) && Covers(sharer.pcqm, sets)
      requires v == ViewOf(sharer.pcqm) && Seen(v, thn) && period == periods - margin
      requires Seen(before, thn) && OthersAgree(v, before, thn)
      requires !options.nonDet && periods >= margin ==>
        forall u :: 0 <= u < sharer.numThreads && u != thn ==> periods - margin < LastPrd(sharer.pcqm.queues[u])
      modifies sharer.pcqm.queues`nextPeriod, sets`numExportedThreads, this`importedClauses, this`importedUnitClauses, this`nextMemAccLim
      ensures Phase(periods + 1, OwnCursor(periods + 1))
      ensures imported <==> period >= 0
      ensures !imported ==> importedClauses == old(importedClauses) && importedUnitClauses == old(importedUnitClauses) && nextMemAccLim == old(nextMemAccLim)
      ensures imported ==> batches == RoundBatches(v, thn, period)
      ensures imported ==> sums == RoundLens(v, thn, period)
      ensures imported ==> importedClauses == old(importedClauses) + Longs(Gather(batches, 0, |batches|))
      ensures imported ==> importedUnitClauses == old(importedUnitClauses) + Units(Gather(batches, 0, |batches|))
      ensures imported && options.adptPrd == 0 ==> nextMemAccLim == memAccLim
      ensures imported && options.adptPrd != 0 ==>
        old(OwnSet(period)).prd == period &&
        total == SumLen(sums, 0, |sums|) + old(OwnSet(period).prdLen) &&
        nextMemAccLim == NextLimit(total, sharer.numThreads, options.adptPrdLB, options.adptPrdUB)
      ensures Acked(sharer.pcqm, before, thn, period)
    {
      imported, batches, sums, total := ImportClauses(sets, v, period);
      AckedAgree(sharer.pcqm, v, before, thn, period);
    }

    /**
     * The import step, run after the own set of the current period is closed. Before period
     * `margin` nothing happens. Otherwise the worker takes, from every other mailbox in ring
     * order, every set up to period `periods - margin` it has not read yet (the deterministic
     * mode waits for each to be completed: here the others have completed that period), appends
     * their non-unit and unit clauses to the pending lists and, in the adaptive mode,
     * acknowledges its own set of period `periods - margin` and sets the next period length to
     * the clamped average of all the candidates read.
     */
    method ImportClauses(ghost sets: set<PrdClauses>, ghost v: View, ghost period: int)
        returns (imported: bool, ghost batches: seq<seq<Clause>>, ghost sums: seq<nat>, ghost total: nat)
      requires Phase(periods + 1, OwnCursor(periods)) && Covers(sharer.pcqm, sets)
      requires v == ViewOf(sharer.pcqm) && Seen(v, thn) && period == periods - margin
      requires !options.nonDet && periods >= margin ==>
        forall u :: 0 <= u < sharer.numThreads && u != thn ==> periods - margin < LastPrd(sharer.pcqm.queues[u])
      modifies sharer.pcqm.queues`nextPeriod, sets`numExportedThreads, this`importedClauses, this`importedUnitClauses, this`nextMemAccLim
      ensures Phase(periods + 1, OwnCursor(periods + 1))
      ensures imported <==> period >= 0
      ensures !imported ==> importedClauses == old(importedClauses) && importedUnitClauses == old(importedUnitClauses) && nextMemAccLim == old(nextMemAccLim)
      ensures imported ==> batches == RoundBatches(v, thn, period)
      ensures imported ==> sums == RoundLens(v, thn, period)
      ensures imported ==> importedClauses == old(importedClauses) + Longs(Gather(batches, 0, |batches|))
      ensures imported ==> importedUnitClauses == old(importedUnitClauses) + Units(Gather(batches, 0, |batches|))
      ensures imported && options.adptPrd == 0 ==> nextMemAccLim == memAccLim
      ensures imported && options.adptPrd != 0 ==>
        old(OwnSet(period)).prd == period &&
        total == SumLen(sums, 0, |sums|) + old(OwnSet(period).prdLen) &&
        nextMemAccLim == NextLimit(total, sharer.numThreads, options.adptPrdLB, options.adptPrdUB)
      ensures Acked(sharer.pcqm, v, thn, period)
    {
      imported := periods >= margin;
      if imported {
        var p: nat := periods - margin;
        assert p == period;
        batches, sums, total := ImportAt(p, sets, v);
      } else {
        AckedNone(sharer.pcqm, v, thn, period);
        batches, sums, total := [], [], 0;
      }
    }

    /** The import at `period`, once the worker has reached period `margin`. */
    method ImportAt(period: nat, ghost sets: set<PrdClauses>, ghost v: View)
        returns (ghost batches: seq<seq<Clause>>, ghost sums: seq<nat>, ghost total: nat)
      requires periods >= margin && period == periods - margin
      requires Phase(periods + 1, OwnCursor(periods)) && Covers(sharer.pcqm, sets)
      requires v == ViewOf(sharer.pcqm) && Seen(v, thn)
      requires !options.nonDet ==>
        forall u :: 0 <= u < sharer.numThreads && u != thn ==> period < LastPrd(sharer.pcqm.queues[u])
      modifies sharer.pcqm.queues`nextPeriod, sets`numExportedThreads, this`importedClauses, this`importedUnitClauses, this`nextMemAccLim
      ensures Phase(periods + 1, OwnCursor(periods + 1))
      ensures batches == RoundBatches(v, thn, period) && sums == RoundLens(v, thn, period)
      ensures importedClauses == old(importedClauses) + Longs(Gather(batches, 0, |batches|))
      ensures importedUnitClauses == old(importedUnitClauses) + Units(Gather(batches, 0, |batches|))
      ensures options.adptPrd == 0 ==> nextMemAccLim == memAccLim
      ensures options.adptPrd != 0 ==>
        old(OwnSet(period)).prd == period && total == SumLen(sums, 0, |sums|) + old(OwnSet(period).prdLen) &&
        nextMemAccLim == NextLimit(total, sharer.numThreads, options.adptPrdLB, options.adptPrdUB)
      ensures Acked(sharer.pcqm, v, thn, period)
    {
      var sum;
      ghost var p, c := periods + 1, OwnCursor(periods);
      batches, sums, sum := ImportOthers(period, sets, v, p, c);
      assert p == periods + 1 && c == OwnCursor(periods);
      assert options.adptPrd != 0 ==> OwnSet(period) == old(OwnSet(period));
      total := AdaptLimit(period, sum, v);
    }

    /**
     * The limit of the next period: the configured one, or in the adaptive mode the average
     * candidate length over all sets of `period`, the others' `sum` plus the own one, clamped.
     */
    method AdaptLimit(period: nat, sum: nat, ghost v: View) returns (ghost total: nat)
      requires periods >= margin && period == periods - margin && Phase(periods + 1, OwnCursor(periods))
      requires Seen(v, thn) && Acked(sharer.pcqm, v, thn, period)
      modifies prdClausesQueue`nextPeriod, prdClausesQueue.queue`numExportedThreads, this`nextMemAccLim
      ensures Phase(periods + 1, OwnCursor(periods + 1)) && Acked(sharer.pcqm, v, thn, period)
      ensures options.adptPrd == 0 ==> nextMemAccLim == memAccLim
      ensures options.adptPrd != 0 ==>
        old(OwnSet(period)).prd == period && total == sum + old(OwnSet(period).prdLen) &&
        nextMemAccLim == NextLimit(total, sharer.numThreads, options.adptPrdLB, options.adptPrdUB)
    {
      var lim := memAccLim;
      total := 0;
      if options.adptPrd != 0 {
        var len, own := AckOwn(period, v);
        total := sum + len;
        lim := NextLimit(sum + len, sharer.numThreads, options.adptPrdLB, options.adptPrdUB);
      }
      StoreLimit(lim, periods + 1, OwnCursor(periods + 1), v, period);
    }

    /** The next period's length becomes `lim`; the shared state is untouched. */
    method StoreLimit(lim: nat, ghost p: nat, ghost c: nat, ghost v: View, ghost period: int)
      requires Phase(p, c) && Acked(sharer.pcqm, v, thn, period)
      modifies this`nextMemAccLim
      ensures Phase(p, c) && Acked(sharer.pcqm, v, thn, period) && nextMemAccLim == lim
    {
      nextMemAccLim := lim;
    }

    /**
     * The ring part of the import at `period`: the clauses of every other mailbox up to `period`
     * join the pending lists, and `sum` adds up their candidates.
     */
    method ImportOthers(period: nat, ghost sets: set<PrdClauses>, ghost v: View, ghost p: nat, ghost c: nat)
        returns (ghost batches: seq<seq<Clause>>, ghost sums: seq<nat>, sum: nat)
      requires Phase(p, c) && Covers(sharer.pcqm, sets) && v == ViewOf(sharer.pcqm) && Seen(v, thn)
      requires !options.nonDet ==>
        forall u :: 0 <= u < sharer.numThreads && u != thn ==> period < LastPrd(sharer.pcqm.queues[u])
      modifies sharer.pcqm.queues`nextPeriod, sets`numExportedThreads, this`importedClauses, this`importedUnitClauses
      ensures Phase(p, c)
      ensures batches == RoundBatches(v, thn, period) && sums == RoundLens(v, thn, period)
      ensures importedClauses == old(importedClauses) + Longs(Gather(batches, 0, |batches|))
      ensures importedUnitClauses == old(importedUnitClauses) + Units(Gather(batches, 0, |batches|))
      ensures sum == SumLen(sums, 0, |sums|)
      ensures prdClausesQueue.queue == old(prdClausesQueue.queue)
      ensures Acked(sharer.pcqm, v, thn, period)
    {
      var acc0 := Intake(importedClauses, importedUnitClauses, 0);
      var acc;
      acc, batches, sums := ImportRing(sharer.pcqm, sharer.numThreads, thn, period, options.nonDet, acc0, sets, v);
      TakenAll(acc0, batches, sums, 0, |batches|);
      StoreIntake(acc, p, c, v, period);
      sum := acc.sum;
    }

    /** The pending lists become those of `acc`; the shared state is untouched. */
    method StoreIntake(acc: Intake, ghost p: nat, ghost c: nat, ghost v: View, ghost period: int)
      requires Phase(p, c) && Acked(sharer.pcqm, v, thn, period)
      modifies this`importedClauses, this`importedUnitClauses
      ensures Phase(p, c) && Acked(sharer.pcqm, v, thn, period)
      ensures importedClauses == acc.longs && importedUnitClauses == acc.units
    {
      importedClauses := acc.longs;
      importedUnitClauses := acc.units;
    }

    /** The own set of period `period`, while the own mailbox retains it. */
    ghost function OwnSet(period: nat): PrdClauses
      reads prdClausesQueue`queue
      requires |prdClausesQueue.queue| > 0
      requires prdClausesQueue.Front() <= period < prdClausesQueue.Front() + |prdClausesQueue.queue|
    {
      prdClausesQueue.queue[period - prdClausesQueue.Front()]
    }

    /**
     * The adaptive-mode tail of the import: the worker acknowledges its own set of `period`, the
     * one at its own cursor, and returns that set's candidate length.
     */
    method AckOwn(period: nat, ghost v: View) returns (len: nat, ghost own: PrdClauses)
      requires Phase(periods + 1, period) && period < periods + 1 && Seen(v, thn) && Acked(sharer.pcqm, v, thn, period)
      modifies prdClausesQueue`nextPeriod, prdClausesQueue.queue`numExportedThreads
      ensures Phase(periods + 1, period + 1)
      ensures own == old(OwnSet(period))
      ensures own.prd == period && len == own.prdLen
      ensures forall u :: 0 <= u < sharer.numThreads && u != thn ==>
        sharer.pcqm.queues[u].nextPeriod == old(sharer.pcqm.queues[u].nextPeriod)
      ensures Acked(sharer.pcqm, v, thn, period)
    {
      var mine := prdClausesQueue.GetOwn(period);
      len := mine.prdLen;
      sharer.pcqm.CompleteExportationOf(thn, thn, mine);
      own := mine;
      forall u | 0 <= u < |v.sets| && u != thn
        ensures RowSeen(v, thn, u) && sharer.pcqm.queues[u].queue == v.sets[u] &&
                sharer.pcqm.queues[u].nextPeriod == AckedRow(v, thn, period, u)
      {
        assert old(sharer.pcqm.queues[u].nextPeriod) == AckedRow(v, thn, period, u);
      }
    }
  }
}
