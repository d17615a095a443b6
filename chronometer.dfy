/**
 * The nested timers of a worker (utils/Chronometer.cpp). Time is exclusive: only the innermost
 * running timer accrues, and a timer resumed after an inner one stops restarts from that
 * instant. The clock reading `now` is a parameter of every operation.
 */
module Timing {
  /** The four kinds of work a worker's time is split into. */
  datatype ProcName = RunningTime | WaitingTime | ExchangingTime | PeriodUpdateTime

  const ProcTypes: nat := 4

  function Index(p: ProcName): (k: nat)
    ensures k < ProcTypes
  {
    match p
    case RunningTime => 0
    case WaitingTime => 1
    case ExchangingTime => 2
    case PeriodUpdateTime => 3
  }

  lemma IndexInjective(p: ProcName, q: ProcName)
    ensures Index(p) == Index(q) <==> p == q
  {
  }

  /** A running timer: its kind and the instant it last (re)started. */
  datatype ProcTime = ProcTime(kind: ProcName, start: int)

  /** A value snapshot of a chronometer: accumulated time and start count per kind, and the running timers. */
  datatype Timers = Timers(time: seq<int>, count: seq<nat>, stack: seq<ProcTime>)

  predicate WellSized(t: Timers)
  {
    |t.time| == ProcTypes && |t.count| == ProcTypes
  }

  /** The accumulated times after the innermost running timer, if any, is credited up to `now`. */
  function Credit(time: seq<int>, stack: seq<ProcTime>, now: int): seq<int>
    requires |time| == ProcTypes
  {
    if stack == [] then time
    else
      var top := stack[|stack| - 1];
      time[Index(top.kind) := time[Index(top.kind)] + (now - top.start)]
  }

  /** The running timers with the innermost one restarted at `now`. */
  function Restart(stack: seq<ProcTime>, now: int): seq<ProcTime>
  {
    if stack == [] then [] else stack[|stack| - 1 := ProcTime(stack[|stack| - 1].kind, now)]
  }

  /** start: credit the running timer, count one more start of `kind`, and push a timer for it. */
  function AfterStart(t: Timers, kind: ProcName, now: int): Timers
    requires WellSized(t)
  {
    var k := Index(kind);
    Timers(Credit(t.time, t.stack, now), t.count[k := t.count[k] + 1], t.stack + [ProcTime(kind, now)])
  }

  /** Whether the innermost running timer is of kind `kind`, as stop and toggle demand. */
  predicate OnTop(t: Timers, kind: ProcName)
  {
    t.stack != [] && t.stack[|t.stack| - 1].kind == kind
  }

  /** stop: credit the innermost timer, pop it, and restart the one it exposes. */
  function AfterStop(t: Timers, kind: ProcName, now: int): Timers
    requires WellSized(t) && OnTop(t, kind)
  {
    Timers(Credit(t.time, t.stack, now), t.count, Restart(t.stack[..|t.stack| - 1], now))
  }

  /** toggle: stop `from` and start `to` at one instant. */
  function AfterToggle(t: Timers, from: ProcName, to: ProcName, now: int): Timers
    requires WellSized(t) && OnTop(t, from)
  {
    var k := Index(to);
    Timers(Credit(t.time, t.stack, now), t.count[k := t.count[k] + 1],
      Restart(t.stack[..|t.stack| - 1], now) + [ProcTime(to, now)])
  }

  /** stopAll: credit the innermost timer only, then drop every running timer. */
  function AfterStopAll(t: Timers, now: int): Timers
    requires WellSized(t)
  {
    Timers(Credit(t.time, t.stack, now), t.count, [])
  }

  /** clearAll: every accumulated time back to zero. */
  function AfterClearAll(t: Timers): Timers
  {
    Timers(seq(|t.time|, _ => 0), t.count, t.stack)
  }

  /** Toggling is stopping and then starting at the same instant. */
  lemma {:induction false} ToggleIsStopStart(t: Timers, from: ProcName, to: ProcName, now: int)
    requires WellSized(t) && OnTop(t, from)
    ensures AfterToggle(t, from, to, now) == AfterStart(AfterStop(t, from, now), to, now)
  {
    var s := AfterStop(t, from, now);
    if s.stack != [] {
      var top := s.stack[|s.stack| - 1];
      assert top.start == now;
      assert Credit(s.time, s.stack, now) == s.time;
    }
  }

  /** Start pushes one timer, stop pops one, toggle keeps the depth; only start and toggle count. */
  lemma Depths(t: Timers, kind: ProcName, other: ProcName, now: int)
    requires WellSized(t)
    ensures |AfterStart(t, kind, now).stack| == |t.stack| + 1
    ensures AfterStart(t, kind, now).count[Index(kind)] == t.count[Index(kind)] + 1
    ensures forall q :: q != kind ==> AfterStart(t, kind, now).count[Index(q)] == t.count[Index(q)]
    ensures OnTop(t, kind) ==> |AfterStop(t, kind, now).stack| == |t.stack| - 1 && AfterStop(t, kind, now).count == t.count
    ensures OnTop(t, kind) ==> |AfterToggle(t, kind, other, now).stack| == |t.stack|
    ensures AfterStopAll(t, now).stack == [] && AfterStopAll(t, now).count == t.count
  {
  }

  /**
   * Exclusive accounting: each operation credits `now - start` to the innermost timer's kind
   * and leaves every other kind's time alone; the timer stop exposes restarts at `now`.
   */
  lemma {:induction false} OnlyTopAccrues(t: Timers, kind: ProcName, now: int)
    requires WellSized(t) && t.stack != []
    ensures var top := t.stack[|t.stack| - 1];
      forall q :: AfterStart(t, kind, now).time[Index(q)] ==
        t.time[Index(q)] + (if q == top.kind then now - top.start else 0)
    ensures var top := t.stack[|t.stack| - 1];
      forall q :: AfterStopAll(t, now).time[Index(q)] ==
        t.time[Index(q)] + (if q == top.kind then now - top.start else 0)
    ensures var top := t.stack[|t.stack| - 1];
      forall q :: AfterStop(t, top.kind, now).time[Index(q)] ==
        t.time[Index(q)] + (if q == top.kind then now - top.start else 0)
    ensures var top := t.stack[|t.stack| - 1];
      var s := AfterStop(t, top.kind, now).stack;
      s != [] ==> s[|s| - 1] == ProcTime(t.stack[|t.stack| - 2].kind, now)
  {
    var top := t.stack[|t.stack| - 1];
    forall q {
      IndexInjective(q, top.kind);
    }
  }

  /** No running timer started after `now`. */
  predicate StartedBy(t: Timers, now: int)
  {
    forall i :: 0 <= i < |t.stack| ==> t.stack[i].start <= now
  }

  /** Whether every kind's time in `u` is at least that in `t`. */
  predicate NoLess(t: Timers, u: Timers)
    requires WellSized(t) && WellSized(u)
  {
    forall k :: 0 <= k < ProcTypes ==> t.time[k] <= u.time[k]
  }

  /** With a clock that does not run backwards, no operation but clearAll lowers an accumulated time. */
  lemma {:induction false} Monotone(t: Timers, kind: ProcName, other: ProcName, now: int, later: int)
    requires WellSized(t) && StartedBy(t, now) && now <= later
    ensures NoLess(t, AfterStart(t, kind, now)) && StartedBy(AfterStart(t, kind, now), later)
    ensures OnTop(t, kind) ==> NoLess(t, AfterStop(t, kind, now)) && StartedBy(AfterStop(t, kind, now), later)
    ensures OnTop(t, kind) ==> NoLess(t, AfterToggle(t, kind, other, now)) && StartedBy(AfterToggle(t, kind, other, now), later)
    ensures NoLess(t, AfterStopAll(t, now))
  {
    if t.stack != [] {
      assert t.stack[|t.stack| - 1].start <= now;
    }
    var st := AfterStart(t, kind, now).stack;
    assert forall i :: 0 <= i < |t.stack| ==> st[i] == t.stack[i];
    if OnTop(t, kind) {
      var rs := Restart(t.stack[..|t.stack| - 1], now);
      assert forall i :: 0 <= i < |rs| ==> rs[i].start <= now;
      var ts := AfterToggle(t, kind, other, now).stack;
      assert forall i :: 0 <= i < |rs| ==> ts[i] == rs[i];
    }
  }

  /** clearAll zeroes every time and keeps the counts and the running timers. */
  lemma ClearAllZeroes(t: Timers)
    ensures |AfterClearAll(t).time| == |t.time|
    ensures forall k :: 0 <= k < |t.time| ==> AfterClearAll(t).time[k] == 0
    ensures AfterClearAll(t).count == t.count && AfterClearAll(t).stack == t.stack
  {
  }

  class Chronometer {
    const time: array<int>
    const count: array<nat>
    var stack: seq<ProcTime>

    predicate Valid()
      reads this
    {
      time.Length == ProcTypes && count.Length == ProcTypes && time as object != count as object
    }

    function State(): (t: Timers)
      reads this, time, count
      requires Valid()
      ensures WellSized(t)
    {
      Timers(time[..], count[..], stack)
    }

    /** No time, no starts, nothing running. */
    constructor ()
      ensures Valid() && fresh(time) && fresh(count)
      ensures State() == Timers([0, 0, 0, 0], [0, 0, 0, 0], [])
    {
      time := new int[ProcTypes](_ => 0);
      count := new nat[ProcTypes](_ => 0);
      stack := [];
    }

    method Start(kind: ProcName, now: int)
      requires Valid()
      modifies this, time, count
      ensures Valid() && State() == AfterStart(old(State()), kind, now)
    {
      if |stack| > 0 {
        var pt := stack[|stack| - 1];
        time[Index(pt.kind)] := time[Index(pt.kind)] + (now - pt.start);
      }
      count[Index(kind)] := count[Index(kind)] + 1;
      stack := stack + [ProcTime(kind, now)];
    }

    method Stop(kind: ProcName, now: int)
      requires Valid() && OnTop(State(), kind)
      modifies this, time
      ensures Valid() && State() == AfterStop(old(State()), kind, now)
    {
      var pt := stack[|stack| - 1];
      time[Index(pt.kind)] := time[Index(pt.kind)] + (now - pt.start);
      stack := stack[..|stack| - 1];
      if |stack| > 0 {
        stack := stack[|stack| - 1 := ProcTime(stack[|stack| - 1].kind, now)];
      }
    }

    method Toggle(from: ProcName, to: ProcName, now: int)
      requires Valid() && OnTop(State(), from)
      modifies this, time, count
      ensures Valid() && State() == AfterToggle(old(State()), from, to, now)
    {
      var pt := stack[|stack| - 1];
      time[Index(pt.kind)] := time[Index(pt.kind)] + (now - pt.start);
      stack := stack[..|stack| - 1];
      if |stack| > 0 {
        stack := stack[|stack| - 1 := ProcTime(stack[|stack| - 1].kind, now)];
      }
      count[Index(to)] := count[Index(to)] + 1;
      stack := stack + [ProcTime(to, now)];
    }

    method StopAll(now: int)
      requires Valid()
      modifies this, time
      ensures Valid() && State() == AfterStopAll(old(State()), now)
    {
      if |stack| > 0 {
        var pt := stack[|stack| - 1];
        time[Index(pt.kind)] := time[Index(pt.kind)] + (now - pt.start);
      }
      stack := [];
    }

    method ClearAll()
      requires Valid()
      modifies time
      ensures Valid() && State() == AfterClearAll(old(State()))
    {
      var i := 0;
      while i < time.Length
        invariant 0 <= i <= time.Length
        invariant forall k :: 0 <= k < i ==> time[k] == 0
        invariant forall k :: i <= k < time.Length ==> time[k] == old(time[k])
      {
        time[i] := 0;
        i := i + 1;
      }
    }
  }
}
