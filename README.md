# DPS periodic clause exchange, in Dafny

This project models the core of DPS, a deterministic parallel SAT solver. Each worker runs a
sequential CDCL solver, and time is cut into *periods* measured in memory accesses. At the end
of each period a worker does four things:

- it exports its learnt clauses, drained from a staging buffer, into its own per-period set;
- it completes that set and publishes it in its mailbox;
- it imports, from the other workers' mailboxes, the sets that are `margin` periods old;
- it moves to the next period, whose length may adapt to the others' proposals.

Imports are in ring order. Because every worker sees exactly the same clauses at the same
logical time, runs are reproducible.

The model covers these parts:

- **The exchange protocol:**
  - the per-period clause set (`PrdClauses`);
  - the mailbox of sets with its per-reader cursors (`PrdClausesQueue`);
  - the directory of mailboxes (`PrdClausesQueueMgr`);
  - the export staging buffer (`ClauseBuffer`);
  - the winner and termination rule (`Sharer`);
  - the per-worker period loop (`AbstDetSeqSolver`).
- **Applying imported clauses** on the Kissat side (`DPS_C_API.cpp` and `dps_api.c`).
- **The smaller pieces:**
  - the DIMACS reader (`Instance.cpp`);
  - the model checker and printer (`Model.cpp`);
  - the nested timers (`Chronometer.cpp`);
  - the export filters and literal encodings of the MiniSat, Glucose and Kissat wrappers;
  - the resolvent, elimination-record and model-extension code of MapleCOMSPS's `SimpSolver.cc`.

Code that mutates objects is modelled with Dafny classes, `modifies` frames and loops with
invariants. Pure expressions are modelled as functions, with lemmas stating their properties.
Each worker's period step is stated against value-level specification functions over a snapshot
(`View`) of the shared mailboxes.

## Model

| member | source | states |
|---|---|---|
| Clauses.ResultCode | DPS-src/parallel/Sharer.h:11-15 | the result codes are 10, 20 and 0, and 0 only for UNKNOWN |
| Clauses.LongsUnitsPartition | DPS-src/solvers/AbstDetSeqSolver.cpp:151-156 | splitting imported clauses into non-units and units loses and duplicates nothing (same total count, and the multisets add up) |
| Clauses.LongsUnitsAppend | DPS-src/solvers/AbstDetSeqSolver.cpp:151-156 | the split distributes over concatenation, so clauses appended later land after earlier ones in each list |
| Clauses.TotalLiteralsAppend | DPS-src/period/PrdClauses.cpp:23 | the literal total of a concatenation is the sum of the totals |
| Dimacs.DigitRun | DPS-src/sat/Instance.cpp:40-46 | the digit loop stops at the first non-digit: all characters before it are digits |
| Dimacs.AfterLine | DPS-src/sat/Instance.cpp:26-31 | skipping a comment or problem line always consumes at least one character |
| Dimacs.MaxAbs | DPS-src/sat/Instance.cpp:53-62 | the variable count bounds every number read in absolute value and is attained by one of them |
| Dimacs.FeedNoZero | DPS-src/sat/Instance.cpp:51-52 | no stored clause and no open clause contains 0 |
| Dimacs.FeedCountsZeros | DPS-src/sat/Instance.cpp:56-57 | exactly one clause is stored per 0 read |
| Dimacs.FeedDropsTail | DPS-src/sat/Instance.cpp:60-62 | numbers after the last 0 change no stored clause; they only extend the open clause |
| Dimacs.NegatedZeroCloses | DPS-src/sat/Instance.cpp:35-50 | `-0` reads as 0 and so closes a clause |
| Dimacs.DelimiterConsumed | DPS-src/sat/Instance.cpp:41-45 | the character after a number is consumed, so `1-2 0` is the clause [1, 2] |
| Dimacs.LoadFormula | DPS-src/sat/Instance.cpp:14-66 | the reader's loop stores exactly the clauses closed on the numbers read; the clause and literal counters agree with them; the variable count is the largest absolute value read, an unterminated last clause included; no clause holds 0 |
| Dimacs.SkipLine | DPS-src/sat/Instance.cpp:26-31 | the line-skip loop ends just after the next newline, or at the end of the text |
| Dimacs.ReadDigits | DPS-src/sat/Instance.cpp:40-46 | the digit loop yields the decimal value of the run of digits and the position after it |
| Dimacs.LexNumber | DPS-src/sat/Instance.cpp:40-50 | at a digit the reader yields the run's value, negated when a '-' is pending, and skips one character more |
| SatModel.Empty | DPS-src/sat/Model.h:17 | a model of n variables has n + 1 slots, all false |
| SatModel.ValueNegation | DPS-src/sat/Model.cpp:20-25 | a literal and its negation take opposite values, and a literal is true iff its sign matches its variable's slot |
| SatModel.SatisfiesClause | DPS-src/sat/Model.cpp:13-18 | a clause is satisfied iff some literal is true; the empty clause is not satisfied |
| SatModel.SatisfiesInstance | DPS-src/sat/Model.cpp:6-11 | an instance is satisfied iff every clause is satisfied |
| SatModel.Show | DPS-src/sat/Model.cpp:50 | the decimal text written for a number is all digits and reads back as that number |
| SatModel.ShowLength | DPS-src/sat/Model.cpp:27-35 | a number below 10^k has at most k digits |
| SatModel.NumDigits | DPS-src/sat/Model.cpp:27-35 | numDigits, with C's truncating division, is the width the stream gives a non-zero number, '-' included, and 0 for 0 |
| SatModel.Vals | DPS-src/sat/Model.cpp:39-40 | the printer writes variables 1..n in order, each with the sign that makes it true in the model |
| SatModel.Print | DPS-src/sat/Model.cpp:37-54 | the printing loop writes the line-broken body of the model's literals, then " 0" and a newline |
| SatModel.PrintReadsBack | DPS-src/sat/Model.cpp:37-54 | read back as DIMACS, the printed model is exactly one clause: its true literals in variable order |
| SatModel.BodyLines | DPS-src/sat/Model.cpp:42-50 | every line written before the closing " 0" starts with 'v' and holds at most 79 characters |
| SatModel.BodyStart | DPS-src/sat/Model.cpp:42-50 | after the first number every piece opens with a blank or a line break |
| SatModel.LexBody | DPS-src/sat/Model.cpp:42-51 | reading the written body back yields the numbers written, in order |
| SatModel.WidthBound | DPS-src/sat/Model.cpp:27-35 | a 32-bit literal is at most 11 characters wide and contains no line break |
| Timing.Index | DPS-src/utils/Chronometer.h:12-18 | each of the four timer kinds has its own slot below ProcTypes |
| Timing.ToggleIsStopStart | DPS-src/utils/Chronometer.cpp:26-37 | toggle(from, to) is stop(from) followed by start(to) at the same instant |
| Timing.Depths | DPS-src/utils/Chronometer.cpp:13-45 | start pushes one timer and counts one start of its kind only; stop pops one and keeps the counts; toggle keeps the depth; stopAll empties the stack and keeps the counts |
| Timing.OnlyTopAccrues | DPS-src/utils/Chronometer.cpp:9-44 | exclusive accounting: start, stop and stopAll credit `now - start` to the innermost timer's kind only, and the timer stop exposes restarts at `now` |
| Timing.Monotone | DPS-src/utils/Chronometer.cpp:7-46 | with a clock that does not run backwards, no accumulated time decreases under start, stop, toggle or stopAll, and no running timer starts in the future |
| Timing.ClearAllZeroes | DPS-src/utils/Chronometer.cpp:48-51 | clearAll zeroes every time and keeps the counts and the running timers |
| Timing.Chronometer.constructor | DPS-src/utils/Chronometer.h:33-36 | a new chronometer has all times and counts zero and nothing running |
| Timing.Chronometer.Start | DPS-src/utils/Chronometer.cpp:7-15 | start updates the arrays and the stack exactly as AfterStart says |
| Timing.Chronometer.Stop | DPS-src/utils/Chronometer.cpp:17-24 | stop requires the innermost timer to be of the given kind and updates the state as AfterStop says |
| Timing.Chronometer.Toggle | DPS-src/utils/Chronometer.cpp:26-37 | toggle requires the innermost timer to be `from` and updates the state as AfterToggle says |
| Timing.Chronometer.StopAll | DPS-src/utils/Chronometer.cpp:39-46 | stopAll credits the innermost timer and clears the stack, as AfterStopAll says |
| Timing.Chronometer.ClearAll | DPS-src/utils/Chronometer.cpp:48-51 | the clearing loop zeroes every time slot, as AfterClearAll says |
| SolverLits.MkLit | DPS-src/solvers/MiniSatWrapper.cpp:53 | mkLit gives the positive literal of its variable |
| SolverLits.Negate | DPS-src/solvers/MiniSatWrapper.cpp:53 | `~` keeps the variable and flips the sign |
| SolverLits.IntLit | DPS-src/solvers/MiniSatWrapper.cpp:8 | INT_LIT never yields 0: the variable goes up by one, and the result is negative exactly for a negative literal |
| SolverLits.IntLitRoundTrip | DPS-src/solvers/MiniSatWrapper.cpp:51-53 | reading a non-zero number in as loadFormula does and writing it out with INT_LIT (line 8) gives it back, and the other way round |
| SolverLits.IntClause | DPS-src/solvers/MiniSatWrapper.cpp:84-86 | an exported clause keeps the length and order of the solver clause, holds no 0, and is INT_LIT of each literal |
| SolverLits.ClauseRoundTrip | DPS-src/solvers/MiniSatWrapper.cpp:84-86 | with the conversion of loadFormula (lines 50-54), converting a clause out and back in, or in and back out, changes nothing |
| SolverLits.ToIntClause | DPS-src/solvers/MiniSatWrapper.cpp:84-86 | the conversion loop fills the temporary clause with INT_LIT of every literal, in order |
| SolverLits.ResultOf | DPS-src/solvers/MiniSatWrapper.cpp:35-39 | l_True maps to SAT and l_False to UNSAT, in both directions; anything else maps to UNKNOWN |
| SolverLits.CdclSolver.NewVar | DPS-src/solvers/MiniSatWrapper.cpp:52 | newVar adds exactly one variable and keeps the clauses |
| SolverLits.CdclSolver.AddClause | DPS-src/solvers/MiniSatWrapper.cpp:55 | addClause answers false exactly when the solver refuses the clause, and keeps the clause otherwise |
| SolverLits.LoadAll | DPS-src/solvers/MiniSatWrapper.cpp:46-59 | loading answers true exactly when every clause was added in order; on false, the clauses before the refused one were added and the next one was refused |
| SolverLits.LoadFormula | DPS-src/solvers/MiniSatWrapper.cpp:46-59 | loadFormula adds the converted clauses in order up to the first refused one, returns whether all were added, and declares every variable it uses |
| SolverLits.ToLits | DPS-src/solvers/MiniSatWrapper.cpp:50-54 | the inner loop creates variables until `abs(n) - 1` exists, then converts each number to its literal |
| SolverLits.GetModel | DPS-src/solvers/MiniSatWrapper.cpp:67-76 | getModel has one slot per variable plus the unused slot 0; a variable is true exactly when the solver assigned it l_True |
| SolverLits.ModelAgrees | DPS-src/solvers/MiniSatWrapper.cpp:67-76 | through INT_LIT, the model read back gives every assigned solver literal the solver's value |
| MiniSatWrap.LengthFilter | DPS-src/solvers/MiniSatWrapper.cpp:79-80 | a limit of 0 or less lets every clause through; a positive limit lets through exactly the clauses no longer than it |
| MiniSatWrap.MiniSatWrapper.ExportClause | DPS-src/solvers/MiniSatWrapper.cpp:78-91 | a clause within the limit is converted and buffered under its length, one more clause and its literals counted; a longer one leaves the buffer unchanged |
| GlucoseWrap.GlueClauses | DPS-src/solvers/GlucoseWrapper.cpp:81-86 | a glue clause (lbd at most 2) skips the length and quantile tests; only a positive lbd limit can hold it back |
| GlucoseWrap.ZeroLimits | DPS-src/solvers/GlucoseWrapper.cpp:81-86 | with both limits at 0, only a non-glue clause above the quantile bound is held back |
| GlucoseWrap.Dec | DPS-src/solvers/GlucoseWrapper.h:24 | decExpClauseGen lowers the limit by one only from above 2 |
| GlucoseWrap.Inc | DPS-src/solvers/GlucoseWrapper.h:23 | incExpClauseGen stays within 32 bits |
| GlucoseWrap.IncDec | DPS-src/solvers/GlucoseWrapper.h:23-24 | lowering never takes a limit of at least 2 below 2, never raises it, and undoes a raise that did not wrap |
| GlucoseWrap.GlucoseWrapper.IncExpClauseGen | DPS-src/solvers/GlucoseWrapper.h:23 | the lbd limit becomes Inc of the old one |
| GlucoseWrap.GlucoseWrapper.DecExpClauseGen | DPS-src/solvers/GlucoseWrapper.h:24 | the lbd limit becomes Dec of the old one |
| GlucoseWrap.GlucoseWrapper.ExportClause | DPS-src/solvers/GlucoseWrapper.cpp:79-97 | a clause none of the three tests holds back is converted and buffered under its length, with the counters up by one clause and its literals; otherwise the buffer is unchanged |
| PeriodClauses.PrdClauses.constructor | DPS-src/period/PrdClauses.cpp:7-18 | a new set has the given owner and period, and is open and empty, with zero literals, zero prd_len and zero acknowledgements |
| PeriodClauses.PrdClauses.AddClause | DPS-src/period/PrdClauses.cpp:20-25 | only an open set accepts a clause; the clause is appended after the earlier ones, the literal count grows by its size (keeping count = total size) and the answer is true |
| PeriodClauses.PrdClauses.CompleteAddition | DPS-src/period/PrdClauses.cpp:29-37 | only an open set is completed; afterwards it is completed with the given prd_len, and its clauses and counts are untouched (outside the frame) |
| PeriodClauses.PrdClauses.IsAdditionCompleted | DPS-src/period/PrdClauses.cpp:47-52 | the query reports the completion latch |
| PeriodClauses.PrdClauses.CompleteExportation | DPS-src/period/PrdClauses.cpp:55-59 | exactly one more acknowledgement, nothing else changed (outside the frame) |
| PeriodClauses.PrdClauses.GetNumExportedThreads | DPS-src/period/PrdClauses.cpp:61-66 | the query reports the acknowledgement count |
| PeriodQueue.CountAboveStep | DPS-src/period/PrdClausesQueue.cpp:57-59 | moving one reader's cursor from p to p + 1 adds one acknowledgement for period p and none for any other period |
| PeriodQueue.CountAboveAll | DPS-src/period/PrdClausesQueue.cpp:43-49 | a set acknowledged by all readers has been passed by every cursor, so no reader can fetch it again |
| PeriodQueue.PrdClausesQueue.Last | DPS-src/period/PrdClausesQueue.h:36 | last() is the newest set: it is open, and its period is the front period plus the size less one |
| PeriodQueue.PrdClausesQueue.constructor | DPS-src/period/PrdClausesQueue.cpp:7-18 | a new mailbox holds exactly one open empty set, for period 0, and every reader cursor is 0 |
| PeriodQueue.PrdClausesQueue.CompleteAddtion | DPS-src/period/PrdClausesQueue.cpp:27-52 | a fresh open set numbered last.period + 1 is appended; the old last set is completed with the given length and keeps its clauses; then front sets are dropped exactly while more than one remains and the front is acknowledged by all readers; the gap-free chain and the acknowledgement invariant hold throughout |
| PeriodQueue.PrdClausesQueue.AppendNext | DPS-src/period/PrdClausesQueue.cpp:34-40 | the next period's open set is appended before the old last set is completed |
| PeriodQueue.PrdClausesQueue.EvictAcknowledged | DPS-src/period/PrdClausesQueue.cpp:43-49 | the eviction loop drops a prefix of fully acknowledged sets and stops at the first set that is not, never dropping the last set |
| PeriodQueue.PrdClausesQueue.CompleteExportation | DPS-src/period/PrdClausesQueue.cpp:55-60 | it requires the reader's cursor to be at the set's period; the cursor goes up by one and the set gains one acknowledgement, so no reader is handed a period twice |
| PeriodQueue.PrdClausesQueue.Get | DPS-src/period/PrdClausesQueue.cpp:64-82 | null exactly when the period is behind the reader's cursor; otherwise the set at the cursor, which may be older than the period asked for, and which lies inside the queue |
| PeriodQueue.PrdClausesQueue.GetOwn | DPS-src/period/PrdClausesQueue.cpp:85-93 | get(period) returns the retained set of exactly that period |
| PeriodQueue.SuffixKeepsShape | DPS-src/period/PrdClausesQueue.cpp:43-49 | dropping sets from the front keeps the chain gap-free and the acknowledgement counts matching the cursors |
| PeriodQueueMgr.PrdClausesQueueMgr.constructor | DPS-src/period/PrdClausesQueueMgr.cpp:8-10 | a new table holds one initial mailbox per worker |
| PeriodQueueMgr.PrdClausesQueueMgr.SetNumThreads | DPS-src/period/PrdClausesQueueMgr.cpp:12-19 | it requires an empty table and creates exactly `num_threads` initial mailboxes, mailbox i owned by worker i and built for the full thread count |
| PeriodQueueMgr.PrdClausesQueueMgr.AddQueue | DPS-src/period/PrdClausesQueueMgr.cpp:14-18 | one round of the creation loop adds the next worker's mailbox |
| PeriodQueueMgr.PrdClausesQueueMgr.CompleteAddtionOf | DPS-src/period/PrdClausesQueue.cpp:27-52 | completing the last set of mailbox i closes it with the length and keeps its clauses, appends a fresh empty set of the next period, and drops from the front exactly sets every reader has acknowledged, stopping at a set that is not (when more than one remains); no other mailbox and no cursor changes |
| PeriodQueueMgr.PrdClausesQueueMgr.CompleteExportationOf | DPS-src/period/PrdClausesQueue.cpp:55-60 | an acknowledgement in mailbox i moves only that mailbox's cursor for that reader |
| PeriodQueueMgr.PrdClausesQueueMgr.Get | DPS-src/period/PrdClausesQueueMgr.cpp:27-31 | get(i) requires i below the size and is a read-only lookup of a valid mailbox owned by worker i and built for all workers |
| Buffer.HeadBelow | DPS-src/period/ClauseBuffer.cpp:18-19 | in the ordered key set the smallest key comes first and occurs once |
| Buffer.InsertSorted | DPS-src/period/ClauseBuffer.cpp:7-8 | inserting a new key keeps the key set strictly ordered, adds exactly that key and loses none |
| Buffer.FlattenPushExisting | DPS-src/period/ClauseBuffer.cpp:9 | appending to the queue of an existing key adds exactly that clause to the buffered contents |
| Buffer.FlattenPushNew | DPS-src/period/ClauseBuffer.cpp:7-9 | a new key with the one-clause queue adds exactly that clause to the buffered contents |
| Buffer.DrainCountBudget | DPS-src/period/ClauseBuffer.cpp:29-33 | with a positive budget, the drained prefix without its last clause fits the budget, and a drain that stops early has gone over it |
| Buffer.DrainCountUnique | DPS-src/period/ClauseBuffer.cpp:29-33 | any cut with those two budget properties is the drain count, so the count is determined by the budget alone |
| Buffer.DrainOvershoot | DPS-src/period/ClauseBuffer.cpp:23-33 | the drain overshoots the budget by at most the size of its last clause |
| Buffer.TakeFromQueue | DPS-src/period/ClauseBuffer.cpp:21-34 | the inner loop pops clauses from the front of one queue to the end of the destination; it stops when the queue is empty or right after the clause that takes the exported total above a positive budget |
| Buffer.ClauseBuffer.constructor | DPS-src/period/ClauseBuffer.h:22 | a new buffer is empty |
| Buffer.ClauseBuffer.AddClause | DPS-src/period/ClauseBuffer.cpp:5-12 | the key joins the key set; the clause goes to the back of its key's queue; the counters grow by one clause and its literals; the counters keep matching the buffered clauses |
| Buffer.ClauseBuffer.GetNumClauses | DPS-src/period/ClauseBuffer.h:26 | the clause counter is the number of buffered clauses |
| Buffer.ClauseBuffer.GetNumLiterals | DPS-src/period/ClauseBuffer.h:27 | the literal counter is the total size of the buffered clauses |
| Buffer.ClauseBuffer.DrainFrontKey | DPS-src/period/ClauseBuffer.cpp:20-34 | draining the smallest key moves a prefix of the contents to the destination, stopping early only over budget |
| Buffer.ClauseBuffer.EraseFront | DPS-src/period/ClauseBuffer.cpp:37-40 | erasing an emptied smallest key removes it from the keys and the map and keeps the contents |
| Buffer.ClauseBuffer.ExportFrontKey | DPS-src/period/ClauseBuffer.cpp:19-43 | one outer round: the smallest key is drained and then erased, unless the budget ran out while draining it |
| Buffer.ClauseBuffer.ExportTo | DPS-src/period/ClauseBuffer.cpp:14-46 | exportTo returns the drain count; it appends exactly that prefix of the contents, in key order and FIFO within a key, after the destination's clauses; the rest stays buffered, so nothing is lost or duplicated; with no limit everything is drained and the keys and map end up empty; when the budget is exceeded the keys that remain are those from the key of the last exported clause on, and when it never is no key remains |
| Buffer.ClauseBuffer.DrainKeys | DPS-src/period/ClauseBuffer.cpp:18-43 | the outer loop ends either over budget or with no keys and nothing buffered |
| Buffer.ExportDone | DPS-src/period/ClauseBuffer.cpp:18-45 | what the drain loop leaves pins the number exported to the drain count, the destination to its old clauses plus that prefix, and the buffer to the rest |
| Winners.NoWinner | DPS-src/parallel/Sharer.cpp:17-20 | the initial record: nothing found, UNKNOWN, period 0, winner id -1 |
| Winners.Apply | DPS-src/parallel/Sharer.cpp:68-80 | the record is always marked found after a report; an accepted report (the first one, or a conclusive one with a lexicographically smaller (period, thread) signature) is copied in, any other leaves the record unchanged; a replacement only lowers the signature |
| Winners.WinnerIsMinimum | DPS-src/parallel/Sharer.cpp:62-84 | with conclusive reports only, the final winner is one of the reports and no report has a smaller (period, thread) signature, whatever the order the reports arrive in |
| Winners.ApplyAllNoLarger | DPS-src/parallel/Sharer.cpp:71-80 | once a winner is recorded, further reports never raise its signature |
| Winners.ApplyAllKeepsOrNames | DPS-src/parallel/Sharer.cpp:71-80 | the final record is the initial one or names one of the reports |
| Winners.TieBreakExample | DPS-src/parallel/Sharer.cpp:71-74 | reports (5,2), (3,4), (3,1) leave thread 1 at period 3 as the winner: the period decides first, the thread id breaks ties |
| Winners.TerminationExample | DPS-src/parallel/Sharer.cpp:57 | with a conclusive winner at period 100 and margin 20, period 120 continues and period 121 stops |
| Winners.TerminatesMonotone | DPS-src/parallel/Sharer.cpp:57 | once a worker should stop at some period it should stop at every later one |
| Winners.Sharer.constructor | DPS-src/parallel/Sharer.cpp:11-26 | the constructor stores the thread count, margin and memory limit, starts with no live worker, not launched, no winner, and a fresh mailbox table with one empty mailbox per worker |
| Winners.Sharer.Get | DPS-src/parallel/Sharer.cpp:86-89 | get returns worker `threadId`'s own mailbox, well formed and owned by that worker |
| Winners.Sharer.CompleteCurrPeriod | DPS-src/parallel/Sharer.cpp:48-50 | closing a period completes the worker's open set with the given length, appends a fresh empty open set for the next period, drops from the front only sets every reader has acknowledged and stops at the first that is not (when more than one remains), and touches no other mailbox |
| Winners.Sharer.IncNumLiveThreads | DPS-src/parallel/Sharer.cpp:30-35 | one more live worker, and the sharer counts as launched |
| Winners.Sharer.DecNumLiveThreads | DPS-src/parallel/Sharer.cpp:37-40 | one fewer live worker; at least one must be live |
| Winners.Sharer.GetNumLiveSolvers | DPS-src/parallel/Sharer.cpp:42-46 | -1 exactly when no worker was ever launched, the live count otherwise |
| Winners.Sharer.HasNoLiveThreads | DPS-src/parallel/Sharer.h:33 | true exactly when the live count reported by getNumLiveSolvers is at most 0 |
| Winners.Sharer.ShouldBeTerminated | DPS-src/parallel/Sharer.cpp:52-60 | false while no result is recorded; true at once for an UNKNOWN result; for a conclusive one, true exactly when the caller's period is past the winner's period plus the margin |
| Winners.Sharer.IFinished | DPS-src/parallel/Sharer.cpp:62-84 | the record becomes `Apply` of the old record and the report, and the method returns whether the report was accepted |
| DetSeqSolver.RingTarget | DPS-src/solvers/AbstDetSeqSolver.cpp:135 | the producer visited in round i is `(thn + i) % n`, always a worker index |
| DetSeqSolver.RingSkipsSelf | DPS-src/solvers/AbstDetSeqSolver.cpp:134-135 | rounds 1 .. n-1 never visit the importing worker itself |
| DetSeqSolver.RingVisitsOthersOnce | DPS-src/solvers/AbstDetSeqSolver.cpp:134-135 | every other worker is visited in exactly one of the rounds 1 .. n-1 |
| DetSeqSolver.RingUnfold | DPS-src/solvers/AbstDetSeqSolver.cpp:135 | below n rounds the modulus wraps at most once |
| DetSeqSolver.RingIndex | DPS-src/solvers/AbstDetSeqSolver.cpp:134-135 | the round in which a worker is visited; round 0 exactly for the importer itself |
| DetSeqSolver.RingIndexOfTarget | DPS-src/solvers/AbstDetSeqSolver.cpp:134-135 | the round index of the worker visited in round i is i |
| DetSeqSolver.Reach | DPS-src/solvers/AbstDetSeqSolver.cpp:138 | where one import leaves a consumer cursor: unmoved when already past the import period, otherwise one past it, but never into the open set |
| DetSeqSolver.SplitInto | DPS-src/solvers/AbstDetSeqSolver.cpp:151-156 | a fetched set's clauses longer than one literal are appended to the non-unit list and the rest to the unit list, each in stored order |
| DetSeqSolver.AbsorbTwice | DPS-src/solvers/AbstDetSeqSolver.cpp:151-158 | taking in two batches in turn is taking in their concatenation and the sum of their candidates |
| DetSeqSolver.TakenAll | DPS-src/solvers/AbstDetSeqSolver.cpp:138-160 | taking the sets in one at a time, as the fetch loop does, equals taking in their concatenation and the sum of their candidates |
| DetSeqSolver.TakenPrefix | DPS-src/solvers/AbstDetSeqSolver.cpp:138-160 | taking in a range of sets does not look at sets after it |
| DetSeqSolver.ImportFrom | DPS-src/solvers/AbstDetSeqSolver.cpp:136-160 | the fetch loop on one mailbox takes in exactly what the consumer fetches from its cursor up to the import period, moves only that consumer's cursor (to `Reach`), and keeps the mailbox well formed; the deterministic wait is the precondition that the period is closed |
| DetSeqSolver.FetchLoop | DPS-src/solvers/AbstDetSeqSolver.cpp:138-160 | the same loop over the sets' clause lists and candidates: the result is the sets from the cursor to `Reach` taken in one at a time |
| DetSeqSolver.FetchStep | DPS-src/solvers/AbstDetSeqSolver.cpp:139-159 | one round of the fetch loop: split and acknowledge the set at the cursor, and fetch the next one; the loop state advances by one set |
| DetSeqSolver.FetchFrom | DPS-src/solvers/AbstDetSeqSolver.cpp:136-160 | the fetch loop on the mailbox of one target in the table: what the consumer fetches is taken in, only its cursor there moves, and no set and no other mailbox changes |
| DetSeqSolver.SnapshotOf | DPS-src/solvers/AbstDetSeqSolver.cpp:136-138 | in a well-formed table every cursor of any worker lies within the sets of its mailbox |
| DetSeqSolver.RoundBatches | DPS-src/solvers/AbstDetSeqSolver.cpp:134-160 | one batch per round 1 .. n-1 of the ring |
| DetSeqSolver.PickedRounds | DPS-src/solvers/AbstDetSeqSolver.cpp:134-160 | round j + 1 takes what the importer fetches from the mailbox j + 1 steps after it, from its cursor at the start of the import |
| DetSeqSolver.RoundsOthers | DPS-src/solvers/AbstDetSeqSolver.cpp:134-160 | what an import takes, and the candidates it reads, depend only on the other workers' mailboxes, never on the importer's own |
| DetSeqSolver.RingLogStep | DPS-src/solvers/AbstDetSeqSolver.cpp:134-161 | round i adds to the log exactly what is fetched from the mailbox i steps after the importer |
| DetSeqSolver.RingCursorStep | DPS-src/solvers/AbstDetSeqSolver.cpp:134-161 | round i moves only the importer's cursor in the mailbox i steps after it |
| DetSeqSolver.RingStart | DPS-src/solvers/AbstDetSeqSolver.cpp:133-134 | before the first round nothing has been taken and no cursor moved |
| DetSeqSolver.RingEnd | DPS-src/solvers/AbstDetSeqSolver.cpp:134-161 | after the last round every other mailbox was visited once, in ring order; each of its importer cursors is where the fetch loop leaves it; the own mailbox is untouched |
| DetSeqSolver.RingRound | DPS-src/solvers/AbstDetSeqSolver.cpp:135-160 | one round of the ring loop keeps the loop state, one mailbox further |
| DetSeqSolver.RingLoop | DPS-src/solvers/AbstDetSeqSolver.cpp:134-161 | the ring loop over a snapshot of the table: the batches and candidates are those of the rounds in ring order, the result is them taken in, and every other mailbox's cursor of the importer ends at `Reach` |
| DetSeqSolver.ImportRing | DPS-src/solvers/AbstDetSeqSolver.cpp:133-161 | the ring part of importClauses on the live table: what is taken in is exactly what the importer would have fetched, round by round, from the table as it was when the import began; every other mailbox keeps its sets, the importer's cursor in it ends at `Reach` (every set it fetched is acknowledged, line 159) and no other cursor moves (`Acked`); the own mailbox is untouched |
| DetSeqSolver.AckedRowAdvanced | DPS-src/solvers/AbstDetSeqSolver.cpp:136-159 | a cursor row is `AckedRow` exactly when only the importer's entry moved and it moved to `Reach` (both directions) |
| DetSeqSolver.AckedRowResumes | DPS-src/solvers/AbstDetSeqSolver.cpp:136-159 | after an import up to `period` the importer's cursor lies between where it was and the open set; it is unchanged when it was already past `period`, and otherwise stands at `period + 1` or at the open set, so the next import fetches no set twice |
| DetSeqSolver.RingAcked | DPS-src/solvers/AbstDetSeqSolver.cpp:134-161 | the cursor rows the ring loop leaves (each importer entry `Advanced` to `Reach`) are the rows `Acked` describes |
| DetSeqSolver.AckedNone | DPS-src/solvers/AbstDetSeqSolver.cpp:131 | before period `margin` no import happens, and the table as it is is `Acked` with no import |
| DetSeqSolver.AckedAgree | DPS-src/solvers/AbstDetSeqSolver.cpp:133-161 | `Acked` depends only on the other mailboxes of the view, so two views that agree on them give the same statement |
| DetSeqSolver.Int32Diff | DPS-src/solvers/AbstDetSeqSolver.cpp:87-88 | `int32_t diff = curr - prev` on 32-bit counts: a 32-bit two's-complement value congruent to the difference modulo 2^32 |
| DetSeqSolver.Int32DiffExact | DPS-src/solvers/AbstDetSeqSolver.cpp:87-88 | while both counts stay below 2^31 the wrapped difference is the exact one |
| DetSeqSolver.Steer | DPS-src/solvers/AbstDetSeqSolver.cpp:91-94 | below the target and not growing asks for more clauses, above it and growing asks for fewer, otherwise nothing; exactly at the target nothing changes |
| DetSeqSolver.NextLimit | DPS-src/solvers/AbstDetSeqSolver.cpp:173-177 | the next period length is the average candidate, raised to a set lower bound and lowered to a set upper bound, the upper bound winning |
| DetSeqSolver.NextLimitMonotone | DPS-src/solvers/AbstDetSeqSolver.cpp:173-177 | a larger candidate sum never gives a shorter next period |
| DetSeqSolver.FappCooldown | DPS-src/solvers/AbstDetSeqSolver.cpp:185-196 | right after a forced application, none is due again until `fapp_periods` periods have passed, whatever is pending; this only names a consequence of the cooldown conjunct of `FappDue` and is proved with an empty body |
| DetSeqSolver.AbstDetSeqSolver.constructor | DPS-src/solvers/AbstDetSeqSolver.cpp:11-44 | the worker's mailbox is its own in the shared table; every counter starts at 0, both period-length limits and the moving average at the configured limit, and the export buffer is empty |
| DetSeqSolver.AbstDetSeqSolver.CanMoveToNextPeriod | DPS-src/solvers/AbstDetSeqSolver.h:59 | true exactly when the accesses of this period have reached the budget |
| DetSeqSolver.AbstDetSeqSolver.MoveToNextPeriod | DPS-src/solvers/AbstDetSeqSolver.cpp:123-128 | the budget is charged against the access count, the period counter advances and the next limit becomes the budget |
| DetSeqSolver.AbstDetSeqSolver.ShouldApplyImportedClauses | DPS-src/solvers/AbstDetSeqSolver.cpp:183-198 | the answer is the forced-application rule on the pending counts; a yes records the current period as the last forced application, a no changes nothing |
| DetSeqSolver.AbstDetSeqSolver.ShouldBeTerminated | DPS-src/solvers/AbstDetSeqSolver.cpp:200-204 | the shared termination rule at the current period, or a resource limit exceeded |
| DetSeqSolver.AbstDetSeqSolver.GetNewPeriodLength | DPS-src/solvers/AbstDetSeqSolver.cpp:102-121 | without the adaptive mode the current budget and nothing changes; otherwise the budget is added to the running sum and, once enough conflicts have passed, the average is replaced and the sums restart; the result is the average |
| DetSeqSolver.AbstDetSeqSolver.ExportSelectedClauses | DPS-src/solvers/AbstDetSeqSolver.cpp:74-100 | the buffer drains its drain-count prefix into the own open set and keeps the rest; with a literal budget and new conflicts the 32-bit literal count and its wrapped change steer the threshold, otherwise nothing is steered |
| DetSeqSolver.AbstDetSeqSolver.ExportToOwnSet | DPS-src/solvers/AbstDetSeqSolver.cpp:75-78 | the drain-count prefix of the buffer is appended to the own open set, the buffer keeps the rest, and the exported count grows by that number |
| DetSeqSolver.AbstDetSeqSolver.CheckPeriod | DPS-src/solvers/AbstDetSeqSolver.cpp:46-72 | before the budget is used nothing changes (the worker, the export buffer and the mailbox table are all unchanged) and the answer is to continue; otherwise: the buffer drains its drain-count prefix into the own set and keeps the rest, the export counter grows by that count, the literal-count steering is as `ExportSelectedClauses` states and the last export's conflict count becomes `conflicts` when the limit is set; the adaptive averages (`sumMemAccs`, `emaMemAccs`, `emaPrevConfs`) change as `GetNewPeriodLength` states; the own set of the ending period is closed with the candidate length and holds its earlier clauses followed by the drained ones, and a fresh empty set of the next period is the own mailbox's last; from period `margin` on, the pending non-unit and unit lists gain exactly the clauses of the rounds, in ring order, read from the table `before` as it stood when the period began; every other mailbox keeps the sets of `before`, the worker's cursor in it has moved to `Reach` and no other cursor has moved (`Acked`); the budget and the next limit both become the old next limit, or the budget, or in the adaptive mode the clamped average of the candidates of the rounds plus the own set's of that period; the period counter advances, the access count is charged the budget, the forced-application period and the import and application counters are outside its frame and so kept, and the answer is to continue exactly when the worker should not terminate |
| DetSeqSolver.AbstDetSeqSolver.Boundary | DPS-src/solvers/AbstDetSeqSolver.cpp:51-69 | the boundary step once the budget is spent: the same export, steering state, adaptive averages, closing, fresh empty open set, import, budget and next limit, kept counters and answer as `CheckPeriod` states for that case, and every other mailbox keeps the sets of the table as it stood at the call with the worker's cursors moved to `Reach` and no other cursor moved (`Acked`) |
| DetSeqSolver.AbstDetSeqSolver.EndPeriod | DPS-src/solvers/AbstDetSeqSolver.cpp:51-58 | the export, the candidate length and the closing of the own set with it: the drained prefix follows the set's earlier clauses, the buffer keeps the rest, the counter grows by the drain count, the steering state and the last export's conflict count are as `ExportSelectedClauses` states and the adaptive averages as `GetNewPeriodLength` states; a fresh empty set is the own mailbox's last; no other mailbox's sets, cursors, clause lists or candidates change, nor the period, budget, next limit or pending lists |
| DetSeqSolver.AbstDetSeqSolver.NoneFullyAcked | DPS-src/solvers/AbstDetSeqSolver.cpp:164-171 | outside the adaptive mode the owner never acknowledges its own sets, so no set of its own mailbox is acknowledged by every worker (and `completeAddtion` at DPS-src/period/PrdClausesQueue.cpp:42-48 evicts nothing) |
| DetSeqSolver.AbstDetSeqSolver.CloseOwnPeriod | DPS-src/solvers/AbstDetSeqSolver.cpp:58 | the own set of the current period is closed with the candidate length and keeps its clauses; the own mailbox is open at the next period with a fresh empty set; the sets dropped from its front were acknowledged by every reader and the one left in front is not (when more than one remains); outside the adaptive mode none is dropped |
| DetSeqSolver.AbstDetSeqSolver.ImportAndMove | DPS-src/solvers/AbstDetSeqSolver.cpp:61-64 | the import, as `ImportClauses` states it on the table as it stood when the period ended, followed by the move to the next period: the counter advances, the access count is charged the budget and the budget and next limit both become the new budget; every other mailbox keeps its sets and only the worker's cursors in them move, to `Reach` (`Acked`); the export buffer and counters, the steering and adaptive fields, the own mailbox's sets, the closed set and the new open set stay as the export left them |
| DetSeqSolver.AbstDetSeqSolver.ImportFromView | DPS-src/solvers/AbstDetSeqSolver.cpp:130-181 | the import as `ImportClauses` states it, with the rounds read from a snapshot `before` of the table that agrees with the live one on every other mailbox; afterwards every other mailbox still holds the sets of `before` and only the worker's cursors have moved, to `Reach` (`Acked`); its frame leaves the export buffer, counters and closed set out, so they are kept |
| DetSeqSolver.AbstDetSeqSolver.ImportClauses | DPS-src/solvers/AbstDetSeqSolver.cpp:130-181 | before period `margin` nothing is imported and the pending lists, the next limit and every other mailbox's sets and cursors are unchanged; otherwise the pending non-unit and unit lists gain exactly the clauses of every round, in ring order, read from the table as it stood at the call, every set fetched is acknowledged (the worker's cursor in each other mailbox ends at `Reach`, line 159) and no other cursor or set of another mailbox changes (`Acked`), and the next limit is the budget or, in the adaptive mode, the clamped average of all candidates of that period including the own set's |
| DetSeqSolver.AbstDetSeqSolver.ImportAt | DPS-src/solvers/AbstDetSeqSolver.cpp:133-180 | the import at period `periods - margin`, as ImportClauses states it once the worker has reached period `margin`, including that every other mailbox keeps its sets and only the worker's cursors move, to `Reach` (`Acked`) |
| DetSeqSolver.AbstDetSeqSolver.ImportOthers | DPS-src/solvers/AbstDetSeqSolver.cpp:133-161 | the ring part: the pending lists gain the non-unit and unit clauses of every round and `sum` is the sum of their candidates; every other mailbox keeps its sets and the worker's cursor in it ends at `Reach` with no other cursor moved (`Acked`); the own mailbox's sets are unchanged |
| DetSeqSolver.AbstDetSeqSolver.AdaptLimit | DPS-src/solvers/AbstDetSeqSolver.cpp:163-178 | the next limit is the budget, or in the adaptive mode the clamped average of the others' sum plus the own set's candidate; the other mailboxes stay as the ring left them (`Acked`) |
| DetSeqSolver.AbstDetSeqSolver.AckOwn | DPS-src/solvers/AbstDetSeqSolver.cpp:165-171 | the worker acknowledges its own set of the import period and returns its candidate; no other mailbox's cursors move, so the other mailboxes stay as the ring left them (`Acked`) |
| KissatDps.Fixed | kissat/kissat-sc2021/src/dps_api.c:41-45 | the root value of a literal is 1, -1 or 0, and 0 exactly when its variable is unassigned |
| KissatDps.FixedNegation | kissat/kissat-sc2021/src/dps_api.c:41-45 | a literal and its negation have opposite root values |
| KissatDps.Learn | kissat/kissat-sc2021/src/dps_api.c:46-47 | learning an unassigned literal makes it true, appends it to the learned units and keeps every earlier root value and every redundant clause |
| KissatDps.Kept | kissat/kissat-sc2021/src/dps_api.c:58-73 | the literals pushed on the temporary stack are at most the clause's and all unassigned |
| KissatDps.KeptSnoc | kissat/kissat-sc2021/src/dps_api.c:66-72 | one more literal is pushed exactly when it is unassigned |
| KissatDps.KeptAppend | kissat/kissat-sc2021/src/dps_api.c:58-73 | the filter keeps the clause's order: it distributes over concatenation |
| KissatDps.KeptMembers | kissat/kissat-sc2021/src/dps_api.c:58-73 | a literal survives exactly when it is in the clause and unassigned |
| KissatDps.UnitIsSingletonClause | kissat/kissat-sc2021/src/dps_api.c:32-92 | importing a unit gives the same result and state as importing the one-literal clause |
| KissatDps.ImportClauseOutcomes | kissat/kissat-sc2021/src/dps_api.c:51-92 | +1 exactly when a literal has no internal counterpart, is eliminated or is true, and then nothing changes; -1 with nothing changed when already inconsistent or every literal is false; otherwise the unassigned literals become a learned unit (one) or a new redundant clause (several, result 0) |
| KissatDps.ImportsGrow | kissat/kissat-sc2021/src/dps_api.c:32-92 | neither import unassigns a root value or drops a learned unit or redundant clause, and each adds at most one of each |
| KissatDps.Kissat.SetWrapper | kissat/kissat-sc2021/src/dps_api.c:15-18 | the solver records its worker and thread number |
| KissatDps.Kissat.DecisionLevel | kissat/kissat-sc2021/src/dps_api.c:24-26 | the current decision level |
| KissatDps.Kissat.ForcedRestart | kissat/kissat-sc2021/src/dps_api.c:28-30 | the solver backtracks to decision level 0 |
| KissatDps.Kissat.LearnUnit | kissat/kissat-sc2021/src/dps_api.c:46-47 | the root state becomes `Learn` of the old one |
| KissatDps.Kissat.AddImportedUnitClause | kissat/kissat-sc2021/src/dps_api.c:32-49 | the result code and the new root state are those of `ImportUnit` |
| KissatDps.Kissat.AddImportedClause | kissat/kissat-sc2021/src/dps_api.c:51-92 | the result code and the new root state are those of `ImportClause`, and the temporary stack is empty on every exit |
| KissatDps.Kissat.DpsCheckPeriod | kissat/kissat-sc2021/src/dps_api.c:102-114 | with the latch set the answer is stop and nothing changes: not the solver's count, not the worker, its buffer or the mailbox table; with no worker the answer is go on; otherwise `Charged`: the solver's counted accesses move to the worker's counter and the count restarts at 0; below the budget the answer is go on and the worker, buffer and table change in nothing but that counter; at the budget every promise of `CheckPeriod` for that case holds (`Stepped`: the export, the closed and new open sets, the appended pending lists, the new budget, the steering and adaptive fields, the kept counters and the others' mailboxes `Acked`), stated over the state at the call, the spent budget comes off the charged count, and the latch is set exactly on a stop |
| KissatDps.Kissat.Handover | kissat/kissat-sc2021/src/dps_api.c:110-113 | with the accesses already charged: below the budget the answer is go on and the worker, its buffer and the mailbox table are unchanged; at the budget every promise of `CheckPeriod` for that case holds over the state at the call (`Stepped`), the spent budget comes off the count, and the latch is set exactly when the answer is stop |
| KissatDps.Kissat.ChargeAndCheck | kissat/kissat-sc2021/src/dps_api.c:108-113 | the part of `DpsCheckPeriod` with a worker attached and the latch clear: `Charged`, the same charge, full period-check results and latch as that row states |
| KissatDps.Kissat.Charge | kissat/kissat-sc2021/src/dps_api.c:108-109 | the worker's access count grows by the solver's count, which restarts at 0; the worker stays valid and the state its period check starts from (its other fields, staged clauses, open set, candidate and view of the table) is unchanged |
| DetSeqSolver.AbstDetSeqSolver.AddMemAccesses | kissat/kissat-sc2021/src/dps_api.c:108 | the accesses counted by the solver are added to the worker's count; the worker stays valid and the state its period check starts from is otherwise unchanged |
| DpsCApi.CheckPeriod | DPS-src/solvers/DPS_C_API.cpp:7-10 | DPS_checkPeriod answers 1 or 0; before the budget is used it answers 1 and the worker, its buffer and the mailbox table are unchanged; otherwise every promise of `CheckPeriod` for that case holds over the state at the call (`Stepped`: export, closed and fresh empty open set, appended pending lists, budget, steering and adaptive fields, kept counters, the others' mailboxes `Acked`), the spent budget comes off the access count, and the answer is 1 exactly when it should not terminate |
| DpsCApi.ShouldBeTerminated | DPS-src/solvers/DPS_C_API.cpp:12-15 | DPS_shouldBeTerminated answers 1 exactly when the shared rule or a resource limit says stop, 0 otherwise |
| DpsCApi.ShouldApplyImportedClauses | DPS-src/solvers/DPS_C_API.cpp:17-20 | DPS_shouldApplyImportedClauses answers 1 exactly when a forced application is due, and then records the current period |
| DpsKissatApply.ApplyListAnswers | DPS-src/solvers/DPS_C_API.cpp:51-70 | a list fails exactly when some application made answered -1, and the imported count is the number of answers other than +1 |
| DpsKissatApply.AnswersStopAtFailure | DPS-src/solvers/DPS_C_API.cpp:51-70 | applications stop at the first -1: only the last answer may be -1, and a list ends early only on a -1 |
| DpsKissatApply.ApplyListAppend | DPS-src/solvers/DPS_C_API.cpp:51-70 | applying a concatenation is applying the first part and, unless it failed, the second part from where the first left the solver |
| DpsKissatApply.InconsistentFailsAtOnce | DPS-src/solvers/DPS_C_API.cpp:51-70 | an inconsistent solver fails the first application, counts it, and changes nothing |
| DpsKissatApply.ApplyLoop | DPS-src/solvers/DPS_C_API.cpp:51-70 | one list is applied in order through the matching importer; the answer, the solver state and the worker's imported count are those of `ApplyList`, and the temporary stack stays empty |
| DpsKissatApply.ApplyImportedClauses | DPS-src/solvers/DPS_C_API.cpp:34-75 | a solver mid-search restarts at the root and counts one forced application; both pending lists are moved out and end empty; the units and then the longer clauses are applied, and the answer is false exactly when an application failed |
| KissatWrap.CRem | DPS-src/solvers/KissatWrapper.cpp:43 | C's remainder is smaller in magnitude than the divisor and is the mathematical one for non-negative operands |
| KissatWrap.CDiv | DPS-src/solvers/KissatWrapper.cpp:73-74 | C's division is the mathematical one for non-negative operands |
| KissatWrap.GcdIsGreatest | DPS-src/solvers/KissatWrapper.cpp:42-47 | for a >= 0 and b > 0, gcd returns a positive common divisor that every common divisor divides |
| KissatWrap.GcdStep | DPS-src/solvers/KissatWrapper.cpp:42-47 | on non-negative operands gcd is Euclid's algorithm with the mathematical remainder |
| KissatWrap.GcdOfZero | DPS-src/solvers/KissatWrapper.cpp:69-72 | gcd(0, 100) is 100, so a share of 0 reduces to 0/1 |
| KissatWrap.ElimFraction | DPS-src/solvers/KissatWrapper.cpp:69-74 | a share of 0 .. 99 reduced by gcd keeps its ratio to 100, with 0 <= num < dem |
| KissatWrap.ReducedBy | DPS-src/solvers/KissatWrapper.cpp:72-74 | dividing a share below n and n by their gcd keeps the ratio and the order |
| KissatWrap.FractionTest | DPS-src/solvers/KissatWrapper.cpp:75 | a worker eliminates exactly when its id modulo the reduced denominator is below the reduced numerator |
| KissatWrap.CountFromZero | DPS-src/solvers/KissatWrapper.cpp:75 | among the first k <= dem ids, min(k, num) leave a remainder below num |
| KissatWrap.WindowCount | DPS-src/solvers/KissatWrapper.cpp:75 | any dem consecutive ids hold exactly num whose remainder modulo dem is below num |
| KissatWrap.CountElimBelow | DPS-src/solvers/KissatWrapper.cpp:75 | counting the eliminating workers is counting the ids whose remainder is below the reduced numerator |
| KissatWrap.ElimShare | DPS-src/solvers/KissatWrapper.cpp:69-77 | exactly num of any dem consecutive workers eliminate, num/dem being the share in lowest terms, so the eliminating proportion is the share |
| KissatWrap.HalfElim | DPS-src/solvers/KissatWrapper.cpp:69-77 | a share of 50 makes exactly the even workers eliminate |
| KissatWrap.StableFor | DPS-src/solvers/KissatWrapper.cpp:63-67 | a stable setting below 4 is used as is; the mix mode 4 gives worker id the value (id + 1) % 3 |
| KissatWrap.PaKisRow | DPS-src/solvers/KissatWrapper.cpp:80 | worker id takes row id % 24, always a row of the 24-row table |
| KissatWrap.Configure | DPS-src/solvers/KissatWrapper.cpp:49-88 | the options set are quiet, stable, the seed for every worker but the first, eliminate unless the share is 100, and the five other PaKis settings when PaKis is on; each holds the value the constructor last set, PaKis's stable overriding the stable option; random picking is on exactly for workers other than the first |
| KissatWrap.ResultOf | DPS-src/solvers/KissatWrapper.cpp:120-124 | Kissat's 10 maps to SAT and 20 to UNSAT, in both directions; anything else to UNKNOWN |
| KissatWrap.ExportTest | DPS-src/solvers/KissatWrapper.cpp:94-98 | a clause is exported exactly when both the lbd limit and the quantile bound reach 1 and neither is below its lbd |
| KissatWrap.KissatWrapper.UncheckedExportClause | DPS-src/solvers/KissatWrapper.cpp:100-109 | the clause's literals are copied and buffered under its length, with one more clause, its literals counted, and nothing else in the buffer changed |
| KissatWrap.DpsShouldBeExported | DPS-src/solvers/DPS_C_API.cpp:24-27 | the forwarded export test answers as the worker's test does |
| KissatWrap.DpsUncheckedExportClause | DPS-src/solvers/DPS_C_API.cpp:29-32 | the forwarded export buffers the clause as the worker's export does |
| KissatWrap.GetModel | DPS-src/solvers/KissatWrapper.cpp:149-157 | the model has one slot per variable plus slot 0; a variable is true exactly when Kissat's value for it is positive, so one without a value stays false |
| KissatWrap.ModelAgrees | DPS-src/solvers/KissatWrapper.cpp:149-157 | every literal Kissat reports true is true in the model read back |
| SimpElim.Longer | mcomsps/MapleCOMSPS_LRB_VSIDS_2_no_drup/MapleCOMSPS_LRB_VSIDS_2/simp/SimpSolver.cc:272-274 | the pair is the two clauses with the longer one first; on equal lengths the first argument stays first |
| SimpElim.FirstSameVar | mcomsps/MapleCOMSPS_LRB_VSIDS_2_no_drup/MapleCOMSPS_LRB_VSIDS_2/simp/SimpSolver.cc:278-279 | the first position in the longer clause on the given variable: no earlier literal is on it, and the one found is |
| SimpElim.ResolvableAll | mcomsps/MapleCOMSPS_LRB_VSIDS_2_no_drup/MapleCOMSPS_LRB_VSIDS_2/simp/SimpSolver.cc:276-283 | the clash scan succeeds exactly when no literal of the shorter clause off the pivot clashes with the longer clause |
| SimpElim.ClashIsComplement | mcomsps/MapleCOMSPS_LRB_VSIDS_2_no_drup/MapleCOMSPS_LRB_VSIDS_2/simp/SimpSolver.cc:276-283 | for a longer clause without repeated variables, the scan fails exactly when some literal of the shorter clause off the pivot has its complement in the longer one: the resolvent would be a tautology |
| SimpElim.KeptShortMembers | mcomsps/MapleCOMSPS_LRB_VSIDS_2_no_drup/MapleCOMSPS_LRB_VSIDS_2/simp/SimpSolver.cc:276-287 | the literals kept from the shorter clause are at most its own, all off the pivot and on no variable of the longer clause |
| SimpElim.KeptShortHolds | mcomsps/MapleCOMSPS_LRB_VSIDS_2_no_drup/MapleCOMSPS_LRB_VSIDS_2/simp/SimpSolver.cc:276-287 | every literal of the shorter clause off the pivot and on no variable of the longer clause is kept |
| SimpElim.KeptLongMembers | mcomsps/MapleCOMSPS_LRB_VSIDS_2_no_drup/MapleCOMSPS_LRB_VSIDS_2/simp/SimpSolver.cc:289-291 | the literals kept from the longer clause are exactly its literals off the pivot |
| SimpElim.ResolventLiterals | mcomsps/MapleCOMSPS_LRB_VSIDS_2_no_drup/MapleCOMSPS_LRB_VSIDS_2/simp/SimpSolver.cc:267-294 | when merge succeeds, the resolvent holds exactly the literals of either clause off the pivot |
| SimpElim.KeptLongLength | mcomsps/MapleCOMSPS_LRB_VSIDS_2_no_drup/MapleCOMSPS_LRB_VSIDS_2/simp/SimpSolver.cc:289-291 | the literals kept from the longer clause and those on the pivot make up the clause |
| SimpElim.SizeIsResolventLength | mcomsps/MapleCOMSPS_LRB_VSIDS_2_no_drup/MapleCOMSPS_LRB_VSIDS_2/simp/SimpSolver.cc:298-324 | with the pivot once in the longer clause, the counting merge's size is the length of the resolvent merge builds |
| SimpElim.SameVar | mcomsps/MapleCOMSPS_LRB_VSIDS_2_no_drup/MapleCOMSPS_LRB_VSIDS_2/simp/SimpSolver.cc:280 | two literals on one variable are equal or complementary |
| SimpElim.ScanStep | mcomsps/MapleCOMSPS_LRB_VSIDS_2_no_drup/MapleCOMSPS_LRB_VSIDS_2/simp/SimpSolver.cc:276-287 | one more literal of the shorter clause scanned: it is kept exactly when off the pivot and not shared, and the scan fails exactly when it clashes |
| SimpElim.ClashBlocks | mcomsps/MapleCOMSPS_LRB_VSIDS_2_no_drup/MapleCOMSPS_LRB_VSIDS_2/simp/SimpSolver.cc:280-281 | a clash anywhere off the pivot makes merge answer false |
| SimpElim.KeepStep | mcomsps/MapleCOMSPS_LRB_VSIDS_2_no_drup/MapleCOMSPS_LRB_VSIDS_2/simp/SimpSolver.cc:289-291 | one more literal of the longer clause is appended exactly when it is off the pivot |
| SimpElim.ScanSameVar | mcomsps/MapleCOMSPS_LRB_VSIDS_2_no_drup/MapleCOMSPS_LRB_VSIDS_2/simp/SimpSolver.cc:278-283 | the inner loop finds whether the longer clause has a literal on the variable and, if so, the first one, which is a clash exactly when it is the complement |
| SimpElim.Resolve | mcomsps/MapleCOMSPS_LRB_VSIDS_2_no_drup/MapleCOMSPS_LRB_VSIDS_2/simp/SimpSolver.cc:270-293 | merge answers false exactly when the resolvent would be a tautology, and otherwise builds the kept literals of the shorter clause followed by those of the longer one |
| SimpElim.ScanShort | mcomsps/MapleCOMSPS_LRB_VSIDS_2_no_drup/MapleCOMSPS_LRB_VSIDS_2/simp/SimpSolver.cc:276-287 | the first loop keeps the shorter clause's literals off the pivot and on no variable of the longer clause, or fails on a clash |
| SimpElim.AppendKept | mcomsps/MapleCOMSPS_LRB_VSIDS_2_no_drup/MapleCOMSPS_LRB_VSIDS_2/simp/SimpSolver.cc:289-291 | the second loop appends the longer clause's literals off the pivot |
| SimpElim.ResolventSize | mcomsps/MapleCOMSPS_LRB_VSIDS_2_no_drup/MapleCOMSPS_LRB_VSIDS_2/simp/SimpSolver.cc:298-324 | the counting merge answers as merge does, and its size is the longer clause's length minus one plus the kept literals of the shorter one |
| SimpElim.CountShort | mcomsps/MapleCOMSPS_LRB_VSIDS_2_no_drup/MapleCOMSPS_LRB_VSIDS_2/simp/SimpSolver.cc:308-321 | the counting loop adds one per kept literal of the shorter clause, or fails on a clash |
| SimpElim.SimpSolver.constructor | mcomsps/MapleCOMSPS_LRB_VSIDS_2_no_drup/MapleCOMSPS_LRB_VSIDS_2/simp/SimpSolver.cc:63-87 | the merge counter starts at 0 and there are no elimination records; the source constructor leaves `model` empty and `solve` sizes it later, so here its size `nVars` is a parameter and every slot starts undefined |
| SimpElim.SimpSolver.Merge | mcomsps/MapleCOMSPS_LRB_VSIDS_2_no_drup/MapleCOMSPS_LRB_VSIDS_2/simp/SimpSolver.cc:267-294 | counts one merge and builds the resolvent as `Resolve` does; nothing else changes |
| SimpElim.SimpSolver.MergeSize | mcomsps/MapleCOMSPS_LRB_VSIDS_2_no_drup/MapleCOMSPS_LRB_VSIDS_2/simp/SimpSolver.cc:298-324 | counts one merge and returns the resolvent size as `ResolventSize` does; nothing else changes |
| SimpElim.Codes | mcomsps/MapleCOMSPS_LRB_VSIDS_2_no_drup/MapleCOMSPS_LRB_VSIDS_2/simp/SimpSolver.cc:503 | the literal codes of a clause, position by position |
| SimpElim.LastVarPos | mcomsps/MapleCOMSPS_LRB_VSIDS_2_no_drup/MapleCOMSPS_LRB_VSIDS_2/simp/SimpSolver.cc:502-506 | the last position of a literal on the variable, or -1 when there is none |
| SimpElim.ElimRecordShape | mcomsps/MapleCOMSPS_LRB_VSIDS_2_no_drup/MapleCOMSPS_LRB_VSIDS_2/simp/SimpSolver.cc:495-517 | a record is the clause's literal codes, permuted so that one on the eliminated variable is first, followed by the clause length |
| SimpElim.SwapPermutes | mcomsps/MapleCOMSPS_LRB_VSIDS_2_no_drup/MapleCOMSPS_LRB_VSIDS_2/simp/SimpSolver.cc:511-513 | swapping the first entry with another keeps the entries |
| SimpElim.ElimRecordAppends | mcomsps/MapleCOMSPS_LRB_VSIDS_2_no_drup/MapleCOMSPS_LRB_VSIDS_2/simp/SimpSolver.cc:495-517 | appending the record of a clause over the model's variables keeps the sequence of records well formed |
| SimpElim.MkElimUnit | mcomsps/MapleCOMSPS_LRB_VSIDS_2_no_drup/MapleCOMSPS_LRB_VSIDS_2/simp/SimpSolver.cc:488-492 | a unit is recorded as its literal code followed by the length 1, which keeps the records well formed |
| SimpElim.MkElimClause | mcomsps/MapleCOMSPS_LRB_VSIDS_2_no_drup/MapleCOMSPS_LRB_VSIDS_2/simp/SimpSolver.cc:495-517 | the clause's record is appended to the records; the clause must hold the eliminated variable |
| SimpElim.RecordsShape | mcomsps/MapleCOMSPS_LRB_VSIDS_2_no_drup/MapleCOMSPS_LRB_VSIDS_2/simp/SimpSolver.cc:621-622 | well-formed records have the layout extendModel walks: from the back, a length n >= 1 preceded by n entries |
| SimpElim.ValueAt | mcomsps/MapleCOMSPS_LRB_VSIDS_2_no_drup/MapleCOMSPS_LRB_VSIDS_2/simp/SimpSolver.cc:623 | a literal on a variable of the model has its model value |
| SimpElim.ApplySatisfies | mcomsps/MapleCOMSPS_LRB_VSIDS_2_no_drup/MapleCOMSPS_LRB_VSIDS_2/simp/SimpSolver.cc:622-627 | applying a record to a total model satisfies it, and changes only the variable of its first literal |
| SimpElim.RecordsTop | mcomsps/MapleCOMSPS_LRB_VSIDS_2_no_drup/MapleCOMSPS_LRB_VSIDS_2/simp/SimpSolver.cc:621-622 | the last record of a well-formed prefix has a length within it, its first literal on a model variable, and well-formed records before it |
| SimpElim.ExtendedTop | mcomsps/MapleCOMSPS_LRB_VSIDS_2_no_drup/MapleCOMSPS_LRB_VSIDS_2/simp/SimpSolver.cc:621-629 | extending over a prefix of records applies its last record first and then the records before it |
| SimpElim.ExtendOver | mcomsps/MapleCOMSPS_LRB_VSIDS_2_no_drup/MapleCOMSPS_LRB_VSIDS_2/simp/SimpSolver.cc:616-630 | the loop walks the records from the back and leaves the model extended over all of them |
| SimpElim.ApplyRecord | mcomsps/MapleCOMSPS_LRB_VSIDS_2_no_drup/MapleCOMSPS_LRB_VSIDS_2/simp/SimpSolver.cc:622-628 | one outer round: the record is applied to the model and the index moves to the end of the record before it |
| SimpElim.ScanRecord | mcomsps/MapleCOMSPS_LRB_VSIDS_2_no_drup/MapleCOMSPS_LRB_VSIDS_2/simp/SimpSolver.cc:622-624 | the inner loop finds whether some literal of the record other than the first is not false, and ends at the record's first literal when none is |
| SimpElim.SimpSolver.ExtendModel | mcomsps/MapleCOMSPS_LRB_VSIDS_2_no_drup/MapleCOMSPS_LRB_VSIDS_2/simp/SimpSolver.cc:616-630 | the model is extended over every elimination record, last record first; the records and the merge counter are unchanged |
| SimpElim.Pow2 | mcomsps/MapleCOMSPS_LRB_VSIDS_2_no_drup/MapleCOMSPS_LRB_VSIDS_2/simp/SimpSolver.cc:1026 | every power of two is at least 1 |
| SimpElim.ToDupMarkerIdx | mcomsps/MapleCOMSPS_LRB_VSIDS_2_no_drup/MapleCOMSPS_LRB_VSIDS_2/simp/SimpSolver.cc:1020-1028 | the index is the sign pattern of the sorted copy of the clause |
| SimpElim.SignBitsBound | mcomsps/MapleCOMSPS_LRB_VSIDS_2_no_drup/MapleCOMSPS_LRB_VSIDS_2/simp/SimpSolver.cc:1023-1026 | the sign pattern of n literals stays below 2^n |
| SimpElim.SignBitsTest | mcomsps/MapleCOMSPS_LRB_VSIDS_2_no_drup/MapleCOMSPS_LRB_VSIDS_2/simp/SimpSolver.cc:1024-1026 | bit i of the sign pattern is set exactly when the i-th literal is negative |
| SimpElim.DupTableFits | mcomsps/MapleCOMSPS_LRB_VSIDS_2_no_drup/MapleCOMSPS_LRB_VSIDS_2/simp/SimpSolver.cc:1104 | with MAX_XOR_SIZE_LIMIT 6 (line 1058), the index of an XOR candidate, at most 6 literals, fits the duplicate table of 2^6 entries |
| Clauses.Longs | DPS-src/solvers/AbstDetSeqSolver.cpp:151-154 | the clauses routed to the non-unit list all have more than one literal |
| Clauses.Units | DPS-src/solvers/AbstDetSeqSolver.cpp:151-156 | the clauses routed to the unit list all have at most one literal |
| Buffer.DrainCount | DPS-src/period/ClauseBuffer.cpp:14-46 | the number of clauses an export drains is at most the number buffered |

## Left out

- DetSeqSolver.AbstDetSeqSolver.CheckPeriod: in the period-step case the other mailboxes are stated to keep the same set objects and the cursors of `Acked`; that the clauses and candidates inside those sets are unchanged is not stated, because the import writes only their acknowledgement counts and restating the contents would put every set's fields into each step's proof.
- DetSeqSolver.AbstDetSeqSolver.Boundary, DetSeqSolver.AbstDetSeqSolver.ImportAndMove, DetSeqSolver.AbstDetSeqSolver.ImportFromView, DetSeqSolver.AbstDetSeqSolver.ImportClauses, DetSeqSolver.AbstDetSeqSolver.ImportAt, DetSeqSolver.AbstDetSeqSolver.ImportOthers: the same limit as `CheckPeriod` on the contents of the other mailboxes' sets.
- DpsCApi.CheckPeriod, KissatDps.Kissat.DpsCheckPeriod, KissatDps.Kissat.Handover: the same limit as `CheckPeriod` on the contents of the other mailboxes' sets.
- Concurrency: the mutexes, condition variables and atomics of `PrdClauses`, `PrdClausesQueue` and `Sharer`, and the worker threads themselves. Each operation is modelled as one atomic step, and one worker's period step is stated against the shared table as it stands.
- `waitAdditionCompleted`: the blocking wait is modelled as the precondition that the set is already completed (in the deterministic import, that the other mailboxes are open past the import period).
- Floating point:
  - the moving average of `getNewPeriodLength` is passed in as `smoothed`;
  - `exp_lits_margin` is an integer number of thousandths;
  - the quantile bound `getLBDUpperbound` is a parameter;
  - the double lbd limit of the Kissat worker and its `incExpClauseGen`/`decExpClauseGen` steps are not modelled;
  - the seconds conversion of `Chronometer::getTime` is not modelled.
- MapleCOMSPSWrapper is not part of this model: its export filter matches Glucose's but uses a floating-point threshold.
- Operating-system queries: `usedMemory` and `realTime` in the worker's termination test are the boolean `overLimits`, and the clock of `Chronometer` is the parameter `now`.
- Signal handling, the gz file reader, the command-line options, statistics and result printing, and the Chronometer accessors `clear(type)`, `getCount` and `getTime`.
- Dimacs.LoadFormula: a comment or header line must end in a newline; at end of input inside such a line the source loops forever, while the model stops.
- Solver internals are given to the model, not modelled: Kissat's import of literals, its eliminated variables and its propagation (the `Engine` value), and the clause-refusal oracle of the MiniSat and Glucose solvers. The root assignment records only the learned units, not the literals propagation implies from them.
- The MiniSat, Glucose and Kissat solver constructors and their `solve`, `loadFormula` (for Kissat) and statistics calls into the solver libraries.
- The calls to the chronometer inside the wrappers, the period loop and the importers, and the lbd statistics (`lbd_dist`) updated by the export test.
- SimpSolver's variable elimination, subsumption, asymmetric branching and Gaussian elimination loops that call `merge`, `mkElimClause` and `toDupMarkerIdx`.
- SimpElim.ToDupMarkerIdx: the sort in `sortAfterCopy` is not modelled; the sorted copy is a parameter, required to hold the clause's literals in ascending order. The index is an unbounded integer rather than a 32-bit `int`; for XOR candidates (at most 6 literals) the two agree.
- DpsKissatApply.Applicable: every clause of the unit list must hold a literal. The source routes clauses of size 1 or less to that list, an empty one included (DPS-src/solvers/AbstDetSeqSolver.cpp:152-155), and then reads its first literal (DPS-src/solvers/DPS_C_API.cpp:52), which for an empty clause is undefined; the model does not describe an empty clause on the unit list.
- SimpElim.ValueAt: a literal on a variable outside the model reads as unassigned, where the source would read out of bounds; well-formed records only name variables of the model.
- KissatWrap.Threshold: the lbd threshold is the floor of the smaller bound as an unbounded natural, not its conversion to `uint32_t`.
- KissatWrap.Eliminates: the `dem != 0` test only keeps the function total for shares outside 0 .. 99; for shares 0 .. 99 the denominator is positive.
- KissatWrap.Configure: the options are modelled as the final option values and the random-pick flag, not as the sequence of `kissat_set_option` calls.
- SatModel.Print: it requires at most 2^31 slots, so the `int` loop counter of the source does not overflow.
- 32-bit wrap-around is not modelled in the counters (`num_mem_accesses`, `num_literals`, the clause counts and `abs` of the smallest `int` in the reader). The reader's `num = num * 10 + (c - '0')` (DPS-src/sat/Instance.cpp:43) overflows a 32-bit `int` on more than ten digits; `Dimacs.ReadDigits` yields the unbounded decimal value instead. It is modelled where it changes a decision: the literal count and its difference in the export steering (`Int32Diff`).
