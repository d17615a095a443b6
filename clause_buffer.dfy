/** The export staging area of a worker (period/ClauseBuffer.cpp). */
module Buffer {
  import opened Clauses
  import opened PeriodClauses

  /** The ordering of `std::set` keys, stated on neighbours. */
  predicate StrictlyIncreasing(keys: seq<nat>)
    decreases |keys|
  {
    |keys| <= 1 || (keys[0] < keys[1] && StrictlyIncreasing(keys[1..]))
  }

  /** The smallest key is below every other key, so it occurs once. */
  lemma {:induction false} HeadBelow(keys: seq<nat>)
    requires StrictlyIncreasing(keys) && keys != []
    ensures forall x :: x in keys[1..] ==> keys[0] < x
    ensures keys[0] !in keys[1..]
    decreases |keys|
  {
    if |keys| > 1 {
      HeadBelow(keys[1..]);
      assert keys[1..][1..] == keys[2..];
      assert forall x :: x in keys[1..] ==> x == keys[1] || x in keys[2..];
    }
  }

  /** The buffered clauses in the order `exportTo` drains them: ascending key, FIFO within a key. */
  function Flatten(keys: seq<nat>, db: map<nat, seq<Clause>>): seq<Clause>
    requires forall k :: k in keys ==> k in db
  {
    if keys == [] then [] else db[keys[0]] + Flatten(keys[1..], db)
  }

  /** `std::set::insert` on the ordered key set. */
  function InsertSorted(keys: seq<nat>, v: nat): (r: seq<nat>)
    requires StrictlyIncreasing(keys) && v !in keys
    ensures StrictlyIncreasing(r) && |r| == |keys| + 1
    ensures forall x :: x in r <==> x in keys || x == v
  {
    if keys == [] || v < keys[0] then
      assert ([v] + keys)[1..] == keys;
      [v] + keys
    else
      assert keys[0] in keys && keys[0] < v;
      var r' := InsertSorted(keys[1..], v);
      assert r'[0] in r';
      assert r'[0] == v || keys[0] < r'[0] by {
        HeadBelow(keys);
      }
      assert ([keys[0]] + r')[1..] == r';
      [keys[0]] + r'
  }

  /** Flatten only looks at the queues of the listed keys. */
  lemma {:induction false} FlattenIgnores(keys: seq<nat>, db1: map<nat, seq<Clause>>, db2: map<nat, seq<Clause>>)
    requires forall k :: k in keys ==> k in db1 && k in db2 && db1[k] == db2[k]
    ensures Flatten(keys, db1) == Flatten(keys, db2)
    decreases |keys|
  {
    if keys != [] {
      FlattenIgnores(keys[1..], db1, db2);
    }
  }

  /** `after` holds exactly one more clause than `before`, namely `c`. */
  ghost predicate GrownBy(after: seq<Clause>, before: seq<Clause>, c: Clause)
  {
    |after| == |before| + 1 &&
    TotalLiterals(after) == TotalLiterals(before) + |c| &&
    multiset(after) == multiset(before) + multiset{c}
  }

  lemma GrownByFrame(a: seq<Clause>, after: seq<Clause>, before: seq<Clause>, c: Clause)
    requires GrownBy(after, before, c)
    ensures GrownBy(a + after, a + before, c)
  {
    TotalLiteralsAppend(a, after);
    TotalLiteralsAppend(a, before);
  }

  /** Appending to the queue of a listed key grows the contents by that clause. */
  lemma {:induction false} FlattenPushExisting(keys: seq<nat>, db: map<nat, seq<Clause>>, v: nat, c: Clause)
    requires StrictlyIncreasing(keys) && v in keys
    requires forall k :: k in keys ==> k in db
    ensures GrownBy(Flatten(keys, db[v := db[v] + [c]]), Flatten(keys, db), c)
    decreases |keys|
  {
    var db' := db[v := db[v] + [c]];
    var rest := keys[1..];
    if keys[0] == v {
      PushFront(keys, db, c);
    } else {
      assert v in rest;
      FlattenPushExisting(rest, db, v, c);
      GrownByFrame(db[keys[0]], Flatten(rest, db'), Flatten(rest, db), c);
    }
  }

  /** The first case of FlattenPushExisting: appending to the queue of the smallest key. */
  lemma PushFront(keys: seq<nat>, db: map<nat, seq<Clause>>, c: Clause)
    requires StrictlyIncreasing(keys) && keys != []
    requires forall k :: k in keys ==> k in db
    ensures GrownBy(Flatten(keys, db[keys[0] := db[keys[0]] + [c]]), Flatten(keys, db), c)
  {
    var q := db[keys[0]];
    var f := Flatten(keys[1..], db);
    FlattenFront(keys, db, q + [c]);
    AppendAssoc(q, [c], f);
    TotalLiteralsAppend(q + [c], f);
    TotalLiteralsAppend(q, f);
    TotalLiteralsSnoc(q, c);
  }

  /** Inserting a new key whose queue is `[c]` grows the contents by that clause. */
  lemma {:induction false} FlattenPushNew(keys: seq<nat>, db: map<nat, seq<Clause>>, v: nat, c: Clause)
    requires StrictlyIncreasing(keys) && v !in keys
    requires forall k :: k in keys ==> k in db
    ensures GrownBy(Flatten(InsertSorted(keys, v), db[v := [c]]), Flatten(keys, db), c)
    decreases |keys|
  {
    var db' := db[v := [c]];
    var r := InsertSorted(keys, v);
    if keys == [] || v < keys[0] {
      assert r[1..] == keys;
      FlattenIgnores(keys, db', db);
      TotalLiteralsCons(c, Flatten(keys, db));
    } else {
      var rest := keys[1..];
      assert r[1..] == InsertSorted(rest, v);
      FlattenPushNew(rest, db, v, c);
      GrownByFrame(db[keys[0]], Flatten(InsertSorted(rest, v), db'), Flatten(rest, db), c);
    }
  }

  /** Monotonicity of the literal count of prefixes. */
  lemma PrefixLiterals(cs: seq<Clause>, i: nat, j: nat)
    requires i <= j <= |cs|
    ensures TotalLiterals(cs[..i]) <= TotalLiterals(cs[..j])
  {
    assert cs[..j] == cs[..i] + cs[i..j];
    TotalLiteralsAppend(cs[..i], cs[i..j]);
  }

  /**
   * Reference definition of how many clauses of `cs` a drain under budget `maxLits` takes:
   * everything when `maxLits == 0`, otherwise up to and including the first clause at which the
   * running literal total exceeds the budget.
   */
  function DrainCount(cs: seq<Clause>, maxLits: nat): (n: nat)
    ensures n <= |cs|
  {
    if maxLits == 0 then |cs| else CutFrom(cs, maxLits, 0)
  }

  function CutFrom(cs: seq<Clause>, maxLits: nat, i: nat): (n: nat)
    requires i <= |cs|
    ensures i <= n <= |cs|
    decreases |cs| - i
  {
    if i == |cs| then |cs|
    else if TotalLiterals(cs[..i + 1]) > maxLits then i + 1
    else CutFrom(cs, maxLits, i + 1)
  }

  lemma {:induction false} CutFromBudget(cs: seq<Clause>, maxLits: nat, i: nat)
    requires i <= |cs| && TotalLiterals(cs[..i]) <= maxLits
    ensures var n := CutFrom(cs, maxLits, i);
      n == 0 || TotalLiterals(cs[..n - 1]) <= maxLits
    ensures var n := CutFrom(cs, maxLits, i);
      n < |cs| ==> TotalLiterals(cs[..n]) > maxLits
    decreases |cs| - i
  {
    if i == |cs| {
      if i > 0 {
        PrefixLiterals(cs, i - 1, i);
      }
    } else if TotalLiterals(cs[..i + 1]) <= maxLits {
      CutFromBudget(cs, maxLits, i + 1);
    }
  }

  /**
   * The drain count is characterised by the budget alone: before its last clause the drained
   * prefix fits the budget, and it stops short of the end only once it has gone over.
   */
  lemma DrainCountBudget(cs: seq<Clause>, maxLits: nat)
    requires maxLits > 0
    ensures var n := DrainCount(cs, maxLits);
      (n > 0 ==> TotalLiterals(cs[..n - 1]) <= maxLits) &&
      (n < |cs| ==> TotalLiterals(cs[..n]) > maxLits)
  {
    CutFromBudget(cs, maxLits, 0);
  }

  /** Any cut with the two budget properties is the drain count. */
  lemma DrainCountUnique(cs: seq<Clause>, maxLits: nat, n: nat)
    requires n <= |cs|
    requires maxLits > 0 && n > 0 ==> TotalLiterals(cs[..n - 1]) <= maxLits
    requires (maxLits == 0 || TotalLiterals(cs[..n]) <= maxLits) ==> n == |cs|
    ensures n == DrainCount(cs, maxLits)
  {
    if maxLits > 0 {
      var d := DrainCount(cs, maxLits);
      DrainCountBudget(cs, maxLits);
      if n < d {
        PrefixLiterals(cs, n, d - 1);
      } else if n > d {
        PrefixLiterals(cs, d, n - 1);
      }
    }
  }

  /** The drain overshoots the budget by less than the size of its last clause. */
  lemma DrainOvershoot(cs: seq<Clause>, maxLits: nat)
    requires maxLits > 0 && DrainCount(cs, maxLits) > 0
    ensures var n := DrainCount(cs, maxLits);
      TotalLiterals(cs[..n]) <= maxLits + |cs[n - 1]|
  {
    var n := DrainCount(cs, maxLits);
    DrainCountBudget(cs, maxLits);
    assert cs[..n] == cs[..n - 1] + [cs[n - 1]];
    TotalLiteralsSnoc(cs[..n - 1], cs[n - 1]);
  }

  /**
   * The inner loop of `exportTo` on one queue: pops clauses from the front of `queue` into
   * `dest` until the queue is empty or the exported literal total exceeds `maxLits` (> 0).
   * `taken` is what was popped and `rest` what remains.
   */
  method TakeFromQueue(queue: seq<Clause>, dest: PrdClauses, maxLits: nat, lits: nat)
      returns (rest: seq<Clause>, moved: nat, newLits: nat, full: bool, ghost taken: seq<Clause>)
    requires dest.Valid() && !dest.completed
    requires maxLits > 0 ==> lits <= maxLits
    modifies dest`clauses, dest`numLiterals
    ensures dest.Valid()
    ensures dest.clauses == old(dest.clauses) + taken && queue == taken + rest
    ensures newLits == lits + TotalLiterals(taken) && moved == |taken|
    ensures full <==> 0 < maxLits < newLits
    ensures !full ==> rest == []
    ensures maxLits > 0 && |taken| > 0 ==> newLits - |taken[|taken| - 1]| <= maxLits
  {
    ghost var d0 := dest.clauses;
    rest := queue;
    newLits := lits;
    moved := 0;
    full := false;
    taken := [];
    while rest != []
      invariant dest.Valid() && !dest.completed
      invariant dest.clauses == d0 + taken
      invariant queue == taken + rest
      invariant newLits == lits + TotalLiterals(taken) && moved == |taken|
      invariant maxLits > 0 ==> newLits <= maxLits
      invariant maxLits > 0 && |taken| > 0 ==> newLits - |taken[|taken| - 1]| <= maxLits
      decreases |rest|
    {
      ghost var before := taken;
      var c := rest[0];
      var _ := dest.AddClause(c);
      taken := taken + [c];
      TotalLiteralsSnoc(before, c);
      assert rest == [c] + rest[1..];
      AppendAssoc(before, [c], rest[1..]);
      rest := rest[1..];
      newLits := newLits + |c|;
      moved := moved + 1;
      // If maxLits == 0, the budget is unlimited.
      if 0 < maxLits && maxLits < newLits {
        full := true;
        break;
      }
    }
  }

  /**
   * Clauses grouped in FIFO queues under integer keys; `keys` is the ordered key set (a
   * strictly increasing sequence) and `db` maps each key to its queue. A queue may be empty.
   */
  class ClauseBuffer {
    var db: map<nat, seq<Clause>>
    var keys: seq<nat>
    var numClauses: nat
    var numLiterals: nat

    ghost predicate Valid()
      reads this
    {
      StrictlyIncreasing(keys) &&
      (forall k :: k in db <==> k in keys) &&
      numClauses == |Contents()| &&
      numLiterals == TotalLiterals(Contents())
    }

    /** All buffered clauses in drain order. */
    ghost function Contents(): seq<Clause>
      reads this
      requires forall k :: k in keys ==> k in db
    {
      Flatten(keys, db)
    }

    constructor ()
      ensures Valid() && keys == [] && db == map[] && Contents() == []
    {
      db := map[];
      keys := [];
      numClauses := 0;
      numLiterals := 0;
    }

    /** Appends `c` to the back of the queue of key `val`, creating the key if needed. */
    method AddClause(c: Clause, val: nat)
      requires Valid()
      modifies this
      ensures Valid()
      ensures forall x :: x in keys <==> x in old(keys) || x == val
      ensures db == old(db)[val := (if val in old(db) then old(db)[val] else []) + [c]]
      ensures numClauses == old(numClauses) + 1 && numLiterals == old(numLiterals) + |c|
      ensures multiset(Contents()) == multiset(old(Contents())) + multiset{c}
    {
      if val !in keys {
        FlattenPushNew(keys, db, val, c);
        keys := InsertSorted(keys, val);
        assert [] + [c] == [c];
        db := db[val := [c]];
      } else {
        FlattenPushExisting(keys, db, val, c);
        db := db[val := db[val] + [c]];
      }
      numClauses := numClauses + 1;
      numLiterals := numLiterals + |c|;
    }

    function GetNumClauses(): (n: nat)
      reads this
      requires Valid()
      ensures n == |Contents()|
    {
      numClauses
    }

    function GetNumLiterals(): (n: nat)
      reads this
      requires Valid()
      ensures n == TotalLiterals(Contents())
    {
      numLiterals
    }

    /**
     * Drains the queue of the smallest key into `dest`, starting from `lits` exported literals,
     * and stops early once the total exceeds `maxLits` (> 0). The queue is popped on a local
     * copy and the counters are settled once at the end, which leaves the same state as the
     * per-clause updates of the source.
     */
    method DrainFrontKey(dest: PrdClauses, maxLits: nat, lits: nat)
        returns (moved: nat, newLits: nat, full: bool, ghost taken: seq<Clause>)
      requires Valid() && dest.Valid() && !dest.completed && keys != []
      requires maxLits > 0 ==> lits <= maxLits
      modifies this`db, this`numClauses, this`numLiterals, dest`clauses, dest`numLiterals
      ensures Valid() && dest.Valid()
      ensures dest.clauses == old(dest.clauses) + taken
      ensures old(Contents()) == taken + Contents()
      ensures newLits == lits + TotalLiterals(taken) && moved == |taken|
      ensures full <==> 0 < maxLits < newLits
      ensures !full ==> db[keys[0]] == []
      ensures old(db[keys[0]]) == taken + db[keys[0]]
      ensures forall k :: k in keys[1..] ==> db[k] == old(db[k])
      ensures maxLits > 0 && |taken| > 0 ==> newLits - |taken[|taken| - 1]| <= maxLits
    {
      var key := keys[0];
      HeadBelow(keys);
      var queue;
      queue, moved, newLits, full, taken := TakeFromQueue(db[key], dest, maxLits, lits);
      SettleFront(keys, db, taken, queue);
      numClauses := numClauses - moved;
      numLiterals := numLiterals - (newLits - lits);
      db := db[key := queue];
    }

    /** Erases the smallest key once its queue is empty. */
    method EraseFront()
      requires Valid() && keys != [] && db[keys[0]] == []
      modifies this`db, this`keys
      ensures Valid()
      ensures keys == old(keys)[1..] && db == old(db) - {old(keys[0])}
      ensures Contents() == old(Contents())
    {
      var key := keys[0];
      EraseEmptyFront(keys, db);
      db := db - {key};
      keys := keys[1..];
    }

    /**
     * One round of the outer loop of `exportTo`: drain the smallest key, then erase it unless
     * the budget ran out while draining it.
     */
    method ExportFrontKey(dest: PrdClauses, maxLits: nat, lits: nat)
        returns (moved: nat, newLits: nat, full: bool, ghost taken: seq<Clause>)
      requires Valid() && dest.Valid() && !dest.completed && keys != []
      requires maxLits > 0 ==> lits <= maxLits
      modifies this`db, this`keys, this`numClauses, this`numLiterals, dest`clauses, dest`numLiterals
      ensures Valid() && dest.Valid()
      ensures dest.clauses == old(dest.clauses) + taken
      ensures old(Contents()) == taken + Contents()
      ensures newLits == lits + TotalLiterals(taken) && moved == |taken|
      ensures full <==> 0 < maxLits < newLits
      ensures if full then keys == old(keys) else keys == old(keys)[1..]
      ensures full ==> 0 < |taken| <= |old(db[keys[0]])|
      ensures !full ==> taken == old(db[keys[0]]) && forall k :: k in keys ==> db[k] == old(db[k])
      ensures maxLits > 0 && |taken| > 0 ==> newLits - |taken[|taken| - 1]| <= maxLits
    {
      moved, newLits, full, taken := DrainFrontKey(dest, maxLits, lits);
      if !full {
        // The inner loop only ends early when full, so the queue is empty here; the source's
        // `else ++it` branch cannot run.
        EraseFront();
      }
    }

    /**
     * One round of the outer loop of `exportTo` together with its ghost bookkeeping: the clauses
     * exported so far (`e`) grow by the clauses taken from the smallest key, and the keys
     * erased so far (`m`, from the initial key set `k0`) grow by that key unless the budget ran out.
     */
    method ExportRound(dest: PrdClauses, maxLits: nat, lits: nat, count: nat,
                       ghost c0: seq<Clause>, ghost d0: seq<Clause>, ghost e: seq<Clause>,
                       ghost k0: seq<nat>, ghost db0: map<nat, seq<Clause>>, ghost m: nat)
        returns (newLits: nat, newCount: nat, full: bool, ghost e': seq<Clause>, ghost m': nat)
      requires Valid() && dest.Valid() && !dest.completed && keys != []
      requires Drained(c0, d0, e, dest.clauses, Contents(), lits, count, maxLits)
      requires maxLits > 0 ==> lits <= maxLits
      requires forall k :: k in k0 ==> k in db0
      requires Erased(k0, db0, m, keys, db, |e|)
      modifies this`db, this`keys, this`numClauses, this`numLiterals, dest`clauses, dest`numLiterals
      ensures Valid() && dest.Valid()
      ensures Drained(c0, d0, e', dest.clauses, Contents(), newLits, newCount, maxLits)
      ensures full <==> 0 < maxLits < newLits
      ensures !full ==> Erased(k0, db0, m', keys, db, |e'|)
      ensures full ==> Stopped(k0, db0, m', keys, |e'|)
      ensures if full then keys == old(keys) else keys == old(keys)[1..]
    {
      var moved;
      ghost var taken;
      ghost var key := keys[0];
      moved, newLits, full, taken := ExportFrontKey(dest, maxLits, lits);
      newCount := count + moved;
      e' := e + taken;
      Bookkeep(d0, e, taken, dest.clauses, c0, Contents());
      CumSnoc(k0, db0, m);
      m' := if full then m else m + 1;
      if !full {
        assert k0[m + 1..] == k0[m..][1..];
      }
    }

    /**
     * Moves clauses, smallest key first and FIFO within a key, to the end of `dest` until the
     * exported literal total exceeds `maxLits` (0 means no limit); returns the number moved.
     * The clause that crosses the budget is still moved. Only the key being drained when the
     * budget runs out is kept, possibly with an empty queue: every key whose queue was drained
     * completely before the last exported clause is erased, and so is every key when the budget
     * is never exceeded.
     */
    method ExportTo(dest: PrdClauses, maxLits: nat) returns (r: nat)
      requires Valid() && dest.Valid() && !dest.completed
      modifies this, dest`clauses, dest`numLiterals
      ensures Valid() && dest.Valid()
      ensures r == DrainCount(old(Contents()), maxLits)
      ensures dest.clauses == old(dest.clauses) + old(Contents())[..r]
      ensures Contents() == old(Contents())[r..]
      ensures if 0 < maxLits < TotalLiterals(old(Contents())[..r])
        then 0 < r && keys == old(keys)[Covered(old(keys), old(db), r - 1)..]
        else keys == [] && db == map[]
    {
      ghost var c0 := Contents();
      ghost var d0 := dest.clauses;
      ghost var k0 := keys;
      ghost var db0 := db;
      ghost var e, m;
      var exportedLiterals, full;
      exportedLiterals, r, full, e, m := DrainKeys(dest, maxLits, c0, d0, k0, db0);
      ExportDone(c0, d0, e, dest.clauses, Contents(), maxLits, exportedLiterals, r, !full);
      assert c0[..r] == e && exportedLiterals == TotalLiterals(c0[..r]);
      if full {
        CoveredIs(k0, db0, m, r - 1);
      } else {
        NoKeysNoQueues(keys, db);
      }
      assert old(Contents()) == c0 && old(keys) == k0 && old(db) == db0 && old(dest.clauses) == d0;
    }

    /** The outer loop of `exportTo`, with the exported clauses `e` as ghost state. */
    method DrainKeys(dest: PrdClauses, maxLits: nat, ghost c0: seq<Clause>, ghost d0: seq<Clause>,
                     ghost k0: seq<nat>, ghost db0: map<nat, seq<Clause>>)
        returns (exportedLiterals: nat, exportedClauses: nat, full: bool, ghost e: seq<Clause>, ghost m: nat)
      requires Valid() && dest.Valid() && !dest.completed
      requires c0 == Contents() && d0 == dest.clauses && k0 == keys && db0 == db
      modifies this`db, this`keys, this`numClauses, this`numLiterals, dest`clauses, dest`numLiterals
      ensures Valid() && dest.Valid()
      ensures Drained(c0, d0, e, dest.clauses, Contents(), exportedLiterals, exportedClauses, maxLits)
      ensures full <==> 0 < maxLits < exportedLiterals
      ensures !full ==> keys == [] && Contents() == []
      ensures full ==> Stopped(k0, db0, m, keys, |e|)
    {
      e := [];
      m := 0;
      exportedLiterals := 0;
      exportedClauses := 0;
      full := false;
      // The source leaves the outer loop with `break` once full; testing `full` in the loop
      // condition is the same control flow.
      while keys != [] && !full
        invariant Valid() && dest.Valid() && !dest.completed
        invariant Drained(c0, d0, e, dest.clauses, Contents(), exportedLiterals, exportedClauses, maxLits)
        invariant if full then 0 < maxLits < exportedLiterals else maxLits > 0 ==> exportedLiterals <= maxLits
        invariant if full then Stopped(k0, db0, m, keys, |e|) else Erased(k0, db0, m, keys, db, |e|)
        decreases |keys| + (if full then 0 else 1)
      {
        exportedLiterals, exportedClauses, full, e, m :=
          ExportRound(dest, maxLits, exportedLiterals, exportedClauses, c0, d0, e, k0, db0, m);
      }
    }
  }

  /** With an empty key set the map is empty too. */
  lemma NoKeysNoQueues(keys: seq<nat>, db: map<nat, seq<Clause>>)
    requires forall k :: k in db <==> k in keys
    requires keys == []
    ensures db == map[]
  {
  }

  /** The ghost state of the drain loop: `e` has moved from the front of `c0` to the end of `d0`. */
  ghost predicate Drained(c0: seq<Clause>, d0: seq<Clause>, e: seq<Clause>, dc: seq<Clause>, rest: seq<Clause>,
                          lits: nat, count: nat, maxLits: nat)
  {
    dc == d0 + e && e + rest == c0 && lits == TotalLiterals(e) && count == |e| &&
    (maxLits > 0 && |e| > 0 ==> lits - |e[|e| - 1]| <= maxLits)
  }

  /**
   * The drain loop's key state once the budget ran out: the first `m` keys of `k0` are erased,
   * and the last of the `drained` clauses lies under key `m`.
   */
  ghost predicate Stopped(k0: seq<nat>, db0: map<nat, seq<Clause>>, m: nat, keys: seq<nat>, drained: nat)
    requires forall k :: k in k0 ==> k in db0
  {
    m < |k0| && keys == k0[m..] && Cum(k0, db0, m) < drained <= Cum(k0, db0, m + 1)
  }

  /** The number of clauses queued under the first `m` keys. */
  function Cum(keys: seq<nat>, db: map<nat, seq<Clause>>, m: nat): nat
    requires m <= |keys| && forall k :: k in keys ==> k in db
  {
    if m == 0 then 0 else |db[keys[0]]| + Cum(keys[1..], db, m - 1)
  }

  lemma {:induction false} CumSnoc(keys: seq<nat>, db: map<nat, seq<Clause>>, m: nat)
    requires m < |keys| && forall k :: k in keys ==> k in db
    ensures Cum(keys, db, m + 1) == Cum(keys, db, m) + |db[keys[m]]|
    decreases m
  {
    if m > 0 {
      CumSnoc(keys[1..], db, m - 1);
    }
  }

  /** The number of leading keys whose queues lie entirely within the first `n` clauses. */
  function Covered(keys: seq<nat>, db: map<nat, seq<Clause>>, n: nat): (c: nat)
    requires forall k :: k in keys ==> k in db
    ensures c <= |keys|
  {
    if keys == [] || |db[keys[0]]| > n then 0 else 1 + Covered(keys[1..], db, n - |db[keys[0]]|)
  }

  /** Clause `n` lies under key `m` exactly when `m` keys are covered by the clauses before it. */
  lemma {:induction false} CoveredIs(keys: seq<nat>, db: map<nat, seq<Clause>>, m: nat, n: nat)
    requires m < |keys| && forall k :: k in keys ==> k in db
    requires Cum(keys, db, m) <= n < Cum(keys, db, m + 1)
    ensures Covered(keys, db, n) == m
    decreases m
  {
    if m > 0 {
      CoveredIs(keys[1..], db, m - 1, n - |db[keys[0]]|);
    }
  }

  /**
   * The drain loop's key state while the budget holds: the first `m` keys of `k0` are erased,
   * exactly their `drained` clauses were exported, and the other keys keep their queues.
   */
  ghost predicate Erased(k0: seq<nat>, db0: map<nat, seq<Clause>>, m: nat,
                         keys: seq<nat>, db: map<nat, seq<Clause>>, drained: nat)
    requires forall k :: k in k0 ==> k in db0
  {
    m <= |k0| && keys == k0[m..] && drained == Cum(k0, db0, m) &&
    forall k :: k in keys ==> k in db && db[k] == db0[k]
  }

  /**
   * What the drain loop establishes: `e` is the drained prefix, its length is the drain count,
   * and what is left is the rest of the contents.
   */
  lemma ExportDone(c0: seq<Clause>, d0: seq<Clause>, e: seq<Clause>, dc: seq<Clause>, rest: seq<Clause>,
                   maxLits: nat, lits: nat, count: nat, emptied: bool)
    requires Drained(c0, d0, e, dc, rest, lits, count, maxLits)
    requires emptied ==> rest == []
    requires !emptied ==> 0 < maxLits < lits
    ensures count == DrainCount(c0, maxLits)
    ensures dc == d0 + c0[..count] && rest == c0[count..]
  {
    DrainResult(c0, e, rest, maxLits, lits);
    assert c0[..|e|] == e;
  }

  /** What the drain loop establishes pins the number of exported clauses to the drain count. */
  lemma DrainResult(c0: seq<Clause>, e: seq<Clause>, rest: seq<Clause>, maxLits: nat, lits: nat)
    requires e + rest == c0 && lits == TotalLiterals(e)
    requires maxLits > 0 && |e| > 0 ==> lits - |e[|e| - 1]| <= maxLits
    requires (maxLits == 0 || lits <= maxLits) ==> rest == []
    ensures |e| == DrainCount(c0, maxLits)
  {
    assert c0[..|e|] == e;
    if |e| > 0 {
      assert c0[..|e| - 1] == e[..|e| - 1];
      assert e == e[..|e| - 1] + [e[|e| - 1]];
      TotalLiteralsSnoc(e[..|e| - 1], e[|e| - 1]);
    }
    if maxLits == 0 || lits <= maxLits {
      assert e == c0;
    }
    DrainCountUnique(c0, maxLits, |e|);
  }

  /** The ghost bookkeeping of one round of the drain loop. */
  lemma Bookkeep(d0: seq<Clause>, before: seq<Clause>, taken: seq<Clause>, dc: seq<Clause>,
                 c0: seq<Clause>, rest: seq<Clause>)
    requires dc == (d0 + before) + taken
    requires c0 == before + (taken + rest)
    ensures dc == d0 + (before + taken) && c0 == (before + taken) + rest
    ensures TotalLiterals(before + taken) == TotalLiterals(before) + TotalLiterals(taken)
    ensures |taken| > 0 ==> (before + taken)[|before + taken| - 1] == taken[|taken| - 1]
  {
    AppendAssoc(d0, before, taken);
    AppendAssoc(before, taken, rest);
    TotalLiteralsAppend(before, taken);
  }

  lemma AppendAssoc(a: seq<Clause>, b: seq<Clause>, c: seq<Clause>)
    ensures (a + b) + c == a + (b + c)
  {
  }

  /** The contents are the first key's queue followed by the other keys' queues. */
  lemma FlattenFront(keys: seq<nat>, db: map<nat, seq<Clause>>, q: seq<Clause>)
    requires StrictlyIncreasing(keys) && keys != []
    requires forall k :: k in keys ==> k in db
    ensures Flatten(keys, db[keys[0] := q]) == q + Flatten(keys[1..], db)
  {
    HeadBelow(keys);
    FlattenIgnores(keys[1..], db, db[keys[0] := q]);
  }

  /** Replacing the first key's queue `taken + q` by `q` removes `taken` from the front of the contents. */
  lemma SettleFront(keys: seq<nat>, db: map<nat, seq<Clause>>, taken: seq<Clause>, q: seq<Clause>)
    requires StrictlyIncreasing(keys) && keys != []
    requires forall k :: k in keys ==> k in db
    requires db[keys[0]] == taken + q
    ensures Flatten(keys, db) == taken + Flatten(keys, db[keys[0] := q])
    ensures |Flatten(keys, db)| == |taken| + |Flatten(keys, db[keys[0] := q])|
    ensures TotalLiterals(Flatten(keys, db)) == TotalLiterals(taken) + TotalLiterals(Flatten(keys, db[keys[0] := q]))
  {
    var rest := Flatten(keys[1..], db);
    FlattenFront(keys, db, q);
    AppendAssoc(taken, q, rest);
    TotalLiteralsAppend(taken, q + rest);
  }

  /** Erasing the first key when its queue is empty leaves the contents unchanged. */
  lemma EraseEmptyFront(keys: seq<nat>, db: map<nat, seq<Clause>>)
    requires StrictlyIncreasing(keys) && keys != []
    requires forall k :: k in keys ==> k in db
    requires db[keys[0]] == []
    ensures var db' := db - {keys[0]};
      (forall k :: k in keys[1..] ==> k in db') &&
      Flatten(keys[1..], db') == Flatten(keys, db)
    ensures StrictlyIncreasing(keys[1..])
    ensures (forall k :: k in db <==> k in keys) ==>
      forall k :: k in db - {keys[0]} <==> k in keys[1..]
  {
    var db' := db - {keys[0]};
    HeadBelow(keys);
    FlattenIgnores(keys[1..], db, db');
  }
}
