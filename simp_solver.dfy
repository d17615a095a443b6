/**
 * Pieces of the simplifying MiniSat solver (MapleCOMSPS_LRB_VSIDS_2, simp/SimpSolver.cc) that
 * variable elimination rests on: the resolvent of two clauses on a variable (merge, and its
 * counting overload), the records of eliminated clauses, extending a model over the eliminated
 * variables from those records, and the sign-pattern index of a clause used in XOR detection.
 */
module SimpElim {
  import opened SolverLits

  /** The clause with more literals first; on a tie the first argument stays first. */
  function Longer(ps0: seq<Lit>, qs0: seq<Lit>): (r: (seq<Lit>, seq<Lit>))
    ensures |r.0| >= |r.1|
    ensures (r.0 == ps0 && r.1 == qs0) || (r.0 == qs0 && r.1 == ps0)
    ensures |ps0| == |qs0| ==> r == (ps0, qs0)
  {
    if |ps0| < |qs0| then (qs0, ps0) else (ps0, qs0)
  }

  /** The position of the first literal of `ps` on variable `u`, or |ps| if there is none. */
  function FirstSameVar(ps: seq<Lit>, u: nat): (j: nat)
    ensures j <= |ps|
    ensures forall k :: 0 <= k < j ==> VarOf(ps[k]) != u
    ensures j < |ps| ==> VarOf(ps[j]) == u
  {
    if ps == [] then 0 else if VarOf(ps[0]) == u then 0 else 1 + FirstSameVar(ps[1..], u)
  }

  /** The first literal of `ps` on the variable of `l` is the complement of `l`. */
  predicate Clash(ps: seq<Lit>, l: Lit)
  {
    var j := FirstSameVar(ps, VarOf(l));
    j < |ps| && ps[j] == Negate(l)
  }

  /** Some literal of `ps` is on the variable of `l`. */
  predicate Shares(ps: seq<Lit>, l: Lit)
  {
    FirstSameVar(ps, VarOf(l)) < |ps|
  }

  /** The literals of `qs` off variable `v`, scanned in order, meet no clash with `ps`. */
  predicate Resolvable(ps: seq<Lit>, qs: seq<Lit>, v: nat)
  {
    qs == [] ||
    (Resolvable(ps, qs[..|qs| - 1], v) && (VarOf(qs[|qs| - 1]) == v || !Clash(ps, qs[|qs| - 1])))
  }

  /** The scan finds no clash exactly when no literal of `qs` off `v` clashes: the resolvent is not a tautology. */
  lemma {:induction false} ResolvableAll(ps: seq<Lit>, qs: seq<Lit>, v: nat)
    ensures Resolvable(ps, qs, v) <==> forall i :: 0 <= i < |qs| && VarOf(qs[i]) != v ==> !Clash(ps, qs[i])
  {
    if qs != [] {
      var pre := qs[..|qs| - 1];
      ResolvableAll(ps, pre, v);
      assert forall i :: 0 <= i < |pre| ==> pre[i] == qs[i];
    }
  }

  /** The literals of `qs` the resolvent takes: off `v` and on no variable of `ps`, in order. */
  function KeptShort(qs: seq<Lit>, ps: seq<Lit>, v: nat): seq<Lit>
  {
    if qs == [] then []
    else
      var l := qs[|qs| - 1];
      KeptShort(qs[..|qs| - 1], ps, v) + (if VarOf(l) != v && !Shares(ps, l) then [l] else [])
  }

  /** Every kept literal of the shorter clause is one of its literals off `v` on no variable of `ps`. */
  lemma {:induction false} KeptShortMembers(qs: seq<Lit>, ps: seq<Lit>, v: nat)
    ensures |KeptShort(qs, ps, v)| <= |qs|
    ensures forall l :: l in KeptShort(qs, ps, v) ==> l in qs && VarOf(l) != v && !Shares(ps, l)
  {
    if qs != [] {
      var pre := qs[..|qs| - 1];
      KeptShortMembers(pre, ps, v);
      assert qs == pre + [qs[|qs| - 1]];
    }
  }

  /** The literals of `ps` off variable `v`, in order. */
  function KeptLong(ps: seq<Lit>, v: nat): seq<Lit>
  {
    if ps == [] then []
    else
      var l := ps[|ps| - 1];
      KeptLong(ps[..|ps| - 1], v) + (if VarOf(l) != v then [l] else [])
  }

  /** The kept literals of the longer clause are exactly its literals off `v`. */
  lemma {:induction false} KeptLongMembers(ps: seq<Lit>, v: nat)
    ensures forall l :: l in KeptLong(ps, v) <==> l in ps && VarOf(l) != v
  {
    if ps != [] {
      var pre := ps[..|ps| - 1];
      KeptLongMembers(pre, v);
      assert ps == pre + [ps[|ps| - 1]];
    }
  }

  /** How many literals of `ps` are on variable `v`. */
  function CountVar(ps: seq<Lit>, v: nat): nat
  {
    if ps == [] then 0 else CountVar(ps[..|ps| - 1], v) + (if VarOf(ps[|ps| - 1]) == v then 1 else 0)
  }

  /** Two literals on one variable are equal or complementary. */
  lemma SameVar(a: Lit, b: Lit)
    requires VarOf(a) == VarOf(b)
    ensures a == b || a == Negate(b)
  {
  }

  /** No two literals of a clause share a variable. */
  predicate DistinctVars(ps: seq<Lit>)
  {
    forall a, b :: 0 <= a < b < |ps| ==> VarOf(ps[a]) != VarOf(ps[b])
  }

  /**
   * For a clause `ps` with distinct variables, merge's tautology test is the textbook one: it
   * fails exactly when `qs` has a literal off `v` whose complement is in `ps`.
   */
  lemma {:induction false} ClashIsComplement(ps: seq<Lit>, qs: seq<Lit>, v: nat)
    requires DistinctVars(ps)
    ensures !Resolvable(ps, qs, v) <==>
      exists i, j :: 0 <= i < |qs| && 0 <= j < |ps| && VarOf(qs[i]) != v && ps[j] == Negate(qs[i])
  {
    ResolvableAll(ps, qs, v);
    if !Resolvable(ps, qs, v) {
      var i :| 0 <= i < |qs| && VarOf(qs[i]) != v && Clash(ps, qs[i]);
      var j := FirstSameVar(ps, VarOf(qs[i]));
      assert ps[j] == Negate(qs[i]);
    }
    if exists i, j :: 0 <= i < |qs| && 0 <= j < |ps| && VarOf(qs[i]) != v && ps[j] == Negate(qs[i]) {
      var i, j :| 0 <= i < |qs| && 0 <= j < |ps| && VarOf(qs[i]) != v && ps[j] == Negate(qs[i]);
      var f := FirstSameVar(ps, VarOf(qs[i]));
      assert f == j by {
        assert VarOf(ps[j]) == VarOf(qs[i]);
      }
      assert Clash(ps, qs[i]);
    }
  }

  lemma {:induction false} KeptShortHolds(qs: seq<Lit>, ps: seq<Lit>, v: nat, l: Lit)
    requires l in qs && VarOf(l) != v && !Shares(ps, l)
    ensures l in KeptShort(qs, ps, v)
  {
    var last := qs[|qs| - 1];
    assert qs == qs[..|qs| - 1] + [last];
    if l != last {
      KeptShortHolds(qs[..|qs| - 1], ps, v, l);
    }
  }

  /**
   * The resolvent merge builds holds exactly the literals of the two clauses that are not on
   * the resolved variable (a literal both hold appears once, from the longer clause).
   */
  lemma ResolventLiterals(ps: seq<Lit>, qs: seq<Lit>, v: nat)
    requires Resolvable(ps, qs, v)
    ensures forall l :: l in KeptShort(qs, ps, v) + KeptLong(ps, v) <==> (l in ps || l in qs) && VarOf(l) != v
  {
    ResolvableAll(ps, qs, v);
    KeptShortMembers(qs, ps, v);
    KeptLongMembers(ps, v);
    forall l | l in qs && VarOf(l) != v
      ensures l in KeptShort(qs, ps, v) || l in ps
    {
      var i :| 0 <= i < |qs| && qs[i] == l;
      if Shares(ps, l) {
        var j := FirstSameVar(ps, VarOf(l));
        assert !Clash(ps, qs[i]);
        SameVar(ps[j], l);
        assert ps[j] == l;
      } else {
        KeptShortHolds(qs, ps, v, l);
      }
    }
  }

  /** The literals on `v` and those off it make up the clause. */
  lemma {:induction false} KeptLongLength(ps: seq<Lit>, v: nat)
    ensures |KeptLong(ps, v)| + CountVar(ps, v) == |ps|
  {
    if ps != [] {
      KeptLongLength(ps[..|ps| - 1], v);
    }
  }

  /**
   * When `v` occurs exactly once in the longer clause, the counting merge's size is the length
   * of the resolvent the other merge builds.
   */
  lemma SizeIsResolventLength(ps: seq<Lit>, qs: seq<Lit>, v: nat)
    requires CountVar(ps, v) == 1
    ensures |ps| - 1 + |KeptShort(qs, ps, v)| == |KeptShort(qs, ps, v) + KeptLong(ps, v)|
  {
    KeptLongLength(ps, v);
  }

  /** The i-th literal of a record, a literal code as stored in the records. */
  function Codes(c: seq<Lit>): (r: seq<nat>)
    ensures |r| == |c| && forall i :: 0 <= i < |c| ==> r[i] == c[i].x
  {
    seq(|c|, i requires 0 <= i < |c| => c[i].x)
  }

  /** The last position of a literal on `v` in `c`, or -1 if there is none. */
  function LastVarPos(c: seq<Lit>, v: nat): (k: int)
    ensures -1 <= k < |c|
    ensures k >= 0 ==> VarOf(c[k]) == v
    ensures forall i :: k < i < |c| ==> VarOf(c[i]) != v
  {
    if c == [] then -1
    else if VarOf(c[|c| - 1]) == v then |c| - 1
    else LastVarPos(c[..|c| - 1], v)
  }

  /** The record of an eliminated clause: its literal codes with the one on `v` swapped to the front, then its length. */
  function ElimRecord(c: seq<Lit>, v: nat): seq<nat>
    requires LastVarPos(c, v) >= 0
  {
    var k := LastVarPos(c, v);
    var codes := Codes(c);
    codes[k := codes[0]][0 := codes[k]] + [|c|]
  }

  /** A record is the clause's literals, a literal on `v` first, followed by the length. */
  lemma ElimRecordShape(c: seq<Lit>, v: nat)
    requires LastVarPos(c, v) >= 0
    ensures var r := ElimRecord(c, v);
      |r| == |c| + 1 && r[|c|] == |c| && VarOf(Lit(r[0])) == v &&
      multiset(r[..|c|]) == multiset(Codes(c))
  {
    var k := LastVarPos(c, v);
    var codes := Codes(c);
    var r := ElimRecord(c, v);
    assert r[..|c|] == codes[k := codes[0]][0 := codes[k]];
    if k != 0 {
      SwapPermutes(codes, k);
    }
  }

  lemma SwapPermutes(codes: seq<nat>, k: nat)
    requires 0 < k < |codes|
    ensures multiset(codes[k := codes[0]][0 := codes[k]]) == multiset(codes)
  {
    var a, b, m, z := [codes[0]], codes[1..k], [codes[k]], codes[k + 1..];
    assert codes == a + b + m + z;
    assert codes[k := codes[0]][0 := codes[k]] == m + b + a + z;
  }

  /** Appending the record of a clause on variables below `nv` keeps a sequence of records well-formed. */
  lemma ElimRecordAppends(c: seq<Lit>, v: nat, e: seq<nat>, nv: nat)
    requires LastVarPos(c, v) >= 0 && Records(e, nv) && forall l :: l in c ==> VarOf(l) < nv
    ensures Records(e + ElimRecord(c, v), nv)
  {
    ElimRecordShape(c, v);
    var r := ElimRecord(c, v);
    var codes := Codes(c);
    var e' := e + r;
    assert e'[..|e'| - 1 - |c|] == e;
    forall i | |e'| - 1 - |c| <= i < |e'| - 1
      ensures e'[i] / 2 < nv
    {
      assert e'[i] == r[i - |e|];
      assert e'[i] in multiset(codes);
      var m :| 0 <= m < |c| && codes[m] == e'[i];
      assert c[m] in c;
    }
  }

  /** mkElimClause for a unit: the literal's code, then the length 1. */
  method MkElimUnit(elimclauses: seq<nat>, x: Lit) returns (e: seq<nat>)
    ensures e == elimclauses + [x.x, 1]
    ensures forall nv :: Records(elimclauses, nv) && VarOf(x) < nv ==> Records(e, nv)
  {
    e := elimclauses + [x.x];
    e := e + [1];
    forall nv | Records(elimclauses, nv) && VarOf(x) < nv
      ensures Records(e, nv)
    {
      assert e[..|e| - 2] == elimclauses;
    }
  }

  /**
   * mkElimClause for a clause: the literal codes are copied, the position of the (last)
   * literal on `v` remembered, that literal swapped with the first, and the length appended.
   */
  method MkElimClause(elimclauses: seq<nat>, v: nat, c: seq<Lit>) returns (e: seq<nat>)
    requires exists i :: 0 <= i < |c| && VarOf(c[i]) == v
    ensures LastVarPos(c, v) >= 0 && e == elimclauses + ElimRecord(c, v)
  {
    var first := |elimclauses|;
    var vPos := -1;
    e := elimclauses;
    var i := 0;
    while i < |c|
      invariant 0 <= i <= |c| && e == elimclauses + Codes(c[..i])
      invariant vPos == (if LastVarPos(c[..i], v) < 0 then -1 else first + LastVarPos(c[..i], v))
    {
      assert c[..i + 1][..i] == c[..i];
      e := e + [c[i].x];
      if VarOf(c[i]) == v {
        vPos := i + first;
      }
      i := i + 1;
    }
    assert c[..|c|] == c;
    var k :| 0 <= k < |c| && VarOf(c[k]) == v;
    assert LastVarPos(c, v) >= k;
    var tmp := e[vPos];
    e := e[vPos := e[first]];
    e := e[first := tmp];
    e := e + [|c|];
    assert e == elimclauses + ElimRecord(c, v);
  }

  /** The layout of a sequence of records: read from the back, each is its length n >= 1 preceded by n entries. */
  predicate Shape(e: seq<nat>)
    decreases |e|
  {
    e == [] || (var n := e[|e| - 1]; 1 <= n < |e| && Shape(e[..|e| - 1 - n]))
  }

  lemma {:induction false} RecordsShape(e: seq<nat>, nv: nat)
    requires Records(e, nv)
    ensures Shape(e)
    decreases |e|
  {
    if e != [] {
      RecordsShape(e[..|e| - 1 - e[|e| - 1]], nv);
    }
  }

  /**
   * A well-formed sequence of records over `nv` variables: read from the back, each record is
   * its length n >= 1 preceded by n literal codes on variables below `nv`.
   */
  predicate Records(e: seq<nat>, nv: nat)
    decreases |e|
  {
    e == [] ||
    (var n := e[|e| - 1];
     1 <= n < |e| && (forall i :: |e| - 1 - n <= i < |e| - 1 ==> e[i] / 2 < nv) && Records(e[..|e| - 1 - n], nv))
  }

  /** The value a model gets when the first literal of a record is made true. */
  function MakeTrue(l: Lit): LBool
  {
    if Sign(l) then LFalse else LTrue
  }

  /**
   * modelValue: the model's value of a literal. Records over the model's variables only ask
   * for variables in range; any other variable reads as unassigned.
   */
  function ValueAt(model: seq<LBool>, l: Lit): (b: LBool)
    ensures VarOf(l) < |model| ==> b == LitValue(model, l)
  {
    if VarOf(l) < |model| then LitValue(model, l) else LUndef
  }

  /** Every literal of a record but the first is false in the model. */
  predicate RestFalse(model: seq<LBool>, rec: seq<nat>)
  {
    forall i :: 1 <= i < |rec| ==> ValueAt(model, Lit(rec[i])) == LFalse
  }

  /** One record applied: if every literal but the first is false, the first one is made true. */
  function Apply(model: seq<LBool>, rec: seq<nat>): (m: seq<LBool>)
    requires |rec| >= 1
    ensures |m| == |model|
  {
    var x := Lit(rec[0]);
    if RestFalse(model, rec) && VarOf(x) < |model| then model[VarOf(x) := MakeTrue(x)] else model
  }

  /** extendModel: the records applied from the last to the first. */
  function Extended(model: seq<LBool>, e: seq<nat>): (m: seq<LBool>)
    requires Shape(e)
    ensures |m| == |model|
    decreases |e|
  {
    if e == [] then model
    else
      var n := e[|e| - 1];
      Extended(Apply(model, e[|e| - 1 - n..|e| - 1]), e[..|e| - 1 - n])
  }

  /**
   * After a record is applied to a model that gives each of its variables a value, the
   * record's clause holds, and only the first literal's variable may have changed.
   */
  lemma ApplySatisfies(model: seq<LBool>, rec: seq<nat>)
    requires |rec| >= 1 && forall i :: 0 <= i < |rec| ==> rec[i] / 2 < |model|
    requires forall i :: 0 <= i < |rec| ==> model[rec[i] / 2] != LUndef
    ensures exists i :: 0 <= i < |rec| && LitValue(Apply(model, rec), Lit(rec[i])) == LTrue
    ensures forall u :: 0 <= u < |model| && u != VarOf(Lit(rec[0])) ==> Apply(model, rec)[u] == model[u]
  {
    if RestFalse(model, rec) {
      assert LitValue(Apply(model, rec), Lit(rec[0])) == LTrue;
    } else {
      var i :| 1 <= i < |rec| && ValueAt(model, Lit(rec[i])) != LFalse;
      assert LitValue(model, Lit(rec[i])) == LTrue;
    }
  }

  /** The last record of a well-formed prefix `e[..i + 1]`: its length, its first literal's range and what precedes it. */
  lemma RecordsTop(e: seq<nat>, i: nat, nv: nat)
    requires i < |e| && Records(e[..i + 1], nv)
    ensures 1 <= e[i] <= i && Records(e[..i - e[i]], nv) && e[i - e[i]] / 2 < nv
  {
    var p := e[..i + 1];
    assert p[..|p| - 1 - e[i]] == e[..i - e[i]];
    assert p[i - e[i]] == e[i - e[i]];
  }

  /** Extending over a prefix `e[..i + 1]` of records applies its last record first. */
  lemma ExtendedTop(model: seq<LBool>, e: seq<nat>, i: nat)
    requires i < |e| && Shape(e[..i + 1])
    ensures 1 <= e[i] <= i && Shape(e[..i - e[i]])
    ensures Extended(model, e[..i + 1]) == Extended(Apply(model, e[i - e[i]..i]), e[..i - e[i]])
  {
    var p := e[..i + 1];
    var n := e[i];
    assert p[|p| - 1] == n;
    assert p[..|p| - 1 - n] == e[..i - n];
    assert p[|p| - 1 - n..|p| - 1] == e[i - n..i];
  }

  /** One more literal of the shorter clause scanned: how the kept literals and the test grow. */
  lemma ScanStep(ps: seq<Lit>, qs: seq<Lit>, v: nat, i: nat)
    requires i < |qs|
    ensures var l := qs[i];
      KeptShort(qs[..i + 1], ps, v) == KeptShort(qs[..i], ps, v) + (if VarOf(l) != v && !Shares(ps, l) then [l] else [])
    ensures var l := qs[i];
      Resolvable(ps, qs[..i + 1], v) <==> Resolvable(ps, qs[..i], v) && (VarOf(l) == v || !Clash(ps, l))
  {
    assert qs[..i + 1][..i] == qs[..i];
  }

  /** A clash off `v` anywhere in `qs` makes the clauses unresolvable. */
  lemma ClashBlocks(ps: seq<Lit>, qs: seq<Lit>, v: nat, i: nat)
    requires i < |qs| && VarOf(qs[i]) != v && Clash(ps, qs[i])
    ensures !Resolvable(ps, qs, v)
  {
    ResolvableAll(ps, qs, v);
  }

  /** One more literal of the longer clause scanned. */
  lemma KeepStep(ps: seq<Lit>, v: nat, i: nat)
    requires i < |ps|
    ensures KeptLong(ps[..i + 1], v) == KeptLong(ps[..i], v) + (if VarOf(ps[i]) != v then [ps[i]] else [])
  {
    assert ps[..i + 1][..i] == ps[..i];
  }

  /**
   * The inner loop of both merges: the longer clause is scanned for the first literal on the
   * variable of `l`; `shared` tells whether there is one and `j` is its position.
   */
  method ScanSameVar(ps: seq<Lit>, l: Lit) returns (j: int, shared: bool)
    ensures shared <==> Shares(ps, l)
    ensures shared ==> j == FirstSameVar(ps, VarOf(l)) && (ps[j] == Negate(l) <==> Clash(ps, l))
  {
    j := 0;
    shared := false;
    while j < |ps| && !shared
      invariant 0 <= j <= |ps|
      invariant forall k :: 0 <= k < j ==> VarOf(ps[k]) != VarOf(l)
      invariant shared ==> j < |ps| && VarOf(ps[j]) == VarOf(l)
      decreases |ps| - j, if shared then 0 else 1
    {
      if VarOf(ps[j]) == VarOf(l) {
        shared := true;
      } else {
        j := j + 1;
      }
    }
  }

  /**
   * The body of merge: the resolvent of `ps0` and `qs0` on `v`. It fails exactly when the
   * clauses clash off `v`; otherwise the resolvent is the shorter clause's kept literals, then
   * the longer clause's literals off `v`.
   */
  method Resolve(ps0: seq<Lit>, qs0: seq<Lit>, v: nat) returns (ok: bool, out: seq<Lit>)
    ensures var (ps, qs) := Longer(ps0, qs0);
      (ok <==> Resolvable(ps, qs, v)) && (ok ==> out == KeptShort(qs, ps, v) + KeptLong(ps, v))
  {
    var psSmallest := |ps0| < |qs0|;
    var ps := if psSmallest then qs0 else ps0;
    var qs := if psSmallest then ps0 else qs0;
    assert (ps, qs) == Longer(ps0, qs0);
    ok, out := ScanShort(ps, qs, v);
    if ok {
      out := AppendKept(out, ps, v);
    }
  }

  /** The first loop of merge: the literals of the shorter clause `qs` the resolvent keeps, or a clash. */
  method ScanShort(ps: seq<Lit>, qs: seq<Lit>, v: nat) returns (ok: bool, out: seq<Lit>)
    ensures (ok <==> Resolvable(ps, qs, v)) && (ok ==> out == KeptShort(qs, ps, v))
  {
    out := [];
    var i := 0;
    while i < |qs|
      invariant 0 <= i <= |qs| && out == KeptShort(qs[..i], ps, v) && Resolvable(ps, qs[..i], v)
    {
      ScanStep(ps, qs, v, i);
      if VarOf(qs[i]) != v {
        var j, shared := ScanSameVar(ps, qs[i]);
        if shared && ps[j] == Negate(qs[i]) {
          ok := false;
          ClashBlocks(ps, qs, v, i);
          return;
        }
        if !shared {
          out := out + [qs[i]];
        }
      }
      i := i + 1;
    }
    assert qs[..|qs|] == qs;
    ok := true;
  }

  /** The second loop of merge: the literals of the longer clause `ps` off `v` appended to `out0`. */
  method AppendKept(out0: seq<Lit>, ps: seq<Lit>, v: nat) returns (out: seq<Lit>)
    ensures out == out0 + KeptLong(ps, v)
  {
    out := out0;
    var i := 0;
    while i < |ps|
      invariant 0 <= i <= |ps| && out == out0 + KeptLong(ps[..i], v)
    {
      KeepStep(ps, v, i);
      if VarOf(ps[i]) != v {
        out := out + [ps[i]];
      }
      i := i + 1;
    }
    assert ps[..|ps|] == ps;
  }

  /**
   * The body of the counting merge: the same test, and the size of the resolvent counted as
   * the longer clause's length less one plus the shorter clause's kept literals.
   */
  method ResolventSize(ps0: seq<Lit>, qs0: seq<Lit>, v: nat) returns (ok: bool, size: int)
    ensures var (ps, qs) := Longer(ps0, qs0);
      (ok <==> Resolvable(ps, qs, v)) && (ok ==> size == |ps| - 1 + |KeptShort(qs, ps, v)|)
  {
    var psSmallest := |ps0| < |qs0|;
    var ps := if psSmallest then qs0 else ps0;
    var qs := if psSmallest then ps0 else qs0;
    assert (ps, qs) == Longer(ps0, qs0);
    ok, size := CountShort(ps, qs, v, |ps| - 1);
  }

  /** The loop of the counting merge: `size0` plus one for each literal of `qs` the resolvent keeps, or a clash. */
  method CountShort(ps: seq<Lit>, qs: seq<Lit>, v: nat, size0: int) returns (ok: bool, size: int)
    ensures (ok <==> Resolvable(ps, qs, v)) && (ok ==> size == size0 + |KeptShort(qs, ps, v)|)
  {
    size := size0;
    ghost var kept: seq<Lit> := [];
    var i := 0;
    while i < |qs|
      invariant 0 <= i <= |qs| && kept == KeptShort(qs[..i], ps, v) && Resolvable(ps, qs[..i], v)
      invariant size == size0 + |kept|
    {
      ScanStep(ps, qs, v, i);
      if VarOf(qs[i]) != v {
        var j, shared := ScanSameVar(ps, qs[i]);
        if shared && ps[j] == Negate(qs[i]) {
          ok := false;
          ClashBlocks(ps, qs, v, i);
          return;
        }
        if !shared {
          size := size + 1;
          kept := kept + [qs[i]];
        }
      }
      i := i + 1;
    }
    assert qs[..|qs|] == qs;
    ok := true;
  }

  /**
   * The body of extendModel over a model `m0`: the records are walked from the last to the
   * first; for each, the literals after the first are checked from the back, and if none is
   * other than false, the first literal's variable is set to make it true.
   */
  method ExtendOver(m0: seq<LBool>, e: seq<nat>) returns (m: seq<LBool>)
    requires Records(e, |m0|)
    ensures Shape(e) && m == Extended(m0, e)
  {
    m := m0;
    var i: int := |e| - 1;
    assert e[..i + 1] == e;
    RecordsShape(e, |m|);
    while i > 0
      invariant -1 <= i < |e| && |m| == |m0|
      invariant Records(e[..i + 1], |m|) && Shape(e[..i + 1])
      invariant Extended(m, e[..i + 1]) == Extended(m0, e)
      decreases i
    {
      RecordsTop(e, i, |m|);
      ExtendedTop(m, e, i);
      m, i := ApplyRecord(m, e, i);
    }
    if i == 0 {
      assert false;
    }
    assert e[..i + 1] == [];
  }

  /**
   * One pass of extendModel's outer loop over the record ending at `i0`: its literals after the
   * first are scanned from the back, and if none is other than false the first literal's
   * variable is set to make it true; `i` is then the end of the record before it.
   */
  method ApplyRecord(m0: seq<LBool>, e: seq<nat>, i0: int) returns (m: seq<LBool>, i: int)
    requires 0 < i0 < |e| && 1 <= e[i0] <= i0 && e[i0 - e[i0]] / 2 < |m0|
    ensures m == Apply(m0, e[i0 - e[i0]..i0]) && i == i0 - e[i0] - 1
  {
    m := m0;
    ghost var s := i0 - e[i0];
    var j := e[i0];
    i := i0 - 1;
    var sat;
    sat, i, j := ScanRecord(m, e, i, j, s);
    if !sat {
      var x := Lit(e[i]);
      m := m[VarOf(x) := MakeTrue(x)];
    }
    i := i - j;
  }

  /** The elimination state of the solver: the merge counter, the records and the model. */
  class SimpSolver {
    var merges: nat
    var elimclauses: seq<nat>
    var model: seq<LBool>

    constructor (nVars: nat)
      ensures merges == 0 && elimclauses == [] && |model| == nVars
    {
      merges := 0;
      elimclauses := [];
      model := seq(nVars, _ => LUndef);
    }

    /** merge: counts one merge and builds the resolvent. */
    method Merge(ps0: seq<Lit>, qs0: seq<Lit>, v: nat) returns (ok: bool, out: seq<Lit>)
      modifies this
      ensures merges == old(merges) + 1 && elimclauses == old(elimclauses) && model == old(model)
      ensures var (ps, qs) := Longer(ps0, qs0);
        (ok <==> Resolvable(ps, qs, v)) && (ok ==> out == KeptShort(qs, ps, v) + KeptLong(ps, v))
    {
      merges := merges + 1;
      ok, out := Resolve(ps0, qs0, v);
    }

    /** merge, counting overload: counts one merge and the size of the resolvent. */
    method MergeSize(ps0: seq<Lit>, qs0: seq<Lit>, v: nat) returns (ok: bool, size: int)
      modifies this
      ensures merges == old(merges) + 1 && elimclauses == old(elimclauses) && model == old(model)
      ensures var (ps, qs) := Longer(ps0, qs0);
        (ok <==> Resolvable(ps, qs, v)) && (ok ==> size == |ps| - 1 + |KeptShort(qs, ps, v)|)
    {
      merges := merges + 1;
      ok, size := ResolventSize(ps0, qs0, v);
    }

    /** extendModel: the model extended over the eliminated variables from the records. */
    method ExtendModel()
      requires Records(elimclauses, |model|)
      modifies this
      ensures merges == old(merges) && elimclauses == old(elimclauses)
      ensures Shape(elimclauses) && model == Extended(old(model), elimclauses)
    {
      model := ExtendOver(model, elimclauses);
    }
  }

  /**
   * The inner loop of extendModel over the record `e[s..s + j]`: from the back, it stops at the
   * first literal after the first that is not false; if there is none it ends on the first
   * literal. Either way `i - j` is then the position before the record.
   */
  method ScanRecord(m: seq<LBool>, e: seq<nat>, i0: int, j0: int, ghost s: int) returns (sat: bool, i: int, j: int)
    requires 0 <= s && 1 <= j0 && s + j0 <= |e| && i0 == s + j0 - 1
    ensures sat <==> !RestFalse(m, e[s..s + j0])
    ensures i - j == s - 1 && (!sat ==> i == s)
  {
    ghost var rec := e[s..s + j0];
    assert forall k :: 0 <= k < |rec| ==> rec[k] == e[s + k];
    i, j := i0, j0;
    sat := false;
    while j > 1 && !sat
      invariant 1 <= j <= j0 && i == s + j - 1
      invariant forall k :: j <= k < j0 ==> ValueAt(m, Lit(rec[k])) == LFalse
      invariant sat ==> j > 1 && ValueAt(m, Lit(rec[j - 1])) != LFalse
      decreases j, if sat then 0 else 1
    {
      if ValueAt(m, Lit(e[i])) != LFalse {
        sat := true;
      } else {
        j := j - 1;
        i := i - 1;
      }
    }
  }

  /** Powers of two. */
  function Pow2(n: nat): (p: nat)
    ensures p >= 1
  {
    if n == 0 then 1 else 2 * Pow2(n - 1)
  }

  /** The sign pattern of a clause: bit i is set for a negative i-th literal. */
  function SignBits(ls: seq<Lit>): (b: nat)
  {
    if ls == [] then 0 else SignBits(ls[..|ls| - 1]) + (if Sign(ls[|ls| - 1]) then Pow2(|ls| - 1) else 0)
  }

  /** A clause's literals in ascending order of their codes. */
  predicate SortedCopy(c: seq<Lit>, sorted: seq<Lit>)
  {
    multiset(c) == multiset(sorted) && forall a, b :: 0 <= a < b < |sorted| ==> sorted[a].x <= sorted[b].x
  }

  /**
   * toDupMarkerIdx: over the sorted copy of the clause, bit i of the index is set for a
   * negative i-th literal. Bit i is still clear when it is set (the index is below 2^i then),
   * so the `|=` of the source adds 2^i.
   */
  method ToDupMarkerIdx(c: seq<Lit>, sorted: seq<Lit>) returns (idx: nat)
    requires SortedCopy(c, sorted)
    ensures idx == SignBits(sorted)
  {
    idx := 0;
    var i := 0;
    while i < |sorted|
      invariant 0 <= i <= |sorted| && idx == SignBits(sorted[..i])
    {
      assert sorted[..i + 1][..i] == sorted[..i];
      if Sign(sorted[i]) {
        idx := idx + Pow2(i);
      }
      i := i + 1;
    }
    assert sorted[..|sorted|] == sorted;
  }

  /** The sign pattern stays below 2^|ls|. */
  lemma {:induction false} SignBitsBound(ls: seq<Lit>)
    ensures SignBits(ls) < Pow2(|ls|)
  {
    if ls != [] {
      SignBitsBound(ls[..|ls| - 1]);
    }
  }

  /** Bit i of the sign pattern is set exactly when the i-th literal is negative. */
  lemma {:induction false} SignBitsTest(ls: seq<Lit>, i: nat)
    requires i < |ls|
    ensures (SignBits(ls) / Pow2(i)) % 2 == 1 <==> Sign(ls[i])
  {
    var pre := ls[..|ls| - 1];
    SignBitsBound(pre);
    if i == |ls| - 1 {
      var b := SignBits(pre);
      var q := if Sign(ls[i]) then 1 else 0;
      assert SignBits(ls) == b + Pow2(i) * q;
      DivAdd(b, Pow2(i), q);
    } else {
      SignBitsTest(pre, i);
      assert pre[i] == ls[i];
      Pow2Split(i, |ls| - 1);
      HighBit(SignBits(pre), Pow2(i), Pow2(|ls| - 1), Pow2(|ls| - 1 - i), Sign(ls[|ls| - 1]));
    }
  }

  /** Below 2^i, adding q * 2^i gives quotient q. */
  lemma DivAdd(b: nat, p: nat, q: nat)
    requires b < p
    ensures (b + p * q) / p == q
  {
    DivUnique(b + p * q, p, q, b);
  }

  /** The quotient and remainder are the only ones with a remainder in range. */
  lemma DivUnique(a: int, p: int, q: int, r: int)
    requires p > 0 && 0 <= r < p && a == p * q + r
    ensures a / p == q && a % p == r
  {
    var q', r' := a / p, a % p;
    assert (q - q') * p == r' - r;
    LtCancel(q - q', 1, p);
    LtCancel(-1, q - q', p);
  }

  /** Cancelling a positive factor keeps a strict order. */
  lemma LtCancel(a: int, b: int, g: int)
    requires g > 0 && a * g < b * g
    ensures a < b
  {
    assert (b - a) * g > 0;
  }

  lemma {:induction false} Pow2Split(i: nat, n: nat)
    requires i < n
    ensures Pow2(n) == Pow2(i) * Pow2(n - i) && Pow2(n - i) % 2 == 0
    decreases n
  {
    if i < n - 1 {
      Pow2Split(i, n - 1);
      assert Pow2(n) == 2 * (Pow2(i) * Pow2(n - 1 - i));
    }
  }

  /** Adding an even multiple of p keeps the parity of the quotient by p. */
  lemma AddHigh(b: nat, p: nat, m: nat)
    requires p >= 1 && m % 2 == 0
    ensures ((b + p * m) / p) % 2 == (b / p) % 2
  {
    assert b + p * m == p * (b / p + m) + b % p;
    DivUnique(b + p * m, p, b / p + m, b % p);
  }

  /** Adding, or not, a higher power q = p * d with d even keeps the parity of the quotient by p. */
  lemma HighBit(b: nat, p: nat, q: nat, d: nat, on: bool)
    requires p >= 1 && q == p * d && d % 2 == 0
    ensures ((b + (if on then q else 0)) / p) % 2 == (b / p) % 2
  {
    if on {
      AddHigh(b, p, d);
    }
  }

  /** Only clauses of at most this many literals are XOR candidates. */
  const MaxXorSizeLimit: nat := 6

  /** The index of an XOR candidate fits the duplicate table of 2^6 entries. */
  lemma DupTableFits(ls: seq<Lit>)
    requires |ls| <= MaxXorSizeLimit
    ensures SignBits(ls) < 64
  {
    SignBitsBound(ls);
    Pow2Mono(|ls|, MaxXorSizeLimit);
  }

  lemma {:induction false} Pow2Mono(m: nat, n: nat)
    requires m <= n
    ensures Pow2(m) <= Pow2(n)
    decreases n
  {
    if m < n {
      Pow2Mono(m, n - 1);
    }
  }
}
