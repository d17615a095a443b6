/**
 * The Kissat worker (solvers/KissatWrapper.cpp and solvers/KissatWrapper.h): the option
 * settings that diversify the workers, the export test and the export itself, the mapping of
 * Kissat's answer, and reading a model back; and the C entry points that forward the export
 * calls of Kissat to it (solvers/DPS_C_API.cpp).
 */
module KissatWrap {
  import opened Clauses
  import opened Buffer
  import SatModel

  /** C's `%` on int: truncating division, so the remainder takes the sign of the dividend. */
  function CRem(a: int, b: int): (r: int)
    requires b != 0
    ensures (if r < 0 then -r else r) < (if b < 0 then -b else b)
    ensures a >= 0 && b > 0 ==> r == a % b
  {
    var m := if b < 0 then -b else b;
    if a >= 0 then a % m else -((-a) % m)
  }

  /** C's `/` on int: truncation toward zero. */
  function CDiv(a: int, b: int): (q: int)
    requires b != 0
    ensures a >= 0 && b > 0 ==> q == a / b
  {
    var m := if b < 0 then -b else b;
    var q := if a >= 0 then a / m else -((-a) / m);
    if b < 0 then -q else q
  }

  /** gcd: Euclid's algorithm with C's remainder. */
  function Gcd(a: int, b: int): int
    requires b != 0
    decreases if b < 0 then -b else b
  {
    if CRem(a, b) == 0 then b else Gcd(b, CRem(a, b))
  }

  /** A sum of multiples of `d` is a multiple of `d`. */
  lemma MultipleSum(d: int, x: int, y: int, k: int)
    requires d > 0 && x % d == 0 && y % d == 0
    ensures (x + y * k) % d == 0 && (x - y * k) % d == 0
  {
    var p, q := x / d, y / d;
    assert x == d * p && y == d * q;
    assert x + y * k == d * (p + q * k);
    assert x - y * k == d * (p - q * k);
    MultipleMod(d, p + q * k);
    MultipleMod(d, p - q * k);
  }

  lemma MultipleMod(d: int, k: int)
    requires d > 0
    ensures (d * k) % d == 0
  {
    var q, r := (d * k) / d, (d * k) % d;
    assert r == (k - q) * d;
    LtCancel(k - q, 1, d);
    LtCancel(-1, k - q, d);
  }

  /** Cancelling a positive factor keeps a strict order. */
  lemma LtCancel(a: int, b: int, g: int)
    requires g > 0 && a * g < b * g
    ensures a < b
  {
    assert (b - a) * g > 0;
  }

  /** On non-negative operands, gcd is Euclid's algorithm with the mathematical remainder. */
  lemma GcdStep(a: nat, b: nat)
    requires b > 0
    ensures Gcd(a, b) == if a % b == 0 then b else Gcd(b, a % b)
  {
  }

  /** The remainder is the dividend less a multiple of the divisor. */
  lemma Division(a: nat, b: nat)
    requires b > 0
    ensures a == a % b + b * (a / b)
  {
  }

  /**
   * For a >= 0 and b > 0, gcd gives the greatest common divisor: a positive divisor of both
   * that every common divisor divides.
   */
  lemma {:induction false} GcdIsGreatest(a: nat, b: nat)
    requires b > 0
    ensures Gcd(a, b) > 0 && a % Gcd(a, b) == 0 && b % Gcd(a, b) == 0
    ensures forall d :: d > 0 && a % d == 0 && b % d == 0 ==> Gcd(a, b) % d == 0
    decreases b
  {
    GcdStep(a, b);
    var r := a % b;
    if r == 0 {
      assert b % b == 0 by {
        MultipleMod(b, 1);
      }
    } else {
      GcdIsGreatest(b, r);
      var g := Gcd(b, r);
      Division(a, b);
      MultipleSum(g, r, b, a / b);
      forall d | d > 0 && a % d == 0 && b % d == 0
        ensures r % d == 0
      {
        MultipleSum(d, a, b, a / b);
      }
    }
  }

  /** The figure of the options' example: gcd(0, 100) is 100. */
  lemma GcdOfZero()
    ensures Gcd(0, 100) == 100
  {
  }

  /**
   * The share of workers that eliminate, as a fraction num/dem of `ksElim`/100 reduced by their
   * gcd; for a share within 0 .. 99 it is in lowest terms with 0 <= num < dem.
   */
  function ElimFraction(ksElim: int): (f: (int, int))
    ensures 0 <= ksElim < 100 ==> 0 <= f.0 < f.1 && ksElim * f.1 == f.0 * 100
  {
    var div := Gcd(ksElim, 100);
    assert div != 0 by {
      GcdNonZero(ksElim, 100);
    }
    if 0 <= ksElim < 100 then
      ReducedBy(ksElim, 100);
      (CDiv(ksElim, div), CDiv(100, div))
    else
      (CDiv(ksElim, div), CDiv(100, div))
  }

  /** Dividing a share below `n` and `n` by their gcd keeps the ratio and the order. */
  lemma ReducedBy(e: nat, n: nat)
    requires e < n
    ensures var g := Gcd(e, n);
      g > 0 && 0 <= e / g < n / g && e * (n / g) == (e / g) * n
  {
    GcdIsGreatest(e, n);
    var g := Gcd(e, n);
    var num, dem := e / g, n / g;
    Division(e, g);
    Division(n, g);
    assert e == num * g && n == dem * g;
    LtCancel(num, dem, g);
    LtCancel(-1, num, g);
    assert e * dem == num * n by {
      assert e * dem == num * g * dem;
      assert num * n == num * (dem * g);
      assert num * (dem * g) == num * g * dem;
    }
  }

  lemma {:induction false} GcdNonZero(a: int, b: int)
    requires b != 0
    ensures Gcd(a, b) != 0
    decreases if b < 0 then -b else b
  {
    if CRem(a, b) != 0 {
      GcdNonZero(b, CRem(a, b));
    }
  }

  /** Whether worker `id` eliminates: its remainder modulo `dem` is below `num`. */
  function Eliminates(id: nat, ksElim: int): bool
  {
    var (num, dem) := ElimFraction(ksElim);
    dem != 0 && CRem(id, dem) < num
  }

  /** How many of the `k` workers from `s` on eliminate. */
  function CountElim(s: nat, k: nat, ksElim: int): nat
  {
    if k == 0 then 0 else CountElim(s, k - 1, ksElim) + (if Eliminates(s + k - 1, ksElim) then 1 else 0)
  }

  /** For a share within 0 .. 99, worker `id` eliminates when its remainder modulo `dem` is below `num`. */
  lemma FractionTest(ksElim: int)
    requires 0 <= ksElim < 100
    ensures var (num, dem) := ElimFraction(ksElim);
      forall id: nat :: Eliminates(id, ksElim) <==> id % dem < num
  {
  }

  /** How many of the `k` ids from `s` on leave a remainder below `num` modulo `dem`. */
  function CountBelow(s: nat, k: nat, num: int, dem: int): nat
    requires dem > 0
  {
    if k == 0 then 0 else CountBelow(s, k - 1, num, dem) + (if (s + k - 1) % dem < num then 1 else 0)
  }

  /** Splitting off the first id of a window. */
  lemma {:induction false} CountFront(s: nat, k: nat, num: int, dem: int)
    requires dem > 0
    ensures CountBelow(s, k + 1, num, dem) == (if s % dem < num then 1 else 0) + CountBelow(s + 1, k, num, dem)
    decreases k
  {
    if k > 0 {
      CountFront(s, k - 1, num, dem);
    }
  }

  /** Among the first `k <= dem` ids, those below `num` are counted. */
  lemma {:induction false} CountFromZero(k: nat, num: int, dem: int)
    requires 0 <= num <= dem && 0 < dem && k <= dem
    ensures CountBelow(0, k, num, dem) == if k < num then k else num
    decreases k
  {
    if k > 0 {
      CountFromZero(k - 1, num, dem);
      assert (k - 1) / dem == 0;
    }
  }

  lemma ModShift(x: nat, d: int)
    requires d > 0
    ensures (x + d) % d == x % d
  {
    Division(x, d);
    Division(x + d, d);
    var q, q' := x / d, (x + d) / d;
    var r, r' := x % d, (x + d) % d;
    assert r' - r == (q + 1 - q') * d;
    LtCancel(q + 1 - q', 1, d);
    LtCancel(-1, q + 1 - q', d);
  }

  /** Any `dem` consecutive ids hold exactly `num` whose remainder is below `num`. */
  lemma {:induction false} WindowCount(s: nat, num: int, dem: int)
    requires 0 <= num <= dem && dem > 0
    ensures CountBelow(s, dem, num, dem) == num
    decreases s
  {
    if s == 0 {
      CountFromZero(dem, num, dem);
    } else {
      WindowCount(s - 1, num, dem);
      CountFront(s - 1, dem, num, dem);
      ModShift(s - 1, dem);
    }
  }

  lemma {:induction false} CountElimBelow(s: nat, k: nat, ksElim: int)
    requires 0 <= ksElim < 100
    ensures CountElim(s, k, ksElim) == CountBelow(s, k, ElimFraction(ksElim).0, ElimFraction(ksElim).1)
  {
    FractionTest(ksElim);
    if k > 0 {
      CountElimBelow(s, k - 1, ksElim);
    }
  }

  /**
   * With a share of 0 .. 99, exactly `num` of any `dem` consecutive workers eliminate, where
   * num/dem is the share in lowest terms, so the proportion that eliminates is the share.
   */
  lemma ElimShare(s: nat, ksElim: int)
    requires 0 <= ksElim < 100
    ensures var (num, dem) := ElimFraction(ksElim);
      0 <= num < dem && ksElim * dem == num * 100 && CountElim(s, dem, ksElim) == num
  {
    var (num, dem) := ElimFraction(ksElim);
    CountElimBelow(s, dem, ksElim);
    WindowCount(s, num, dem);
  }

  /** A share of 50 makes exactly the even workers eliminate. */
  lemma HalfElim(id: nat)
    ensures Eliminates(id, 50) <==> id % 2 == 0
  {
    FractionTest(50);
    assert Gcd(50, 100) == 50;
  }

  /** The stable option: a value below 4 verbatim; 4, the mix mode, cycles through 1, 2, 0 by worker. */
  function StableFor(id: nat, ksStable: int): (v: int)
    ensures ksStable < 4 ==> v == ksStable
    ensures ksStable >= 4 ==> 0 <= v < 3 && v == (id + 1) % 3
  {
    if ksStable < 4 then ksStable else (id + 1) % 3
  }

  /** One row of the PaKis settings. */
  datatype PaKisParam = PaKisParam(tier1: nat, chrono: nat, stable: nat, walkinitially: nat, target: nat, phase: nat)

  /** The 24 PaKis rows, in table order. */
  const PaKisParams: seq<PaKisParam> := [
    PaKisParam(2, 1, 1, 0, 1, 1),
    PaKisParam(2, 1, 1, 0, 2, 1),
    PaKisParam(2, 1, 0, 0, 1, 1),
    PaKisParam(2, 0, 1, 0, 1, 1),
    PaKisParam(2, 0, 1, 0, 1, 0),
    PaKisParam(2, 1, 1, 0, 1, 0),
    PaKisParam(2, 0, 2, 0, 1, 1),
    PaKisParam(2, 1, 1, 0, 0, 1),
    PaKisParam(2, 0, 1, 0, 0, 0),
    PaKisParam(2, 1, 1, 0, 0, 0),
    PaKisParam(2, 1, 1, 1, 1, 1),
    PaKisParam(2, 0, 1, 0, 2, 1),
    PaKisParam(2, 0, 1, 0, 2, 0),
    PaKisParam(3, 0, 1, 0, 2, 0),
    PaKisParam(3, 0, 1, 0, 2, 1),
    PaKisParam(2, 1, 1, 0, 2, 0),
    PaKisParam(2, 0, 2, 0, 2, 1),
    PaKisParam(2, 1, 1, 0, 0, 1),
    PaKisParam(2, 0, 1, 0, 0, 0),
    PaKisParam(2, 1, 1, 0, 0, 0),
    PaKisParam(3, 1, 1, 0, 0, 1),
    PaKisParam(3, 1, 1, 0, 2, 1),
    PaKisParam(2, 1, 1, 1, 2, 1),
    PaKisParam(2, 0, 0, 0, 1, 1)
  ]

  /** The row worker `id` takes: its id modulo the table size, always a row of the table. */
  function PaKisRow(id: nat): (i: nat)
    ensures i < |PaKisParams| && i == id % 24
  {
    id % |PaKisParams|
  }

  /** The Kissat options the constructor sets. */
  datatype OptionName = Quiet | Seed | Stable | Eliminate | Tier1 | Chrono | Walkinitially | Target | Phase

  /** The diversification settings of the options. */
  datatype KsOptions = KsOptions(ksStable: int, ksElim: int, ksPaKis: bool)

  /**
   * The KissatWrapper constructor's settings, as the option values the solver ends up with (a
   * later setting of an option replaces an earlier one) and whether random picking until the
   * first conflict was switched on: quiet; the seed and random picking for every worker but
   * the first; stable; eliminate unless the share is 100; and, with PaKis, the six settings of
   * the worker's row, which override stable.
   */
  method Configure(id: nat, o: KsOptions) returns (options: map<OptionName, int>, randPick: bool)
    ensures options.Keys == {Quiet, Stable} + (if id != 0 then {Seed} else {}) +
      (if o.ksElim != 100 then {Eliminate} else {}) +
      (if o.ksPaKis then {Tier1, Chrono, Walkinitially, Target, Phase} else {})
    ensures options[Quiet] == 1
    ensures id != 0 ==> options[Seed] == id
    ensures randPick <==> id != 0
    ensures options[Stable] == if o.ksPaKis then PaKisParams[PaKisRow(id)].stable else StableFor(id, o.ksStable)
    ensures o.ksElim != 100 ==> options[Eliminate] == if Eliminates(id, o.ksElim) then 1 else 0
    ensures o.ksPaKis ==> var p := PaKisParams[PaKisRow(id)];
      options[Tier1] == p.tier1 && options[Chrono] == p.chrono && options[Walkinitially] == p.walkinitially &&
      options[Target] == p.target && options[Phase] == p.phase
  {
    options := map[Quiet := 1];
    randPick := false;
    if id != 0 {
      options := options[Seed := id];
      randPick := true;
    }
    if o.ksStable < 4 {
      options := options[Stable := o.ksStable];
    } else {
      options := options[Stable := (id + 1) % 3];
    }
    if o.ksElim != 100 {
      var num := o.ksElim;
      var dem := 100;
      var div := Gcd(num, dem);
      GcdNonZero(num, dem);
      num := CDiv(num, div);
      dem := CDiv(dem, div);
      var elim := if dem != 0 && CRem(id, dem) < num then 1 else 0;
      options := options[Eliminate := elim];
    }
    if o.ksPaKis {
      var i := id % |PaKisParams|;
      var p := PaKisParams[i];
      options := options[Tier1 := p.tier1][Chrono := p.chrono][Stable := p.stable];
      options := options[Walkinitially := p.walkinitially][Target := p.target][Phase := p.phase];
    }
  }

  /** The result of solve: SAT for Kissat's 10, UNSAT for 20, UNKNOWN otherwise. */
  function ResultOf(res: int): (r: SATResult)
    ensures r == SAT <==> res == 10
    ensures r == UNSAT <==> res == 20
  {
    if res == 10 then SAT else if res == 20 then UNSAT else UNKNOWN
  }

  /** The export threshold: the lesser of the lbd limit and the quantile bound, cut to an integer. */
  function Threshold(lim: real, upper: real): (t: nat)
    requires 0.0 <= lim && 0.0 <= upper
  {
    (if lim < upper then lim else upper).Floor
  }

  /** shouldBeExported: a positive threshold that the clause's lbd does not exceed. */
  predicate ShouldBeExported(lim: real, upper: real, lbd: nat)
    requires 0.0 <= lim && 0.0 <= upper
  {
    0 < Threshold(lim, upper) && lbd <= Threshold(lim, upper)
  }

  /** Stated on the real bounds: both reach 1 and neither is below the lbd. */
  lemma ExportTest(lim: real, upper: real, lbd: nat)
    requires 0.0 <= lim && 0.0 <= upper
    ensures ShouldBeExported(lim, upper, lbd) <==> 1.0 <= lim && 1.0 <= upper && lbd as real <= lim && lbd as real <= upper
  {
    var m := if lim < upper then lim else upper;
    assert m.Floor as real <= m < m.Floor as real + 1.0;
  }

  /**
   * The Kissat worker as these functions see it: its export buffer and the lbd limit (a real,
   * which the period loop raises and lowers; those steps are not part of this model).
   */
  class KissatWrapper {
    const expClausesBuf: ClauseBuffer
    var expClauseLbdLim: real

    constructor (buf: ClauseBuffer, lbdLim: real)
      requires 0.0 <= lbdLim
      ensures expClausesBuf == buf && expClauseLbdLim == lbdLim
    {
      expClausesBuf := buf;
      expClauseLbdLim := lbdLim;
    }

    /**
     * uncheckedExportClause: the `len` literals at `clause` are copied to a fresh clause, which
     * is buffered under its length.
     */
    method UncheckedExportClause(clause: array<int>, len: nat)
      requires expClausesBuf.Valid() && len <= clause.Length
      modifies expClausesBuf
      ensures expClausesBuf.Valid()
      ensures var buf, c := expClausesBuf, clause[..len];
        buf.db == old(buf.db)[len := (if len in old(buf.db) then old(buf.db)[len] else []) + [c]] &&
        buf.numClauses == old(buf.numClauses) + 1 && buf.numLiterals == old(buf.numLiterals) + len &&
        multiset(buf.Contents()) == multiset(old(buf.Contents())) + multiset{c}
    {
      var expTmp: Clause := [];
      var p := 0;
      while p != len
        invariant p <= len && expTmp == clause[..p]
      {
        expTmp := expTmp + [clause[p]];
        p := p + 1;
      }
      expClausesBuf.AddClause(expTmp, |expTmp|);
    }
  }

  /** DPS_kissat_shouldBeExported: the worker's answer, with the current quantile bound `upper`. */
  function DpsShouldBeExported(w: KissatWrapper, lbd: nat, upper: real): (b: bool)
    reads w
    requires 0.0 <= w.expClauseLbdLim && 0.0 <= upper
    ensures b <==> 1.0 <= w.expClauseLbdLim && 1.0 <= upper && lbd as real <= w.expClauseLbdLim && lbd as real <= upper
  {
    ExportTest(w.expClauseLbdLim, upper, lbd);
    ShouldBeExported(w.expClauseLbdLim, upper, lbd)
  }

  /** DPS_kissat_uncheckedExportClause: the worker buffers the clause. */
  method DpsUncheckedExportClause(w: KissatWrapper, clause: array<int>, size: nat)
    requires w.expClausesBuf.Valid() && size <= clause.Length
    modifies w.expClausesBuf
    ensures w.expClausesBuf.Valid()
    ensures var buf, c := w.expClausesBuf, clause[..size];
      buf.db == old(buf.db)[size := (if size in old(buf.db) then old(buf.db)[size] else []) + [c]] &&
      buf.numClauses == old(buf.numClauses) + 1 && buf.numLiterals == old(buf.numLiterals) + size
  {
    w.UncheckedExportClause(clause, size);
  }

  /**
   * getModel: for variables 1 .. numVars, Kissat's value `value[v]` (v, -v, or 0 for none)
   * sets the slot to whether it is positive; a variable without a value stays false.
   */
  method GetModel(numVars: nat, value: seq<int>) returns (m: SatModel.Model)
    requires |value| == numVars + 1
    ensures |m.slots| == numVars + 1 && !m.slots[0]
    ensures forall v :: 1 <= v <= numVars ==> m.slots[v] == (value[v] > 0)
  {
    m := SatModel.Empty(numVars);
    var v := 1;
    while v <= numVars
      invariant 1 <= v <= numVars + 1 && |m.slots| == numVars + 1 && !m.slots[0]
      invariant forall u :: 1 <= u < v ==> m.slots[u] == (value[u] > 0)
      invariant forall u :: v <= u <= numVars ==> !m.slots[u]
    {
      var lit := value[v];
      if lit != 0 {
        m := SatModel.Model(m.slots[v := lit > 0]);
      }
      v := v + 1;
    }
  }

  /** Every literal Kissat reports true is true in the model read back. */
  lemma ModelAgrees(numVars: nat, value: seq<int>, m: SatModel.Model, v: nat)
    requires |value| == numVars + 1 && |m.slots| == numVars + 1
    requires forall u :: 1 <= u <= numVars ==> m.slots[u] == (value[u] > 0)
    requires 1 <= v <= numVars && (value[v] == v || value[v] == -(v as int))
    ensures SatModel.Value(m, value[v])
  {
  }
}
