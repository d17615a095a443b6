/**
 * The model of a satisfiable instance (sat/Model.cpp): one truth value per variable, the
 * satisfaction checks, and the "v ..." printer. The printer is specified by `Body`, and what
 * it writes is shown to read back through the DIMACS reader's `Lex` as the model's literals.
 */
module SatModel {
  import opened Clauses
  import opened Dimacs

  /** `slots[v]` is the value of variable v; slot 0 is unused, so a model of n variables has n + 1 slots. */
  datatype Model = Model(slots: seq<bool>)

  /** A model for `n` variables, all false. */
  function Empty(n: nat): (m: Model)
    ensures |m.slots| == n + 1
    ensures forall v :: 0 <= v < |m.slots| ==> !m.slots[v]
  {
    Model(seq(n + 1, _ => false))
  }

  /** The literals whose variables have a slot. */
  predicate Covers(m: Model, c: Clause)
  {
    forall i :: 0 <= i < |c| ==> c[i] != 0 && Var(c[i]) < |m.slots|
  }

  /** Model::value: the slot of the literal's variable, negated for a negative literal. */
  function Value(m: Model, lit: int): bool
    requires lit != 0 && Var(lit) < |m.slots|
  {
    if lit > 0 then m.slots[lit] else !m.slots[-lit]
  }

  /** A literal and its negation take opposite values. */
  lemma ValueNegation(m: Model, lit: int)
    requires lit != 0 && Var(lit) < |m.slots|
    ensures Value(m, -lit) == !Value(m, lit)
    ensures Value(m, lit) <==> (lit > 0) == m.slots[Var(lit)]
  {
  }

  /** Model::satisfies(Clause): scans for a true literal; the empty clause is not satisfied. */
  function SatisfiesClause(m: Model, c: Clause): (r: bool)
    requires Covers(m, c)
    ensures r <==> exists i :: 0 <= i < |c| && Value(m, c[i])
    ensures c == [] ==> !r
  {
    if c == [] then false
    else if Value(m, c[0]) then true
    else
      assert forall i :: 1 <= i < |c| ==> c[i] == c[1..][i - 1];
      SatisfiesClause(m, c[1..])
  }

  /** Model::satisfies(Instance): every clause is satisfied. */
  function SatisfiesInstance(m: Model, clauses: seq<Clause>): (r: bool)
    requires forall k :: 0 <= k < |clauses| ==> Covers(m, clauses[k])
    ensures r <==> forall k :: 0 <= k < |clauses| ==> SatisfiesClause(m, clauses[k])
  {
    if clauses == [] then true
    else if !SatisfiesClause(m, clauses[0]) then false
    else
      assert forall k :: 1 <= k < |clauses| ==> clauses[k] == clauses[1..][k - 1];
      SatisfiesInstance(m, clauses[1..])
  }

  /** The character of a decimal digit. */
  function Digit(d: nat): (ch: char)
    requires d < 10
    ensures IsDigit(ch) && DigitValue(ch) == d
  {
    ('0' as int + d) as char
  }

  /** The decimal digits of `n`, as a stream writes them. */
  function Show(n: nat): (s: string)
    ensures |s| >= 1
    ensures forall i :: 0 <= i < |s| ==> IsDigit(s[i])
    ensures Num(s) == n
    decreases n
  {
    if n < 10 then [Digit(n)]
    else
      var s := Show(n / 10) + [Digit(n % 10)];
      assert s[..|s| - 1] == Show(n / 10);
      s
  }

  /** A signed number as a stream writes it: a '-' for a negative one, then the digits of its magnitude. */
  function ShowInt(x: int): string
  {
    if x < 0 then "-" + Show(-x) else Show(x)
  }

  function Pow10(k: nat): (p: nat)
    ensures p >= 1
  {
    if k == 0 then 1 else 10 * Pow10(k - 1)
  }

  /** A number below 10^k has at most k digits. */
  lemma {:induction false} ShowLength(n: nat, k: nat)
    requires 1 <= k && n < Pow10(k)
    ensures |Show(n)| <= k
    decreases k
  {
    if n >= 10 {
      ShowLength(n / 10, k - 1);
    }
  }

  /**
   * numDigits: for a non-zero number, the width the stream gives it (a '-' included), 0 for 0.
   * The loop divides with C's truncation toward zero.
   */
  method NumDigits(number: int) returns (digits: nat)
    ensures number != 0 ==> digits == |ShowInt(number)|
    ensures number == 0 ==> digits == 0
  {
    ghost var a: nat := if number < 0 then -number else number;
    digits := if number < 0 then 1 else 0;
    var x := number;
    while x != 0
      invariant (x < 0 ==> number < 0) && (x > 0 ==> number > 0)
      invariant x == 0 ==> digits == (if number < 0 then 1 else 0) + (if a == 0 then 0 else |Show(a)|)
      invariant x != 0 ==> digits + |Show(if x < 0 then -x else x)| == (if number < 0 then 1 else 0) + |Show(a)|
      decreases if x < 0 then -x else x
    {
      x := if x < 0 then -((-x) / 10) else x / 10;
      digits := digits + 1;
    }
  }

  /** The literals the printer writes: variable v with the sign of its value, for v = 1 .. n. */
  function Vals(m: Model): (r: seq<int>)
    requires |m.slots| >= 1
    ensures |r| == |m.slots| - 1
    ensures forall k :: 0 <= k < |r| ==> r[k] != 0 && Var(r[k]) == k + 1 && Value(m, r[k])
  {
    seq(|m.slots| - 1, k requires 0 <= k < |m.slots| - 1 => if m.slots[k + 1] then k + 1 else -(k + 1))
  }

  /** The number of characters the stream gives `x`. */
  function Width(x: int): nat
  {
    |ShowInt(x)|
  }

  /** Whether writing `x` after `used` characters would reach column 80, so a new line is begun. */
  predicate Breaks(x: int, used: nat)
  {
    used + 1 + Width(x) >= 80
  }

  /** The characters on the line before the blank that precedes `x`: 0 on a line not yet opened. */
  function Column(x: int, used: nat): nat
  {
    if Breaks(x, used) then 0 else used
  }

  /** What is written for one number: a line break if needed, a 'v' opening a line, a blank, the number. */
  function Piece(x: int, used: nat): string
  {
    (if Breaks(x, used) then "\n" else "") + ((if Column(x, used) == 0 then "v" else "") + (" " + ShowInt(x)))
  }

  /** The characters on the line after `x` is written. */
  function After(x: int, used: nat): nat
  {
    (if Column(x, used) == 0 then 1 else Column(x, used)) + Width(x) + 1
  }

  /**
   * What the printer writes for `vs` when `used` characters are already on the current line:
   * each number goes on a fresh line once it would reach column 80, every line opens with 'v',
   * and each number is preceded by a blank.
   */
  function Body(vs: seq<int>, used: nat): string
    decreases |vs|
  {
    if vs == [] then [] else Piece(vs[0], used) + Body(vs[1..], After(vs[0], used))
  }

  /** operator<<: the model's literals in variable order, then " 0" and a newline. */
  method Print(m: Model) returns (out: string)
    requires 1 <= |m.slots| <= 0x8000_0000
    ensures out == Body(Vals(m), 0) + " 0\n"
  {
    ghost var vals := Vals(m);
    var used: nat := 0;
    out := [];
    var v := 1;
    while v < |m.slots|
      invariant 1 <= v <= |m.slots|
      invariant out + Body(vals[v - 1..], used) == Body(vals, 0)
    {
      var val: int := if m.slots[v] then v else -v;
      assert val == vals[v - 1] && vals[v - 1..][1..] == vals[v..];
      ghost var before := used;
      var digits := NumDigits(val);
      var brk := used + 1 + digits >= 80;
      if brk {
        used := 0;
      }
      var lead := used == 0;
      if lead {
        used := 1;
      }
      var piece := (if brk then "\n" else "") + ((if lead then "v" else "") + (" " + ShowInt(val)));
      used := used + digits + 1;
      assert piece == Piece(val, before) && used == After(val, before);
      Regroup(out, piece, Body(vals[v..], used));
      out := out + piece;
      v := v + 1;
    }
    assert vals[v - 1..] == [] && out + [] == out;
    out := out + " 0\n";
  }

  lemma Regroup<T>(a: seq<T>, b: seq<T>, c: seq<T>)
    ensures a + (b + c) == a + b + c
  {
  }

  /** After the first number every piece the printer writes opens with a blank or a line break. */
  lemma {:induction false} BodyStart(vs: seq<int>, used: nat)
    requires used > 0 && vs != []
    ensures Body(vs, used)[0] == ' ' || Body(vs, used)[0] == '\n'
  {
  }

  /** Reading written digits back: their number, signed by a pending '-'; the character after them is consumed. */
  lemma {:induction false} LexShow(n: nat, tail: string, neg: bool)
    requires tail != [] && !IsDigit(tail[0])
    ensures Lex(Show(n) + tail, neg) == [if neg then -(n as int) else n as int] + Lex(tail[1..], false)
  {
    var s := Show(n) + tail;
    DigitRunOf(s, |Show(n)|);
    assert s[..|Show(n)|] == Show(n);
    assert s[|Show(n)| + 1..] == tail[1..];
  }

  /** A '-' makes the next number negative. */
  lemma {:induction false} LexMinus(s: string)
    ensures Lex("-" + s, false) == Lex(s, true)
  {
    assert ("-" + s)[0] == '-' && ("-" + s)[1..] == s;
  }

  /** Reading a written number back: the number, then the character after its digits is consumed. */
  lemma {:induction false} LexShowInt(x: int, tail: string)
    requires tail != [] && !IsDigit(tail[0])
    ensures Lex(ShowInt(x) + tail, false) == [x] + Lex(tail[1..], false)
  {
    if x < 0 {
      LexShow(-x, tail, true);
      LexMinus(Show(-x) + tail);
      Regroup("-", Show(-x), tail);
    } else {
      LexShow(x, tail, false);
    }
  }

  /** A blank, a line break or a 'v' is skipped by the reader. */
  lemma {:induction false} LexSkip(pre: string, s: string)
    requires pre == [] || pre == " " || pre == "\n" || pre == "v"
    ensures Lex(pre + s, false) == Lex(s, false)
  {
    if pre == [] {
      assert pre + s == s;
    } else {
      assert (pre + s)[0] == pre[0] && (pre + s)[1..] == s;
    }
  }

  lemma {:induction false} LexSpace(s: string)
    requires s != [] && IsSpace(s[0])
    ensures Lex(s, false) == Lex(s[1..], false)
  {
  }

  /** Reading one piece back gives its number; the character after it is consumed. */
  lemma {:induction false} LexPiece(x: int, used: nat, tail: string)
    requires tail != [] && !IsDigit(tail[0])
    ensures Lex(Piece(x, used) + tail, false) == [x] + Lex(tail[1..], false)
  {
    var brk := if Breaks(x, used) then "\n" else "";
    var lead := if Column(x, used) == 0 then "v" else "";
    var s := ShowInt(x);
    LexShowInt(x, tail);
    LexSkip(" ", s + tail);
    LexSkip(lead, " " + (s + tail));
    LexSkip(brk, lead + (" " + (s + tail)));
    Regroup(" ", s, tail);
    Regroup(lead, " " + s, tail);
    Regroup(brk, lead + (" " + s), tail);
  }

  /** A piece followed by more of the body reads back as its number followed by what the rest reads as. */
  lemma {:induction false} LexPieceThenBody(v: int, used: nat, rest: seq<int>, tail: string)
    requires tail != [] && IsSpace(tail[0])
    ensures var after := Body(rest, After(v, used)) + tail;
      Lex(Piece(v, used) + after, false) == [v] + Lex(after, false)
  {
    var after := Body(rest, After(v, used)) + tail;
    if rest != [] {
      BodyStart(rest, After(v, used));
    } else {
      assert after == tail;
    }
    LexSpace(after);
    LexPiece(v, used, after);
  }

  /** Reading the printer's body back gives its numbers, provided a blank or line break follows it. */
  lemma {:induction false} LexBody(vs: seq<int>, used: nat, tail: string)
    requires tail != [] && IsSpace(tail[0])
    ensures Lex(Body(vs, used) + tail, false) == vs + Lex(tail, false)
    decreases |vs|
  {
    if vs == [] {
      assert Body(vs, used) + tail == tail;
    } else {
      var v, rest, next := vs[0], vs[1..], After(vs[0], used);
      var lt := Lex(tail, false);
      LexBody(rest, next, tail);
      LexPieceThenBody(v, used, rest, tail);
      Regroup(Piece(v, used), Body(rest, next), tail);
      assert vs == [v] + rest;
      Regroup([v], rest, lt);
    }
  }

  /** Read back as DIMACS, the printed model is the single clause of its true literals. */
  lemma {:induction false} PrintReadsBack(m: Model)
    requires |m.slots| >= 1
    ensures Lex(Body(Vals(m), 0) + " 0\n", false) == Vals(m) + [0]
    ensures Feed([], [], Vals(m) + [0]) == ([Vals(m)], [])
  {
    var tail := " 0\n";
    LexBody(Vals(m), 0, tail);
    assert tail[1..] == "0\n";
    assert DigitRun("0\n") == 1 && "0\n"[..1] == "0" && "0\n"[2..] == [];
    assert Lex(tail, false) == [0];
    FeedClause([], [], Vals(m));
    assert [] + Vals(m) == Vals(m) && [] + [Vals(m)] == [Vals(m)];
  }

  /** Feeding non-zero numbers and a 0 closes one clause holding them after the open ones. */
  lemma {:induction false} FeedClause(done: seq<Clause>, open: Clause, vs: seq<int>)
    requires forall i :: 0 <= i < |vs| ==> vs[i] != 0
    ensures Feed(done, open, vs + [0]) == (done + [open + vs], [])
    decreases |vs|
  {
    if vs == [] {
      assert [] + [0] == [0] && [0][1..] == [];
      assert open + vs == open;
    } else {
      assert (vs + [0])[0] == vs[0] && (vs + [0])[1..] == vs[1..] + [0];
      FeedClause(done, open + [vs[0]], vs[1..]);
      assert open + [vs[0]] + vs[1..] == open + vs;
    }
  }

  /**
   * The layout of a line-broken text with `col` characters already on the current line: every
   * line starts with 'v' and holds at most 79 characters.
   */
  predicate Lines(s: string, col: nat)
    decreases |s|
  {
    s == [] ||
    if s[0] == '\n' then |s| > 1 && Lines(s[1..], 0)
    else (col == 0 ==> s[0] == 'v') && col < 79 && Lines(s[1..], col + 1)
  }

  /** A stretch without line breaks keeps the layout as long as the line does not pass 79 characters. */
  lemma {:induction false} LinesPlain(w: string, rest: string, col: nat)
    requires forall i :: 0 <= i < |w| ==> w[i] != '\n'
    requires col + |w| <= 79 && (col == 0 && w != [] ==> w[0] == 'v')
    requires Lines(rest, col + |w|)
    ensures Lines(w + rest, col)
    decreases |w|
  {
    if w == [] {
      assert w + rest == rest;
    } else {
      assert (w + rest)[1..] == w[1..] + rest;
      LinesPlain(w[1..], rest, col + 1);
    }
  }

  /** Every line the printer writes before the closing " 0" starts with 'v' and stays under 80 characters. */
  lemma {:induction false} BodyLines(vs: seq<int>, used: nat)
    requires used <= 79
    requires forall i :: 0 <= i < |vs| ==> -0x8000_0000 < vs[i] < 0x8000_0000
    ensures Lines(Body(vs, used), used)
    decreases |vs|
  {
    if vs != [] {
      var x := vs[0];
      WidthBound(x);
      var rest := Body(vs[1..], After(x, used));
      BodyLines(vs[1..], After(x, used));
      var w := (if Column(x, used) == 0 then "v" else "") + (" " + ShowInt(x));
      LinesPlain(w, rest, Column(x, used));
      Regroup((if Breaks(x, used) then "\n" else ""), w, rest);
      if Breaks(x, used) {
        assert ("\n" + (w + rest))[0] == '\n' && ("\n" + (w + rest))[1..] == w + rest;
      } else {
        assert "" + (w + rest) == w + rest;
      }
    }
  }

  /** A number of at most ten digits fits on a line with room to spare, and holds no line break. */
  lemma {:induction false} WidthBound(x: int)
    requires -0x8000_0000 < x < 0x8000_0000
    ensures Width(x) <= 11
    ensures forall i :: 0 <= i < |ShowInt(x)| ==> ShowInt(x)[i] != '\n'
  {
    var n: nat := if x < 0 then -x else x;
    assert Pow10(10) == 10_000_000_000;
    ShowLength(n, 10);
    if x < 0 {
      assert forall i :: 1 <= i < |ShowInt(x)| ==> ShowInt(x)[i] == Show(n)[i - 1];
    }
  }
}
