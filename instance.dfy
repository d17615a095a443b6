/**
 * The DIMACS reader of DPS (sat/Instance.cpp), over the characters of the input. The reader is
 * specified in two layers: `Lex` turns characters into the signed numbers the reader sees, and
 * `Feed` groups numbers into clauses, each closed by a 0.
 */
module Dimacs {
  import opened Clauses

  predicate IsSpace(ch: char)
  {
    ch == ' ' || ch == '\t' || ch == '\n' || ch == '\r' || ch == '\U{000B}' || ch == '\U{000C}'
  }

  predicate IsDigit(ch: char)
  {
    '0' <= ch <= '9'
  }

  function DigitValue(ch: char): (d: nat)
    requires IsDigit(ch)
    ensures d < 10
  {
    (ch as int) - ('0' as int)
  }

  /** The number of digits at the start of `s`. */
  function DigitRun(s: string): (n: nat)
    ensures n <= |s|
    ensures forall i :: 0 <= i < n ==> IsDigit(s[i])
    ensures n < |s| ==> !IsDigit(s[n])
  {
    if s != [] && IsDigit(s[0]) then 1 + DigitRun(s[1..]) else 0
  }

  /** The decimal value of a run of digits (defined from the back, as the reader accumulates it). */
  function Num(ds: string): nat
    requires forall i :: 0 <= i < |ds| ==> IsDigit(ds[i])
  {
    if ds == [] then 0 else Num(ds[..|ds| - 1]) * 10 + DigitValue(ds[|ds| - 1])
  }

  /** What is left after a comment or problem line: everything after its newline, nothing when there is none. */
  function AfterLine(s: string): (r: string)
    requires s != []
    ensures |r| < |s|
  {
    if s[0] == '\n' then s[1..] else if |s| == 1 then [] else AfterLine(s[1..])
  }

  /**
   * The numbers the reader sees in `s`, `neg` telling whether a '-' is pending. A 'c' or 'p'
   * where a token may start skips its line; white space is skipped; '-' makes the next number
   * negative (and stays pending across other characters); the character right after a number's
   * digits is consumed; any other character is ignored.
   */
  function Lex(s: string, neg: bool): seq<int>
    decreases |s|
  {
    if s == [] then []
    else if s[0] == 'c' || s[0] == 'p' then Lex(AfterLine(s), neg)
    else if IsSpace(s[0]) then Lex(s[1..], neg)
    else if s[0] == '-' then Lex(s[1..], true)
    else if IsDigit(s[0]) then
      var d := DigitRun(s);
      var n := Num(s[..d]);
      [if neg then -(n as int) else n as int] + Lex(if d < |s| then s[d + 1..] else [], false)
    else Lex(s[1..], neg)
  }

  /** Groups numbers into clauses: a non-zero number extends the open clause, a 0 closes it. */
  function Feed(done: seq<Clause>, open: Clause, nums: seq<int>): (r: (seq<Clause>, Clause))
    decreases |nums|
  {
    if nums == [] then (done, open)
    else if nums[0] != 0 then Feed(done, open + [nums[0]], nums[1..])
    else Feed(done + [open], [], nums[1..])
  }

  /** The largest absolute value among `nums`, 0 for none. */
  function MaxAbs(nums: seq<int>): (m: nat)
    ensures forall i :: 0 <= i < |nums| ==> -(m as int) <= nums[i] <= m
    ensures nums != [] ==> exists i :: 0 <= i < |nums| && (nums[i] == m || nums[i] == -(m as int))
  {
    if nums == [] then 0
    else
      var a := if nums[0] < 0 then -nums[0] else nums[0];
      var b := MaxAbs(nums[1..]);
      if a < b then b else a
  }

  /** The instance read from a file, with the counters the reader keeps. */
  datatype Instance = Instance(clauses: seq<Clause>, numVars: nat, numClauses: nat, totLiterals: nat)

  /** Clauses built by `Feed` never hold 0, provided the open clause does not. */
  lemma {:induction false} FeedNoZero(done: seq<Clause>, open: Clause, nums: seq<int>)
    requires forall i :: 0 <= i < |done| ==> Literals(done[i])
    requires Literals(open)
    ensures var r := Feed(done, open, nums);
      (forall i :: 0 <= i < |r.0| ==> Literals(r.0[i])) && Literals(r.1)
    decreases |nums|
  {
    if nums != [] {
      if nums[0] != 0 {
        FeedNoZero(done, open + [nums[0]], nums[1..]);
      } else {
        FeedNoZero(done + [open], [], nums[1..]);
      }
    }
  }

  function Zeros(nums: seq<int>): nat
  {
    if nums == [] then 0 else (if nums[0] == 0 then 1 else 0) + Zeros(nums[1..])
  }

  /** Exactly one clause is stored per 0 read. */
  lemma {:induction false} FeedCountsZeros(done: seq<Clause>, open: Clause, nums: seq<int>)
    ensures |Feed(done, open, nums).0| == |done| + Zeros(nums)
    decreases |nums|
  {
    if nums != [] {
      if nums[0] != 0 {
        FeedCountsZeros(done, open + [nums[0]], nums[1..]);
      } else {
        FeedCountsZeros(done + [open], [], nums[1..]);
      }
    }
  }

  /** Numbers after the last 0 only extend the open clause: the stored clauses are the same. */
  lemma {:induction false} FeedDropsTail(done: seq<Clause>, open: Clause, nums: seq<int>, tail: seq<int>)
    requires forall i :: 0 <= i < |tail| ==> tail[i] != 0
    ensures Feed(done, open, nums + tail).0 == Feed(done, open, nums).0
    ensures Feed(done, open, nums + tail).1 == Feed(done, open, nums).1 + tail
    decreases |nums| + |tail|
  {
    if nums == [] {
      assert nums + tail == tail;
      if tail != [] {
        FeedDropsTail(done, open + [tail[0]], [], tail[1..]);
        assert [] + tail[1..] == tail[1..];
        assert open + [tail[0]] + tail[1..] == open + tail;
      }
    } else {
      assert (nums + tail)[1..] == nums[1..] + tail;
      if nums[0] != 0 {
        FeedDropsTail(done, open + [nums[0]], nums[1..], tail);
      } else {
        FeedDropsTail(done + [open], [], nums[1..], tail);
      }
    }
  }

  /** A '-' before a 0 still makes it a 0, which closes the clause. */
  lemma NegatedZeroCloses()
    ensures Lex("-0\n", false) == [0]
  {
    assert "-0\n"[1..] == "0\n";
    assert DigitRun("0\n") == 1 && "0\n"[..1] == "0" && Num("0") == 0;
    assert "0\n"[2..] == [];
  }

  /** The character after a number's digits is consumed, so "1-2 0" is the clause [1, 2]. */
  lemma DelimiterConsumed()
    ensures Lex("1-2 0", false) == [1, 2, 0]
    ensures Feed([], [], Lex("1-2 0", false)).0 == [[1, 2]]
  {
    assert DigitRun("1-2 0") == 1 && "1-2 0"[..1] == "1" && Num("1") == 1;
    assert "1-2 0"[2..] == "2 0";
    assert DigitRun("2 0") == 1 && "2 0"[..1] == "2" && Num("2") == 2;
    assert "2 0"[2..] == "0";
    assert DigitRun("0") == 1 && "0"[..1] == "0" && Num("0") == 0;
    assert Lex("0", false) == [0];
    assert Lex("2 0", false) == [2, 0];
    var nums: seq<int> := [1, 2, 0];
    assert nums[1..] == [2, 0] && nums[1..][1..] == [0] && nums[1..][1..][1..] == [];
    assert [] + [1] == [1];
    assert Feed([], [], nums) == Feed([], [1], [2, 0]);
    assert [1] + [2] == [1, 2] && [2, 0][1..] == [0] && [0][1..] == [];
    assert Feed([], [1], [2, 0]) == Feed([], [1, 2], [0]);
    assert [] + [[1, 2]] == [[1, 2]];
    assert Feed([], [1, 2], [0]) == Feed([[1, 2]], [], []);
  }

  /**
   * Instance::loadFormula on the characters of the file: the stored clauses are those `Feed`
   * closes on the numbers `Lex` reads, the counters agree with them, and the variable count is
   * the largest absolute value read, an unterminated last clause included.
   */
  method LoadFormula(text: string) returns (inst: Instance)
    ensures var nums := Lex(text, false);
      inst.clauses == Feed([], [], nums).0 && inst.numVars == MaxAbs(nums)
    ensures inst.numClauses == |inst.clauses| && inst.totLiterals == TotalLiterals(inst.clauses)
    ensures AllLiterals(inst.clauses)
  {
    var clauses: seq<Clause> := [];
    var clause: Clause := [];
    var maxVar: nat := 0;
    var neg := false;
    var numClauses, totLiterals := 0, 0;
    var i := 0;
    ghost var all := Lex(text, false);
    ghost var nums := all;
    while i < |text|
      invariant i <= |text| && nums == Lex(text[i..], neg)
      invariant Feed(clauses, clause, nums) == Feed([], [], all)
      invariant Max(maxVar, MaxAbs(nums)) == MaxAbs(all)
      invariant numClauses == |clauses| && totLiterals == TotalLiterals(clauses)
      invariant AllLiterals(clauses) && Literals(clause)
      decreases |text| - i
    {
      var ch := text[i];
      if ch == 'c' || ch == 'p' {
        i := SkipLine(text, i);
      } else if IsSpace(ch) || (ch != '-' && !IsDigit(ch)) {
        assert text[i..][1..] == text[i + 1..];
        i := i + 1;
      } else if ch == '-' {
        assert text[i..][1..] == text[i + 1..];
        neg := true;
        i := i + 1;
      } else {
        var num, end := ReadDigits(text, i);
        LexNumber(text, i, end, neg);
        var lit: int := if neg then -(num as int) else num;
        i := if end < |text| then end + 1 else end;
        nums := nums[1..];
        neg := false;
        clauses, clause, maxVar, numClauses, totLiterals :=
          Absorb(lit, num, clauses, clause, maxVar, numClauses, totLiterals, nums, all);
      }
    }
    inst := Instance(clauses, maxVar, numClauses, totLiterals);
  }

  /** One number read: a non-zero one extends the open clause, a 0 stores it; the counters follow. */
  method Absorb(lit: int, num: nat, clauses: seq<Clause>, clause: Clause, maxVar: nat, numClauses: nat, totLiterals: nat,
                ghost rest: seq<int>, ghost all: seq<int>)
      returns (clauses': seq<Clause>, clause': Clause, maxVar': nat, numClauses': nat, totLiterals': nat)
    requires lit == num || lit == -(num as int)
    requires Feed(clauses, clause, [lit] + rest) == Feed([], [], all)
    requires Max(maxVar, MaxAbs([lit] + rest)) == MaxAbs(all)
    requires numClauses == |clauses| && totLiterals == TotalLiterals(clauses)
    requires AllLiterals(clauses) && Literals(clause)
    ensures Feed(clauses', clause', rest) == Feed([], [], all)
    ensures Max(maxVar', MaxAbs(rest)) == MaxAbs(all)
    ensures numClauses' == |clauses'| && totLiterals' == TotalLiterals(clauses')
    ensures AllLiterals(clauses') && Literals(clause')
  {
    assert ([lit] + rest)[0] == lit && ([lit] + rest)[1..] == rest;
    if lit != 0 {
      clauses', clause', numClauses', totLiterals' := clauses, clause + [lit], numClauses, totLiterals;
      maxVar' := if maxVar < num then num else maxVar;
    } else {
      TotalLiteralsSnoc(clauses, clause);
      AllLiteralsSnoc(clauses, clause);
      clauses', clause', numClauses', totLiterals' := clauses + [clause], [], numClauses + 1, totLiterals + |clause|;
      maxVar' := maxVar;
    }
  }

  /** The comment-line loop of the reader: from a 'c' or 'p' at `i`, the position after the next newline, or the end. */
  method SkipLine(text: string, i: nat) returns (j: nat)
    requires i < |text|
    ensures j <= |text| && AfterLine(text[i..]) == text[j..]
  {
    var ch := text[i];
    j := i + 1;
    assert text[i..][1..] == text[j..];
    while ch != '\n' && j < |text|
      invariant j <= |text|
      invariant ch == '\n' ==> AfterLine(text[i..]) == text[j..]
      invariant ch != '\n' ==> AfterLine(text[i..]) == if j == |text| then [] else AfterLine(text[j..])
      decreases |text| - j
    {
      ch := text[j];
      assert text[j..][1..] == text[j + 1..];
      j := j + 1;
    }
  }

  /**
   * The digit loop of the reader: from the digit at `start`, the value of the run of digits
   * and the position just after it.
   */
  method ReadDigits(text: string, start: nat) returns (num: nat, end: nat)
    requires start < |text| && IsDigit(text[start])
    ensures start < end <= |text| && DigitRun(text[start..]) == end - start
    ensures num == Num(text[start..end])
  {
    num := DigitValue(text[start]);
    end := start + 1;
    assert text[start..end] == [text[start]] && text[start..end][..0] == [];
    while end < |text| && IsDigit(text[end])
      invariant start < end <= |text|
      invariant forall j :: start <= j < end ==> IsDigit(text[j])
      invariant num == Num(text[start..end])
    {
      assert text[start..end + 1][..end - start] == text[start..end];
      num := num * 10 + DigitValue(text[end]);
      end := end + 1;
    }
    DigitRunOf(text[start..], end - start);
  }

  /** No clause holds a 0. */
  predicate AllLiterals(cs: seq<Clause>)
  {
    forall i :: 0 <= i < |cs| ==> Literals(cs[i])
  }

  lemma AllLiteralsSnoc(cs: seq<Clause>, c: Clause)
    requires AllLiterals(cs) && Literals(c)
    ensures AllLiterals(cs + [c])
  {
  }

  function Max(a: nat, b: nat): nat
  {
    if a < b then b else a
  }

  /** At `i` the reader finds the number spelled by the digits up to `end`, then consumes one more character. */
  lemma LexNumber(text: string, i: nat, end: nat, neg: bool)
    requires i < end <= |text| && DigitRun(text[i..]) == end - i
    ensures forall j :: i <= j < end ==> IsDigit(text[j])
    ensures var n := Num(text[i..end]);
      Lex(text[i..], neg) == [if neg then -(n as int) else n as int] + Lex(if end < |text| then text[end + 1..] else [], false)
  {
    var s := text[i..];
    assert forall j :: i <= j < end ==> text[j] == s[j - i];
    assert s[..end - i] == text[i..end];
    if end < |text| {
      assert s[end - i + 1..] == text[end + 1..];
    }
  }

  /** A run of `n` digits followed by a non-digit or the end has `DigitRun` `n`. */
  lemma {:induction false} DigitRunOf(s: string, n: nat)
    requires n <= |s| && (forall j :: 0 <= j < n ==> IsDigit(s[j])) && (n < |s| ==> !IsDigit(s[n]))
    ensures DigitRun(s) == n
  {
    if n > 0 {
      DigitRunOf(s[1..], n - 1);
    }
  }
}
