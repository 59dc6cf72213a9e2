/**
 * Day 6 of aoc2025 (day06/src/main.rs): a worksheet of problems laid out
 * in columns, with a row of `+`/`*` operators at the bottom. Part 1 reads
 * each row as whitespace-separated numbers and applies each column's
 * operator down the column; part 2 cuts each row into fixed-width cells
 * under the operators and reads each character position of a cell, top
 * to bottom, as one number. Both add up the column results.
 */
module Day06 {
  import opened Common

  predicate IsOperator(c: char) { c == '+' || c == '*' }

  predicate AllOperators(ops: seq<char>) { forall i :: 0 <= i < |ops| ==> IsOperator(ops[i]) }

  /** `acc + v` or `acc * v`. */
  function Apply(op: char, acc: nat, v: nat): nat
  {
    if op == '+' then acc + v else acc * v
  }

  /** The unbounded result of the operator over the values, folded from its identity. */
  function Reduce(op: char, vs: seq<nat>): nat
  {
    if vs == [] then (if op == '+' then 0 else 1)
    else Apply(op, Reduce(op, vs[..|vs| - 1]), vs[|vs| - 1])
  }

  /**
   * The same fold in `u64` arithmetic: None as soon as a partial result
   * overflows (a panic in the source).
   */
  function FoldChecked(op: char, vs: seq<nat>): (r: Option<nat>)
    ensures r.Some? ==> r.value == Reduce(op, vs) && r.value <= U64_MAX
  {
    if vs == [] then Some(if op == '+' then 0 else 1)
    else
      match FoldChecked(op, vs[..|vs| - 1])
      case None => None
      case Some(acc) =>
        var v := Apply(op, acc, vs[|vs| - 1]);
        if v > U64_MAX then None else Some(v)
  }

  /** Sums, and products of values that are all at least 1, only grow as values are added. */
  predicate Growing(op: char, vs: seq<nat>)
  {
    op == '+' || forall i :: 0 <= i < |vs| ==> vs[i] >= 1
  }

  lemma {:induction false} ReducePrefix(op: char, vs: seq<nat>, n: nat)
    requires Growing(op, vs) && n <= |vs|
    ensures Reduce(op, vs[..n]) <= Reduce(op, vs)
    decreases |vs|
  {
    if n < |vs| {
      var front := vs[..|vs| - 1];
      assert Growing(op, front);
      assert front[..n] == vs[..n];
      ReducePrefix(op, front, n);
      var acc := Reduce(op, front);
      if op != '+' {
        MulLe(1, vs[|vs| - 1], acc);
      }
    } else {
      assert vs[..n] == vs;
    }
  }

  /**
   * When partial results only grow, the `u64` fold fails exactly when the
   * true result does not fit in `u64`.
   */
  lemma {:induction false} FoldCheckedFits(op: char, vs: seq<nat>)
    requires Growing(op, vs)
    ensures FoldChecked(op, vs).Some? <==> Reduce(op, vs) <= U64_MAX
  {
    if vs != [] {
      var front := vs[..|vs| - 1];
      assert Growing(op, front);
      FoldCheckedFits(op, front);
      ReducePrefix(op, vs, |vs| - 1);
    }
  }

  /** A sum is at least each of its terms. */
  lemma {:induction false} SumAtLeastTerm(vs: seq<nat>, i: nat)
    requires i < |vs|
    ensures vs[i] <= Reduce('+', vs)
  {
    if i < |vs| - 1 {
      SumAtLeastTerm(vs[..|vs| - 1], i);
    }
  }

  // ---------------------------------------------------------------------------
  // The worksheet total, shared by both parts

  /** The results of the columns, unbounded: column `i`'s operator over its values. */
  function Results(ops: seq<char>, cols: seq<seq<nat>>): (r: seq<nat>)
    requires |cols| == |ops|
    ensures |r| == |ops| && forall i :: 0 <= i < |ops| ==> r[i] == Reduce(ops[i], cols[i])
  {
    seq(|ops|, i requires 0 <= i < |ops| => Reduce(ops[i], cols[i]))
  }

  /** Each column's operator folded over its values in `u64`. */
  function Folds(ops: seq<char>, vals: seq<seq<nat>>): (r: seq<Option<nat>>)
    requires |vals| == |ops|
    ensures |r| == |ops| && forall i :: 0 <= i < |ops| ==> r[i] == FoldChecked(ops[i], vals[i])
  {
    seq(|ops|, i requires 0 <= i < |ops| => FoldChecked(ops[i], vals[i]))
  }

  /**
   * The `map` over the operators and the final `.sum()`: None when an
   * operator is neither `+` nor `*`, a column could not be read, or a
   * `u64` result overflows. Otherwise the sum of the column results.
   */
  function Solve(ops: seq<char>, cols: seq<Option<seq<nat>>>): (r: Option<nat>)
    requires |cols| == |ops|
    ensures r.Some? ==> AllOperators(ops) && Collect(cols).Some?
    ensures r.Some? ==> r.value == Reduce('+', Results(ops, Collect(cols).value))
  {
    if !AllOperators(ops) then None
    else
      match Collect(cols)
      case None => None
      case Some(vals) =>
        match Collect(Folds(ops, vals))
        case None => None
        case Some(rs) =>
          assert rs == Results(ops, vals);
          FoldChecked('+', rs)
  }

  /**
   * With valid operators and readable columns, and no zero under a `*`,
   * the worksheet fails exactly when its total does not fit in `u64`.
   */
  lemma SolveFits(ops: seq<char>, cols: seq<Option<seq<nat>>>)
    requires |cols| == |ops| && AllOperators(ops) && Collect(cols).Some?
    requires forall i :: 0 <= i < |ops| ==> Growing(ops[i], Collect(cols).value[i])
    ensures Solve(ops, cols).Some? <==> Reduce('+', Results(ops, Collect(cols).value)) <= U64_MAX
  {
    var vals := Collect(cols).value;
    var rs := Results(ops, vals);
    FoldsFit(ops, vals);
    FoldCheckedFits('+', rs);
    if Reduce('+', rs) <= U64_MAX {
      forall i | 0 <= i < |ops| ensures rs[i] <= U64_MAX {
        SumAtLeastTerm(rs, i);
      }
      SolveOfFolds(ops, cols, vals, rs);
    } else if Collect(Folds(ops, vals)).Some? {
      SolveOfFolds(ops, cols, vals, rs);
    }
  }

  /** With the column results in hand, `Solve` is the checked sum of them. */
  lemma SolveOfFolds(ops: seq<char>, cols: seq<Option<seq<nat>>>, vals: seq<seq<nat>>, rs: seq<nat>)
    requires |cols| == |ops| && AllOperators(ops) && Collect(cols) == Some(vals)
    requires |vals| == |ops| && Collect(Folds(ops, vals)) == Some(rs)
    ensures Solve(ops, cols) == FoldChecked('+', rs)
  {
  }

  /** The columns' `u64` folds all succeed exactly when every result fits, and then they are the results. */
  lemma FoldsFit(ops: seq<char>, vals: seq<seq<nat>>)
    requires |vals| == |ops| && forall i :: 0 <= i < |ops| ==> Growing(ops[i], vals[i])
    ensures var c := Collect(Folds(ops, vals)); var rs := Results(ops, vals);
      (c.Some? <==> forall i :: 0 <= i < |ops| ==> rs[i] <= U64_MAX) && (c.Some? ==> c.value == rs)
  {
    var folds := Folds(ops, vals);
    var rs := Results(ops, vals);
    forall i | 0 <= i < |ops| ensures folds[i].Some? <==> rs[i] <= U64_MAX {
      FoldCheckedFits(ops[i], vals[i]);
    }
    var c := Collect(folds);
    if c.Some? {
      assert forall i :: 0 <= i < |ops| ==> c.value[i] == folds[i].value == rs[i];
    }
  }

  // ---------------------------------------------------------------------------
  // Part 1

  /** Every row has a number for each of the first `n` columns. */
  predicate FullRows(numbers: seq<seq<U64>>, n: nat)
  {
    forall k :: 0 <= k < |numbers| ==> n <= |numbers[k]|
  }

  /** The numbers of column `idx`, top to bottom. */
  function ColumnOf(numbers: seq<seq<U64>>, idx: nat): (c: seq<nat>)
    requires FullRows(numbers, idx + 1)
    ensures |c| == |numbers| && forall k :: 0 <= k < |numbers| ==> c[k] == numbers[k][idx]
  {
    seq(|numbers|, k requires 0 <= k < |numbers| => numbers[k][idx] as nat)
  }

  /** The first `n` columns. */
  function Columns(numbers: seq<seq<U64>>, n: nat): (cs: seq<seq<nat>>)
    requires FullRows(numbers, n)
    ensures |cs| == n && forall i :: 0 <= i < n ==> cs[i] == ColumnOf(numbers, i)
  {
    seq(n, i requires 0 <= i < n => ColumnOf(numbers, i))
  }

  /** Column `idx` as `part1` reads it; None when a row is too short (an index panic). */
  function Column(numbers: seq<seq<U64>>, idx: nat): (r: Option<seq<nat>>)
  {
    if FullRows(numbers, idx + 1) then Some(ColumnOf(numbers, idx)) else None
  }

  /** `part1`: each column's operator applied down the column, the results added up. */
  function Part1(numbers: seq<seq<U64>>, ops: seq<char>): (r: Option<nat>)
  {
    Solve(ops, ColumnReads(numbers, |ops|))
  }

  /** The first `n` columns as `part1` reads them. */
  function ColumnReads(numbers: seq<seq<U64>>, n: nat): (r: seq<Option<seq<nat>>>)
    ensures |r| == n && forall i :: 0 <= i < n ==> r[i] == Column(numbers, i)
  {
    seq(n, i requires 0 <= i < n => Column(numbers, i))
  }

  /** Every column reads exactly when the rows are full, and then they are the columns. */
  lemma ColumnsCollect(numbers: seq<seq<U64>>, n: nat)
    ensures Collect(ColumnReads(numbers, n)).Some? <==> FullRows(numbers, n)
    ensures FullRows(numbers, n) ==> Collect(ColumnReads(numbers, n)) == Some(Columns(numbers, n))
  {
    var cols := ColumnReads(numbers, n);
    if Collect(cols).Some? && n > 0 {
      assert cols[n - 1].Some?;
    }
    if FullRows(numbers, n) {
      var grid := Columns(numbers, n);
      forall i | 0 <= i < n ensures cols[i] == Some(grid[i]) {
        assert FullRows(numbers, i + 1);
      }
      var v := Collect(cols).value;
      assert forall i :: 0 <= i < n ==> v[i] == grid[i];
      assert v == grid;
    }
  }

  predicate Positive(numbers: seq<seq<U64>>)
  {
    forall k, i :: 0 <= k < |numbers| && 0 <= i < |numbers[k]| ==> numbers[k][i] >= 1
  }

  /**
   * `part1` succeeds only on valid operators and full rows, and is then
   * the sum over the columns of each column's sum or product. With valid
   * operators, full rows and no zero, it fails only when that total
   * overflows `u64`.
   */
  lemma Part1Meaning(numbers: seq<seq<U64>>, ops: seq<char>)
    ensures Part1(numbers, ops).Some? ==> AllOperators(ops) && FullRows(numbers, |ops|)
    ensures Part1(numbers, ops).Some? ==>
      Part1(numbers, ops).value == Reduce('+', Results(ops, Columns(numbers, |ops|)))
    ensures AllOperators(ops) && FullRows(numbers, |ops|) && Positive(numbers) ==>
      (Part1(numbers, ops).Some? <==> Reduce('+', Results(ops, Columns(numbers, |ops|))) <= U64_MAX)
  {
    var cols := ColumnReads(numbers, |ops|);
    ColumnsCollect(numbers, |ops|);
    if AllOperators(ops) && FullRows(numbers, |ops|) && Positive(numbers) {
      SolveFits(ops, cols);
    }
  }

  // ---------------------------------------------------------------------------
  // Part 2

  /**
   * The characters at position `pos` of cell `col`, one per row from top
   * to bottom; None when a row has no such cell or character.
   */
  function Stack(numbers: seq<seq<string>>, col: nat, pos: nat): (r: Option<string>)
    ensures r.Some? ==> |r.value| == |numbers|
  {
    if forall k :: 0 <= k < |numbers| ==> col < |numbers[k]| && pos < |numbers[k][col]|
    then Some(seq(|numbers|, k requires 0 <= k < |numbers| && col < |numbers[k]| && pos < |numbers[k][col]|
      => numbers[k][col][pos]))
    else None
  }

  /** One operand: the stacked characters, trimmed, parsed as `u64`. */
  function Operand(numbers: seq<seq<string>>, col: nat, pos: nat): Option<nat>
  {
    match Stack(numbers, col, pos)
    case None => None
    case Some(s) => ParseUnsigned(Trim(s), U64_MAX)
  }

  /**
   * An operand is the number whose digits stand in that character
   * position, read top to bottom, with blanks above and below ignored.
   */
  lemma OperandReadsDown(numbers: seq<seq<string>>, col: nat, pos: nat, above: string, n: nat, below: string)
    requires AllSpace(above) && AllSpace(below) && n <= U64_MAX
    requires Stack(numbers, col, pos) == Some(above + DecimalString(n) + below)
    ensures Operand(numbers, col, pos) == Some(n)
  {
    var d := DecimalString(n);
    assert !IsWhiteSpace(d[0]) && !IsWhiteSpace(d[|d| - 1]);
    TrimPadded(above, d, below);
    ParseUnsignedRoundTrip(n, U64_MAX);
  }

  /** A stack of blanks is no number, so `part2` panics on it. */
  lemma BlankOperandFails(numbers: seq<seq<string>>, col: nat, pos: nat)
    requires Stack(numbers, col, pos).Some? && AllSpace(Stack(numbers, col, pos).value)
    ensures Operand(numbers, col, pos) == None
  {
    var s := Stack(numbers, col, pos).value;
    TrimBlank(s);
  }

  lemma {:induction false} TrimBlank(s: string)
    requires AllSpace(s)
    ensures Trim(s) == []
    decreases |s|
  {
    if s != [] {
      TrimBlank(s[1..]);
    }
  }

  /**
   * The operands of cell column `col`, one per character position of the
   * first row's cell; None where the source panics (no first row, a
   * missing cell or character, a stack that is not a number).
   */
  function Operands(numbers: seq<seq<string>>, col: nat): (r: Option<seq<nat>>)
    ensures r.Some? ==> numbers != [] && col < |numbers[0]| && |r.value| == |numbers[0][col]|
    ensures r.Some? ==> forall pos :: 0 <= pos < |r.value| ==> Operand(numbers, col, pos) == Some(r.value[pos])
  {
    if numbers == [] || col >= |numbers[0]| then None
    else Collect(seq(|numbers[0][col]|, pos requires 0 <= pos < |numbers[0][col]| => Operand(numbers, col, pos)))
  }

  /** The operands of the first `n` cell columns. */
  function OperandColumns(numbers: seq<seq<string>>, n: nat): (r: seq<Option<seq<nat>>>)
    ensures |r| == n && forall i :: 0 <= i < n ==> r[i] == Operands(numbers, i)
  {
    seq(n, i requires 0 <= i < n => Operands(numbers, i))
  }

  /**
   * `part2`: for each operator the operands of its cells folded with it,
   * the results added up. It succeeds only on valid operators and
   * readable columns, and is then the sum over the columns of each
   * column's operator applied to its operands.
   */
  function Part2(numbers: seq<seq<string>>, ops: seq<char>): (r: Option<nat>)
    ensures r.Some? ==> AllOperators(ops) && Collect(OperandColumns(numbers, |ops|)).Some?
    ensures r.Some? ==> r.value == Reduce('+', Results(ops, Collect(OperandColumns(numbers, |ops|)).value))
  {
    Solve(ops, OperandColumns(numbers, |ops|))
  }

  // ---------------------------------------------------------------------------
  // input_transform1

  /** A line whose first token is `*` or `+`. */
  predicate IsOperatorLine(line: string)
  {
    var ts := Tokens(line);
    ts != [] && (ts[0] == "*" || ts[0] == "+")
  }

  /** Each token `+` or `*` as its operator; None on any other token. */
  function ParseOperators(ts: seq<string>): (r: Option<seq<char>>)
    ensures r.Some? ==> |r.value| == |ts| && AllOperators(r.value)
  {
    Collect(seq(|ts|, i requires 0 <= i < |ts| =>
      if ts[i] == "+" then Some('+') else if ts[i] == "*" then Some('*') else None))
  }

  /** Each token parsed as `u64`. */
  function ParseRow(ts: seq<string>): (r: Option<seq<U64>>)
    ensures r.Some? ==> |r.value| == |ts|
  {
    match Collect(seq(|ts|, i requires 0 <= i < |ts| => ParseUnsigned(ts[i], U64_MAX)))
    case None => None
    case Some(vs) => Some(seq(|vs|, i requires 0 <= i < |vs| => vs[i] as U64))
  }

  /**
   * What `input_transform1` has built after the given lines: the number
   * rows in order, and the operators of the last operator line.
   */
  function Transform1(lines: seq<string>): Option<(seq<seq<U64>>, seq<char>)>
  {
    if lines == [] then Some(([], []))
    else
      match Transform1(lines[..|lines| - 1])
      case None => None
      case Some((numbers, ops)) =>
        var line := lines[|lines| - 1];
        if IsOperatorLine(line) then
          match ParseOperators(Tokens(line))
          case None => None
          case Some(o) => Some((numbers, o))
        else
          match ParseRow(Tokens(line))
          case None => None
          case Some(row) => Some((numbers + [row], ops))
  }

  /** `input_transform1`: one pass over the lines, pushing number rows and replacing the operators. */
  method InputTransform1(file: string) returns (r: Option<(seq<seq<U64>>, seq<char>)>)
    ensures r == Transform1(StrLines(file))
  {
    var lines := StrLines(file);
    var numbers: seq<seq<U64>> := [];
    var operators: seq<char> := [];
    for i := 0 to |lines|
      invariant Transform1(lines[..i]) == Some((numbers, operators))
    {
      assert lines[..i + 1][..i] == lines[..i];
      var line := lines[i];
      var ts := Tokens(line);
      if ts != [] && (ts[0] == "*" || ts[0] == "+") {
        var parsed := ParseOperators(ts);
        if parsed.None? {
          Transform1Fails(lines, i + 1);
          return None;
        }
        operators := parsed.value;
      } else {
        var row := ParseRow(ts);
        if row.None? {
          Transform1Fails(lines, i + 1);
          return None;
        }
        numbers := numbers + [row.value];
      }
    }
    assert lines[..|lines|] == lines;
    return Some((numbers, operators));
  }

  /** Once a line fails to parse, the whole input fails. */
  lemma {:induction false} Transform1Fails(lines: seq<string>, n: nat)
    requires n <= |lines| && Transform1(lines[..n]) == None
    ensures Transform1(lines) == None
    decreases |lines| - n
  {
    if n < |lines| {
      assert lines[..n + 1][..n] == lines[..n];
      Transform1Fails(lines, n + 1);
    } else {
      assert lines[..n] == lines;
    }
  }

  function FormatRow(row: seq<U64>): string
  {
    Join(seq(|row|, i requires 0 <= i < |row| => DecimalString(row[i])), " ")
  }

  function FormatOperators(ops: seq<char>): string
  {
    Join(seq(|ops|, i requires 0 <= i < |ops| => [ops[i]]), " ")
  }

  /** The worksheet written out: one line of numbers per row, then the operator line. */
  function FormatSheet(numbers: seq<seq<U64>>, ops: seq<char>): string
  {
    Join(FormatRows(numbers) + [FormatOperators(ops)] + [[]], "\n")
  }

  /** Each row on a line of its own. */
  function FormatRows(numbers: seq<seq<U64>>): (lines: seq<string>)
    ensures |lines| == |numbers| && forall k :: 0 <= k < |numbers| ==> lines[k] == FormatRow(numbers[k])
  {
    if numbers == [] then [] else FormatRows(numbers[..|numbers| - 1]) + [FormatRow(numbers[|numbers| - 1])]
  }

  lemma RowTokens(row: seq<U64>)
    ensures Tokens(FormatRow(row)) == seq(|row|, i requires 0 <= i < |row| => DecimalString(row[i]))
  {
    var ds := seq(|row|, i requires 0 <= i < |row| => DecimalString(row[i]));
    forall i | 0 <= i < |ds| ensures ds[i] != [] && NoSpace(ds[i]) {
    }
    TokensOfJoin(ds);
  }

  lemma RowRoundTrip(row: seq<U64>)
    requires row != []
    ensures !IsOperatorLine(FormatRow(row)) && ParseRow(Tokens(FormatRow(row))) == Some(row)
    ensures PlainLine(FormatRow(row))
  {
    RowTokens(row);
    var ds := seq(|row|, i requires 0 <= i < |row| => DecimalString(row[i]));
    var parsed := seq(|ds|, i requires 0 <= i < |ds| => ParseUnsigned(ds[i], U64_MAX));
    forall i | 0 <= i < |row| ensures parsed[i] == Some(row[i] as nat) {
      ParseUnsignedRoundTrip(row[i], U64_MAX);
    }
    var vs := Collect(parsed).value;
    assert seq(|vs|, i requires 0 <= i < |vs| => vs[i] as U64) == row;
    assert ds[0][0] != '*' && ds[0][0] != '+';
    assert ds[0] != "*" && ds[0] != "+";
    JoinPlain(ds);
  }

  /** Non-empty digit strings joined by spaces make a plain line. */
  lemma {:induction false} JoinPlain(ds: seq<string>)
    requires ds != [] && forall i :: 0 <= i < |ds| ==> ds[i] != [] && AllDigits(ds[i])
    ensures PlainLine(Join(ds, " "))
  {
    if |ds| > 1 {
      JoinPlain(ds[1..]);
      var rest := Join(ds[1..], " ");
      assert Join(ds, " ") == ds[0] + " " + rest;
    }
  }

  lemma OperatorsRoundTrip(ops: seq<char>)
    requires ops != [] && AllOperators(ops)
    ensures IsOperatorLine(FormatOperators(ops)) && ParseOperators(Tokens(FormatOperators(ops))) == Some(ops)
    ensures PlainLine(FormatOperators(ops))
  {
    var ts := seq(|ops|, i requires 0 <= i < |ops| => [ops[i]]);
    forall i | 0 <= i < |ts| ensures ts[i] != [] && NoSpace(ts[i]) {
    }
    TokensOfJoin(ts);
    var parsed := seq(|ts|, i requires 0 <= i < |ts| =>
      if ts[i] == "+" then Some('+') else if ts[i] == "*" then Some('*') else None);
    forall i | 0 <= i < |ts| ensures parsed[i] == Some(ops[i]) {
      assert ts[i] == [ops[i]];
    }
    assert Collect(parsed).value == ops;
    assert ts[0] == "*" || ts[0] == "+";
    OperatorsPlain(ts);
  }

  lemma {:induction false} OperatorsPlain(ts: seq<string>)
    requires ts != [] && forall i :: 0 <= i < |ts| ==> |ts[i]| == 1 && IsOperator(ts[i][0])
    ensures PlainLine(Join(ts, " "))
  {
    if |ts| > 1 {
      OperatorsPlain(ts[1..]);
      assert Join(ts, " ") == ts[0] + " " + Join(ts[1..], " ");
    }
  }

  /** `input_transform1` reads back a worksheet written one row per line with its operator line last. */
  lemma Transform1RoundTrip(numbers: seq<seq<U64>>, ops: seq<char>)
    requires forall k :: 0 <= k < |numbers| ==> numbers[k] != []
    requires ops != [] && AllOperators(ops)
    ensures Transform1(StrLines(FormatSheet(numbers, ops))) == Some((numbers, ops))
  {
    var rowLines := FormatRows(numbers);
    var opLine := FormatOperators(ops);
    var lines := rowLines + [opLine];
    forall k | 0 <= k < |numbers| ensures PlainLine(rowLines[k]) {
      RowRoundTrip(numbers[k]);
    }
    OperatorsRoundTrip(ops);
    assert forall k :: 0 <= k < |lines| ==> PlainLine(lines[k]);
    assert FormatSheet(numbers, ops) == Join(lines + [[]], "\n");
    StrLinesOfJoin(lines);
    FormatRowsRead(numbers);
    RowsRoundTrip(rowLines, numbers);
    Transform1Snoc(rowLines, opLine);
  }

  /** One more line after the rows: an operator line sets the operators. */
  lemma Transform1Snoc(lines: seq<string>, line: string)
    ensures Transform1(lines + [line]) ==
      match Transform1(lines)
      case None => None
      case Some((numbers, ops)) =>
        if IsOperatorLine(line) then
          match ParseOperators(Tokens(line))
          case None => None
          case Some(o) => Some((numbers, o))
        else
          match ParseRow(Tokens(line))
          case None => None
          case Some(row) => Some((numbers + [row], ops))
  {
    assert (lines + [line])[..|lines|] == lines;
  }

  /** Each line reads as the number row beside it: the lines are number lines. */
  ghost predicate RowsRead(lines: seq<string>, numbers: seq<seq<U64>>)
    decreases |lines|
  {
    |lines| == |numbers| &&
    (lines != [] ==>
      var n := |lines| - 1;
      !IsOperatorLine(lines[n]) && ParseRow(Tokens(lines[n])) == Some(numbers[n]) &&
      RowsRead(lines[..n], numbers[..n]))
  }

  lemma {:induction false} FormatRowsRead(numbers: seq<seq<U64>>)
    requires forall k :: 0 <= k < |numbers| ==> numbers[k] != []
    ensures RowsRead(FormatRows(numbers), numbers)
    decreases |numbers|
  {
    if numbers != [] {
      var n := |numbers| - 1;
      var lines := FormatRows(numbers);
      FormatRowsRead(numbers[..n]);
      RowRoundTrip(numbers[n]);
      assert lines[..n] == FormatRows(numbers[..n]);
    }
  }

  lemma {:induction false} RowsRoundTrip(lines: seq<string>, numbers: seq<seq<U64>>)
    requires RowsRead(lines, numbers)
    ensures Transform1(lines) == Some((numbers, []))
    decreases |lines|
  {
    if lines != [] {
      var n := |lines| - 1;
      RowsRoundTrip(lines[..n], numbers[..n]);
      Transform1Row(lines, numbers[..n], numbers[n]);
      assert numbers[..n] + [numbers[n]] == numbers;
    }
  }

  /** A number line after number lines adds its row. */
  lemma Transform1Row(lines: seq<string>, numbers: seq<seq<U64>>, row: seq<U64>)
    requires lines != [] && Transform1(lines[..|lines| - 1]) == Some((numbers, []))
    requires !IsOperatorLine(lines[|lines| - 1]) && ParseRow(Tokens(lines[|lines| - 1])) == Some(row)
    ensures Transform1(lines) == Some((numbers + [row], []))
  {
  }

  // ---------------------------------------------------------------------------
  // input_transform2

  /** The first operator line, or nothing when there is none. */
  function OperatorLine(lines: seq<string>): (r: string)
    ensures r != [] ==> exists k :: 0 <= k < |lines| && lines[k] == r && IsOperatorLine(r)
  {
    if lines == [] then []
    else if IsOperatorLine(lines[0]) then lines[0]
    else
      var r := OperatorLine(lines[1..]);
      assert r != [] ==> exists k :: 0 <= k < |lines| && lines[k] == r && IsOperatorLine(r) by {
        if r != [] {
          var k :| 0 <= k < |lines[1..]| && lines[1..][k] == r && IsOperatorLine(r);
          assert lines[k + 1] == r;
        }
      }
      r
  }

  predicate Increasing(ps: seq<nat>) { forall i, j :: 0 <= i < j < |ps| ==> ps[i] < ps[j] }

  /**
   * `positions`: the indices of the operator characters of the line, in
   * increasing order, and no others.
   */
  function Positions(line: string): (ps: seq<nat>)
    ensures Increasing(ps)
    ensures forall i :: 0 <= i < |ps| ==> ps[i] < |line| && IsOperator(line[ps[i]])
    ensures forall k :: 0 <= k < |line| && IsOperator(line[k]) ==> k in ps
  {
    if line == [] then []
    else
      var front := Positions(line[..|line| - 1]);
      if IsOperator(line[|line| - 1]) then front + [|line| - 1] else front
  }

  /** Where cell `i` ends: just before the blank that precedes the next operator, or at the end of the line. */
  function CellEnd(line: string, ps: seq<nat>, i: nat): int
    requires Increasing(ps) && i < |ps|
  {
    if i + 1 == |ps| then |line| else assert ps[i] < ps[i + 1]; ps[i + 1] - 1
  }

  /** The first `n` cells of the line; None where a slice is out of the line (a panic). */
  function Cells(line: string, ps: seq<nat>, n: nat): (r: Option<seq<string>>)
    requires Increasing(ps) && n <= |ps|
    ensures r.Some? ==> |r.value| == n
  {
    if n == 0 then Some([])
    else
      match Cells(line, ps, n - 1)
      case None => None
      case Some(cs) =>
        var end := CellEnd(line, ps, n - 1);
        if ps[n - 1] <= end <= |line| then Some(cs + [line[ps[n - 1]..end]]) else None
  }

  /**
   * The cells of a line laid out under the operators, with a blank before
   * each operator's column, joined again by single blanks give the line.
   */
  lemma {:induction false} CellsJoin(line: string, ps: seq<nat>, n: nat)
    requires Increasing(ps) && 1 <= n <= |ps| && ps[0] == 0 && ps[|ps| - 1] <= |line|
    requires forall i :: 1 <= i < |ps| ==> ps[i] <= |line| && line[ps[i] - 1] == ' '
    ensures Cells(line, ps, n).Some?
    ensures Join(Cells(line, ps, n).value, " ") == line[..CellEnd(line, ps, n - 1)]
  {
    if n == 1 {
      assert Cells(line, ps, 0) == Some([]);
    } else {
      CellsJoin(line, ps, n - 1);
      var cs := Cells(line, ps, n - 1).value;
      var end := CellEnd(line, ps, n - 1);
      var start := ps[n - 1];
      JoinSnoc(cs, line[start..end], " ");
      JoinAtBlank(line, start, end);
    }
  }

  /** Two pieces of a line around a blank, joined by a blank. */
  lemma JoinAtBlank(line: string, start: nat, end: nat)
    requires 1 <= start <= end <= |line| && line[start - 1] == ' '
    ensures line[..start - 1] + " " + line[start..end] == line[..end]
  {
    assert line[..end] == line[..start - 1] + [line[start - 1]] + line[start..end];
  }

  /**
   * `input_transform2`: the operators in the order they stand in the
   * first operator line, and each other line cut into cells at their
   * positions; None where a slice panics.
   */
  function Transform2(lines: seq<string>): (r: Option<(seq<seq<string>>, seq<char>)>)
    ensures r.Some? ==> AllOperators(r.value.1) && |r.value.1| == |Positions(OperatorLine(lines))|
    ensures r.Some? ==> forall k :: 0 <= k < |r.value.0| ==> |r.value.0[k]| == |r.value.1|
  {
    var opLine := OperatorLine(lines);
    var ps := Positions(opLine);
    var ops := seq(|ps|, i requires 0 <= i < |ps| => opLine[ps[i]]);
    var numberLines := NumberLines(lines);
    match Collect(seq(|numberLines|, k requires 0 <= k < |numberLines| => Cells(numberLines[k], ps, |ps|)))
    case None => None
    case Some(numbers) => Some((numbers, ops))
  }

  /** The lines that are not operator lines, in order. */
  function NumberLines(lines: seq<string>): (r: seq<string>)
    ensures forall k :: 0 <= k < |r| ==> !IsOperatorLine(r[k])
    ensures |r| <= |lines|
  {
    if lines == [] then []
    else (if IsOperatorLine(lines[0]) then [] else [lines[0]]) + NumberLines(lines[1..])
  }
}
