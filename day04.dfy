/**
 * Day 4 of aoc2025 (day04/src/main.rs): a grid of paper rolls. A roll is
 * accessible when fewer than 4 of its up to 8 neighbours hold paper. Part 1
 * counts the accessible rolls; part 2 removes accessible rolls, sweeping
 * the grid row by row in place, until a sweep removes nothing.
 */
module Day04 {
  import opened Common

  /** One cell of the grid. */
  datatype State = Empty | Paper

  type Row = seq<State>
  type Board = seq<Row>

  /** `input_transform`: `.` is Empty, `@` is Paper; None where the source panics on any other character. */
  function InputTransform(line: string): (r: Option<Row>)
    ensures r.Some? ==> |r.value| == |line| && forall i :: 0 <= i < |line| ==> (r.value[i] == Paper <==> line[i] == '@')
    ensures r.None? <==> exists i :: 0 <= i < |line| && line[i] != '.' && line[i] != '@'
  {
    if line == [] then Some([])
    else
      match InputTransform(line[1..])
      case None => None
      case Some(rest) =>
        assert forall i :: 1 <= i < |line| ==> line[i] == line[1..][i - 1];
        if line[0] == '.' then Some([Empty] + rest)
        else if line[0] == '@' then Some([Paper] + rest)
        else None
  }

  /** The character a cell is written as. */
  function FormatRow(row: Row): (s: string)
  {
    if row == [] then [] else [if row[0] == Paper then '@' else '.'] + FormatRow(row[1..])
  }

  /** `input_transform` reads every row back from its written form. */
  lemma {:induction false} InputTransformFormat(row: Row)
    ensures InputTransform(FormatRow(row)) == Some(row)
  {
    if row != [] {
      InputTransformFormat(row[1..]);
      assert FormatRow(row)[1..] == FormatRow(row[1..]);
      assert [row[0]] + row[1..] == row;
    }
  }

  // ---------------------------------------------------------------------------
  // The grid and its neighbourhoods

  /** A non-empty rectangular grid (the width is taken from the first row). */
  predicate IsGrid(b: Board)
  {
    |b| >= 1 && forall y :: 0 <= y < |b| ==> |b[y]| == |b[0]|
  }

  function Width(b: Board): nat
    requires |b| >= 1
  {
    |b[0]|
  }

  /** Two boards with the same number of rows, and rows of the same lengths. */
  predicate SameShape(r: Board, b: Board)
  {
    |r| == |b| && forall y :: 0 <= y < |b| ==> |r[y]| == |b[y]|
  }

  /** The candidate `(tx, ty)` is kept: inside the `w` by `h` grid and not `(x, y)` itself. */
  predicate Keep(w: nat, h: nat, x: nat, y: nat, tx: int, ty: int)
  {
    ty >= 0 && ty < h && tx >= 0 && tx < w && !(tx == x && ty == y)
  }

  /** The `i`-th of the nine candidates, row by row from `(x - 1, y - 1)` to `(x + 1, y + 1)`. */
  function Candidate(x: nat, y: nat, i: nat): (int, int)
    requires i < 9
  {
    (x - 1 + i % 3, y - 1 + i / 3)
  }

  /** Candidate `3 * r + c` is column `c` of row `r` of the three by three block around `(x, y)`. */
  lemma CandidateAt(x: nat, y: nat, r: nat, c: nat)
    requires r < 3 && c < 3
    ensures Candidate(x, y, 3 * r + c) == (x - 1 + c, y - 1 + r)
  {
    DivModOfBlock(r, c, 3);
  }

  /** The kept candidates among the first `n`, in order. */
  function NeighboursUpTo(w: nat, h: nat, x: nat, y: nat, n: nat): seq<(nat, nat)>
    requires n <= 9
  {
    if n == 0 then []
    else
      var c := Candidate(x, y, n - 1);
      NeighboursUpTo(w, h, x, y, n - 1) + (if Keep(w, h, x, y, c.0, c.1) then [(c.0 as nat, c.1 as nat)] else [])
  }

  /** `adjacent_coords`: the in-grid neighbours of `(x, y)`, row by row. */
  function Neighbours(w: nat, h: nat, x: nat, y: nat): seq<(nat, nat)>
  {
    NeighboursUpTo(w, h, x, y, 9)
  }

  /** `p` is at Chebyshev distance exactly 1 from `(x, y)`. */
  predicate Touches(x: nat, y: nat, p: (nat, nat))
  {
    p != (x, y) && -1 <= p.0 - x <= 1 && -1 <= p.1 - y <= 1
  }

  lemma {:induction false} NeighboursUpToMembers(w: nat, h: nat, x: nat, y: nat, n: nat)
    requires n <= 9
    ensures forall p :: p in NeighboursUpTo(w, h, x, y, n) <==>
      exists i :: 0 <= i < n && Candidate(x, y, i) == (p.0 as int, p.1 as int) && Keep(w, h, x, y, p.0, p.1)
  {
    if n > 0 {
      NeighboursUpToMembers(w, h, x, y, n - 1);
      var prev := NeighboursUpTo(w, h, x, y, n - 1);
      var c := Candidate(x, y, n - 1);
      forall p | p in NeighboursUpTo(w, h, x, y, n) && p !in prev
        ensures Candidate(x, y, n - 1) == (p.0 as int, p.1 as int) && Keep(w, h, x, y, p.0, p.1)
      {
      }
      forall p: (nat, nat), i: nat | 0 <= i < n && Candidate(x, y, i) == (p.0 as int, p.1 as int) && Keep(w, h, x, y, p.0, p.1)
        ensures p in NeighboursUpTo(w, h, x, y, n)
      {
        if i == n - 1 {
          assert NeighboursUpTo(w, h, x, y, n) == prev + [(c.0 as nat, c.1 as nat)];
        }
      }
    }
  }

  /** The candidate `(x, y)` itself is never kept, so at most `n - 1` of `n >= 5` candidates are. */
  lemma {:induction false} NeighboursUpToLength(w: nat, h: nat, x: nat, y: nat, n: nat)
    requires n <= 9
    ensures |NeighboursUpTo(w, h, x, y, n)| <= (if n >= 5 then n - 1 else n)
  {
    if n > 0 {
      NeighboursUpToLength(w, h, x, y, n - 1);
      assert Candidate(x, y, 4) == (x as int, y as int);
    }
  }

  /**
   * The neighbours are exactly the cells of the grid at Chebyshev distance
   * 1 from `(x, y)`, never `(x, y)` itself, and there are at most 8.
   */
  lemma NeighboursMembers(w: nat, h: nat, x: nat, y: nat)
    ensures forall p :: p in Neighbours(w, h, x, y) <==> p.0 < w && p.1 < h && Touches(x, y, p)
    ensures |Neighbours(w, h, x, y)| <= 8
  {
    NeighboursUpToMembers(w, h, x, y, 9);
    NeighboursUpToLength(w, h, x, y, 9);
    forall p: (nat, nat) | p.0 < w && p.1 < h && Touches(x, y, p)
      ensures p in Neighbours(w, h, x, y)
    {
      var i := 3 * (p.1 - y + 1) + (p.0 - x + 1);
      assert Candidate(x, y, i) == (p.0 as int, p.1 as int);
    }
  }

  /** `adjacent_coords`: tries the nine candidates row by row and pushes the kept ones. */
  method AdjacentCoords(board: Board, x: nat, y: nat) returns (result: seq<(nat, nat)>)
    requires IsGrid(board)
    ensures result == Neighbours(Width(board), |board|, x, y)
  {
    var w := |board[0]|;
    var h := |board|;
    result := [];
    ghost var i := 0;
    var ty := y as int - 1;
    while ty <= y + 1
      invariant y - 1 <= ty <= y + 2
      invariant i == 3 * (ty - (y - 1))
      invariant result == NeighboursUpTo(w, h, x, y, i)
    {
      var tx := x as int - 1;
      while tx <= x + 1
        invariant x - 1 <= tx <= x + 2
        invariant i == 3 * (ty - (y - 1)) + (tx - (x - 1))
        invariant result == NeighboursUpTo(w, h, x, y, i)
      {
        CandidateAt(x, y, ty - (y - 1), tx - (x - 1));
        if ty >= 0 && ty < h && tx >= 0 && tx < w && !(tx == x && ty == y) {
          result := result + [(tx as nat, ty as nat)];
        }
        i := i + 1;
        tx := tx + 1;
      }
      ty := ty + 1;
    }
  }

  /** The positions are cells of the board. */
  predicate AllInside(board: Board, ps: seq<(nat, nat)>)
  {
    forall k :: 0 <= k < |ps| ==> ps[k].1 < |board| && ps[k].0 < |board[ps[k].1]|
  }

  /** The number of the positions that hold paper. */
  function PaperAmong(board: Board, ps: seq<(nat, nat)>): (r: nat)
    requires AllInside(board, ps)
    ensures r <= |ps|
  {
    if ps == [] then 0
    else
      var p := ps[|ps| - 1];
      PaperAmong(board, ps[..|ps| - 1]) + (if board[p.1][p.0] == Paper then 1 else 0)
  }

  /** `adjacent`: the number of neighbours holding paper. */
  function AdjacentCount(board: Board, x: nat, y: nat): (r: nat)
    requires IsGrid(board)
    ensures r <= 8
  {
    var ns := Neighbours(Width(board), |board|, x, y);
    NeighboursMembers(Width(board), |board|, x, y);
    assert forall k :: 0 <= k < |ns| ==> ns[k] in ns;
    PaperAmong(board, ns)
  }

  /** `adjacent`: counts the paper cells among `adjacent_coords`. */
  method Adjacent(board: Board, x: nat, y: nat) returns (result: nat)
    requires IsGrid(board)
    ensures result == AdjacentCount(board, x, y) && result <= 8
  {
    var coords := AdjacentCoords(board, x, y);
    NeighboursMembers(Width(board), |board|, x, y);
    assert forall k :: 0 <= k < |coords| ==> coords[k] in coords;
    result := 0;
    for k := 0 to |coords|
      invariant result == PaperAmong(board, coords[..k])
    {
      assert coords[..k + 1][..k] == coords[..k];
      if board[coords[k].1][coords[k].0] == Paper {
        result := result + 1;
      }
    }
    assert coords[..|coords|] == coords;
  }

  // ---------------------------------------------------------------------------
  // Part 1

  /** A roll of paper with fewer than 4 neighbouring rolls. */
  predicate Accessible(board: Board, x: nat, y: nat)
    requires IsGrid(board) && y < |board| && x < Width(board)
  {
    board[y][x] == Paper && AdjacentCount(board, x, y) < 4
  }

  /** No roll of the board is accessible. */
  predicate Stable(board: Board)
    requires IsGrid(board)
  {
    forall y, x :: 0 <= y < |board| && 0 <= x < Width(board) ==> !Accessible(board, x, y)
  }

  /** The accessible rolls among the first `n` cells of row `y`. */
  function CountRow(board: Board, y: nat, n: nat): nat
    requires IsGrid(board) && y < |board| && n <= Width(board)
  {
    if n == 0 then 0 else CountRow(board, y, n - 1) + (if Accessible(board, n - 1, y) then 1 else 0)
  }

  /** The accessible rolls in the first `m` rows. */
  function CountRows(board: Board, m: nat): nat
    requires IsGrid(board) && m <= |board|
  {
    if m == 0 then 0 else CountRows(board, m - 1) + CountRow(board, m - 1, Width(board))
  }

  /** `part1`: the number of accessible rolls; the board is not changed. */
  function Part1(input: Board): nat
    requires input == [] || IsGrid(input)
  {
    if input == [] then 0 else CountRows(input, |input|)
  }

  /** The paper cells among the first `n` of a row. */
  function RowPaper(row: Row, n: nat): (r: nat)
    requires n <= |row|
    ensures r <= n
  {
    if n == 0 then 0 else RowPaper(row, n - 1) + (if row[n - 1] == Paper then 1 else 0)
  }

  /** The paper cells in the first `m` rows. */
  function PaperRows(b: Board, m: nat): nat
    requires m <= |b|
  {
    if m == 0 then 0 else PaperRows(b, m - 1) + RowPaper(b[m - 1], |b[m - 1]|)
  }

  /** The number of rolls on the board. */
  function PaperCount(b: Board): nat
  {
    PaperRows(b, |b|)
  }

  lemma {:induction false} CountRowBound(board: Board, y: nat, n: nat)
    requires IsGrid(board) && y < |board| && n <= Width(board)
    ensures CountRow(board, y, n) <= RowPaper(board[y], n)
    ensures CountRow(board, y, n) == 0 <==> forall x :: 0 <= x < n ==> !Accessible(board, x, y)
  {
    if n > 0 {
      CountRowBound(board, y, n - 1);
    }
  }

  lemma {:induction false} CountRowsBound(board: Board, m: nat)
    requires IsGrid(board) && m <= |board|
    ensures CountRows(board, m) <= PaperRows(board, m)
    ensures CountRows(board, m) == 0 <==> forall y, x :: 0 <= y < m && 0 <= x < Width(board) ==> !Accessible(board, x, y)
  {
    if m > 0 {
      CountRowsBound(board, m - 1);
      CountRowBound(board, m - 1, Width(board));
    }
  }

  /**
   * `part1` counts no more than the rolls on the board, and is 0 exactly
   * when no roll is accessible.
   */
  lemma Part1Bounds(board: Board)
    requires IsGrid(board)
    ensures Part1(board) <= PaperCount(board)
    ensures Part1(board) == 0 <==> Stable(board)
  {
    CountRowsBound(board, |board|);
  }

  // ---------------------------------------------------------------------------
  // Part 2

  /** Every roll of `r` is a roll of `b`: `r` is `b` with some rolls taken away. */
  predicate Sub(r: Board, b: Board)
  {
    SameShape(r, b) && forall y, x :: 0 <= y < |b| && 0 <= x < |b[y]| ==> r[y][x] == Paper ==> b[y][x] == Paper
  }

  /** The in-place step at one cell: an accessible roll is removed. */
  function StepCell(b: Board, x: nat, y: nat): (r: Board)
    requires IsGrid(b) && y < |b| && x < Width(b)
    ensures SameShape(r, b)
  {
    if Accessible(b, x, y) then b[y := b[y][x := Empty]] else b
  }

  /** The first `n` steps of row `y`, each seeing the removals before it. */
  function SweepRow(b: Board, y: nat, n: nat): (r: Board)
    requires IsGrid(b) && y < |b| && n <= Width(b)
    ensures SameShape(r, b)
  {
    if n == 0 then b else StepCell(SweepRow(b, y, n - 1), n - 1, y)
  }

  /** The sweep of the first `m` rows. */
  function SweepRows(b: Board, m: nat): (r: Board)
    requires IsGrid(b) && m <= |b|
    ensures SameShape(r, b)
  {
    if m == 0 then b else SweepRow(SweepRows(b, m - 1), m - 1, Width(b))
  }

  /** One sweep of `part2` over the whole board. */
  function Sweep(b: Board): (r: Board)
    requires IsGrid(b)
    ensures SameShape(r, b)
  {
    SweepRows(b, |b|)
  }

  /** Sweeps until one removes nothing: the board `part2` ends with. */
  function Erode(b: Board): (r: Board)
    requires IsGrid(b)
    ensures SameShape(r, b)
    decreases PaperCount(b)
  {
    var next := Sweep(b);
    SweepSub(b, |b|);
    SubCount(next, b);
    if PaperCount(next) == PaperCount(b) then b else Erode(next)
  }

  lemma {:induction false} RowRemoveOne(row: Row, x: nat, n: nat)
    requires x < |row| && n <= |row| && row[x] == Paper
    ensures RowPaper(row[x := Empty], n) + (if x < n then 1 else 0) == RowPaper(row, n)
  {
    if n > 0 {
      RowRemoveOne(row, x, n - 1);
    }
  }

  lemma {:induction false} RowsReplace(b: Board, y: nat, r: Row, m: nat)
    requires y < |b| && m <= |b|
    ensures PaperRows(b[y := r], m) + (if y < m then RowPaper(b[y], |b[y]|) else 0)
         == PaperRows(b, m) + (if y < m then RowPaper(r, |r|) else 0)
  {
    if m > 0 {
      RowsReplace(b, y, r, m - 1);
    }
  }

  /** A step removes at most the one roll, and removes it exactly when it is accessible. */
  lemma StepCellCount(b: Board, x: nat, y: nat)
    requires IsGrid(b) && y < |b| && x < Width(b)
    ensures Sub(StepCell(b, x, y), b)
    ensures PaperCount(StepCell(b, x, y)) + (if Accessible(b, x, y) then 1 else 0) == PaperCount(b)
  {
    if Accessible(b, x, y) {
      RowRemoveOne(b[y], x, |b[y]|);
      RowsReplace(b, y, b[y][x := Empty], |b|);
    }
  }

  lemma {:induction false} RowSubCount(r: Row, s: Row, n: nat)
    requires n <= |r| == |s|
    requires forall x :: 0 <= x < n ==> r[x] == Paper ==> s[x] == Paper
    ensures RowPaper(r, n) <= RowPaper(s, n)
    ensures RowPaper(r, n) == RowPaper(s, n) ==> forall x :: 0 <= x < n ==> r[x] == s[x]
  {
    if n > 0 {
      RowSubCount(r, s, n - 1);
    }
  }

  lemma {:induction false} RowsSubCount(r: Board, b: Board, m: nat)
    requires Sub(r, b) && m <= |b|
    ensures PaperRows(r, m) <= PaperRows(b, m)
    ensures PaperRows(r, m) == PaperRows(b, m) ==> forall y :: 0 <= y < m ==> r[y] == b[y]
  {
    if m > 0 {
      RowsSubCount(r, b, m - 1);
      RowSubCount(r[m - 1], b[m - 1], |b[m - 1]|);
    }
  }

  /** Taking rolls away lowers the count, and leaves it unchanged only when nothing was taken. */
  lemma SubCount(r: Board, b: Board)
    requires Sub(r, b)
    ensures PaperCount(r) <= PaperCount(b)
    ensures PaperCount(r) == PaperCount(b) ==> r == b
  {
    RowsSubCount(r, b, |b|);
  }

  lemma {:induction false} SweepRowMono(b: Board, y: nat, k: nat, n: nat)
    requires IsGrid(b) && y < |b| && k <= n <= Width(b)
    ensures Sub(SweepRow(b, y, n), SweepRow(b, y, k))
  {
    if k < n {
      SweepRowMono(b, y, k, n - 1);
      StepCellCount(SweepRow(b, y, n - 1), n - 1, y);
    }
  }

  /** Later rows' sweeps only take rolls away. */
  lemma {:induction false} SweepRowsMono(b: Board, k: nat, m: nat)
    requires IsGrid(b) && k <= m <= |b|
    ensures Sub(SweepRows(b, m), SweepRows(b, k))
  {
    if k < m {
      SweepRowsMono(b, k, m - 1);
      SweepRowMono(SweepRows(b, m - 1), m - 1, 0, Width(b));
    }
  }

  /** A sweep only turns rolls into empty cells. */
  lemma SweepSub(b: Board, m: nat)
    requires IsGrid(b) && m <= |b|
    ensures Sub(SweepRows(b, m), b)
  {
    SweepRowsMono(b, 0, m);
  }

  /** Sweeping a board with no accessible roll changes nothing. */
  lemma StableSweepUnchanged(b: Board)
    requires IsGrid(b) && Stable(b)
    ensures Sweep(b) == b
  {
    forall m | 0 <= m <= |b| ensures SweepRows(b, m) == b {
      StableRowsUnchanged(b, m);
    }
  }

  lemma {:induction false} StableRowsUnchanged(b: Board, m: nat)
    requires IsGrid(b) && Stable(b) && m <= |b|
    ensures SweepRows(b, m) == b
  {
    if m > 0 {
      StableRowsUnchanged(b, m - 1);
      StableRowUnchanged(b, m - 1, Width(b));
    }
  }

  lemma {:induction false} StableRowUnchanged(b: Board, y: nat, n: nat)
    requires IsGrid(b) && Stable(b) && y < |b| && n <= Width(b)
    ensures SweepRow(b, y, n) == b
  {
    if n > 0 {
      StableRowUnchanged(b, y, n - 1);
    }
  }

  /**
   * A sweep that removes nothing saw the unchanged board at every cell, so
   * no roll of the board is accessible.
   */
  lemma SweepUnchangedStable(b: Board)
    requires IsGrid(b) && PaperCount(Sweep(b)) == PaperCount(b)
    ensures Stable(b)
  {
    SweepSub(b, |b|);
    SubCount(Sweep(b), b);
    forall y, x | 0 <= y < |b| && 0 <= x < Width(b) ensures !Accessible(b, x, y) {
      CellUnchanged(b, x, y);
    }
  }

  lemma CellUnchanged(b: Board, x: nat, y: nat)
    requires IsGrid(b) && Sweep(b) == b && y < |b| && x < Width(b)
    ensures !Accessible(b, x, y)
  {
    var s := SweepRow(SweepRows(b, y), y, x);
    var t := SweepRow(SweepRows(b, y), y, x + 1);
    SweepSub(b, y);
    SweepRowMono(SweepRows(b, y), y, 0, x);
    SweepRowMono(SweepRows(b, y), y, x + 1, Width(b));
    SweepRowsMono(b, y + 1, |b|);
    StepCellCount(s, x, y);
    SubCount(s, b);
    SubCount(t, s);
    SubCount(b, t);
  }

  /** A sweep removes nothing exactly when no roll of the board is accessible. */
  lemma SweepFixpoint(b: Board)
    requires IsGrid(b)
    ensures Sweep(b) == b <==> Stable(b)
  {
    if Stable(b) {
      StableSweepUnchanged(b);
    } else if Sweep(b) == b {
      SweepUnchangedStable(b);
    }
  }

  /**
   * The board `part2` ends with: every roll on it was on the input, and
   * none of them is accessible, so `part1` of it is 0.
   */
  lemma {:induction false} ErodeStable(b: Board)
    requires IsGrid(b)
    ensures Sub(Erode(b), b) && Stable(Erode(b)) && Part1(Erode(b)) == 0
    decreases PaperCount(b)
  {
    var next := Sweep(b);
    SweepSub(b, |b|);
    SubCount(next, b);
    if PaperCount(next) == PaperCount(b) {
      SweepUnchangedStable(b);
    } else {
      ErodeStable(next);
    }
    Part1Bounds(Erode(b));
  }

  /** On a board where no roll is accessible, `part2` removes nothing. */
  lemma StableErodesToItself(b: Board)
    requires IsGrid(b) && Stable(b)
    ensures Erode(b) == b
  {
    StableSweepUnchanged(b);
  }

  /** One sweep of `part2`, overwriting each accessible roll in place and counting the removals. */
  method SweepBoard(board: Board) returns (next: Board, removed: nat)
    requires IsGrid(board)
    ensures next == Sweep(board)
    ensures removed == PaperCount(board) - PaperCount(next)
  {
    var w := |board[0]|;
    var h := |board|;
    next := board;
    removed := 0;
    for y := 0 to h
      invariant next == SweepRows(board, y)
      invariant removed + PaperCount(next) == PaperCount(board)
    {
      for x := 0 to w
        invariant next == SweepRow(SweepRows(board, y), y, x)
        invariant removed + PaperCount(next) == PaperCount(board)
      {
        ghost var prev := next;
        StepCellCount(prev, x, y);
        var a := Adjacent(next, x, y);
        if next[y][x] == Paper && a < 4 {
          next := next[y := next[y][x := Empty]];
          removed := removed + 1;
        }
      }
    }
  }

  /**
   * `part2`: sweeps until a sweep removes nothing, and returns the rolls
   * removed in all, which is the rolls on the input less the rolls left.
   */
  method Part2(input: Board) returns (removed: nat)
    requires IsGrid(input)
    ensures removed == PaperCount(input) - PaperCount(Erode(input))
  {
    var board := input;
    removed := 0;
    while true
      invariant IsGrid(board) && Erode(board) == Erode(input)
      invariant removed + PaperCount(board) == PaperCount(input)
      decreases PaperCount(board)
    {
      var next, thisRemoved := SweepBoard(board);
      if thisRemoved == 0 {
        break;
      }
      removed := removed + thisRemoved;
      board := next;
    }
  }
}
