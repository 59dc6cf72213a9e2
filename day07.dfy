/**
 * Day 7 of aoc2025 (day07/src/main.rs): a beam enters a grid at the start
 * cell and moves down one row at a time; a splitter sends it on from the
 * columns either side. Part 1 counts the splits of a set of beams; part 2
 * follows every timeline, counting the beams in each column, and adds up
 * the counts after the last row.
 */
module Day07 {
  import opened Common

  datatype Space = Start | Empty | Splitter

  type Row = seq<Space>

  // ---------------------------------------------------------------------------
  // Input

  function Cell(c: char): Option<Space>
  {
    if c == '.' then Some(Empty) else if c == '^' then Some(Splitter) else if c == 'S' then Some(Start) else None
  }

  /** `input_transform`: `.`, `^` and `S` as Empty, Splitter and Start; None where the source panics. */
  function InputTransform(line: string): (r: Option<Row>)
    ensures r.Some? <==> forall i :: 0 <= i < |line| ==> line[i] == '.' || line[i] == '^' || line[i] == 'S'
    ensures r.Some? ==> |r.value| == |line|
  {
    var cells := seq(|line|, i requires 0 <= i < |line| => Cell(line[i]));
    assert forall i :: 0 <= i < |line| ==> cells[i] == Cell(line[i]);
    Collect(cells)
  }

  function Symbol(s: Space): char
  {
    match s
    case Start => 'S'
    case Empty => '.'
    case Splitter => '^'
  }

  function FormatRow(row: Row): string
  {
    seq(|row|, i requires 0 <= i < |row| => Symbol(row[i]))
  }

  /** `input_transform` reads back every row from its written form. */
  lemma InputTransformFormat(row: Row)
    ensures InputTransform(FormatRow(row)) == Some(row)
  {
    var line := FormatRow(row);
    var cells := seq(|line|, i requires 0 <= i < |line| => Cell(line[i]));
    assert forall i :: 0 <= i < |row| ==> cells[i] == Some(row[i]);
    assert Collect(cells).value == row;
  }

  // ---------------------------------------------------------------------------
  // find_start

  /** The index of the first Start in the row. */
  function FirstStart(row: Row): (r: Option<nat>)
    ensures r.Some? ==> r.value < |row| && row[r.value] == Start
    ensures r.Some? ==> forall x :: 0 <= x < r.value ==> row[x] != Start
    ensures r.None? ==> forall x :: 0 <= x < |row| ==> row[x] != Start
  {
    if row == [] then None
    else if row[0] == Start then Some(0)
    else
      match FirstStart(row[1..])
      case None => None
      case Some(x) => Some(x + 1)
  }

  /**
   * `find_start`: the first Start cell in row-major order, as `(x, y)`;
   * None when the grid has none (the source's `unwrap` panics).
   */
  function FindStart(input: seq<Row>): (r: Option<(nat, nat)>)
    ensures r.Some? ==> r.value.1 < |input| && r.value.0 < |input[r.value.1]| && input[r.value.1][r.value.0] == Start
    ensures r.Some? ==> forall y, x :: 0 <= y < r.value.1 && 0 <= x < |input[y]| ==> input[y][x] != Start
    ensures r.Some? ==> forall x :: 0 <= x < r.value.0 ==> input[r.value.1][x] != Start
    ensures r.None? ==> forall y, x :: 0 <= y < |input| && 0 <= x < |input[y]| ==> input[y][x] != Start
  {
    if input == [] then None
    else
      match FirstStart(input[0])
      case Some(x) => Some((x, 0))
      case None =>
        match FindStart(input[1..])
        case None => None
        case Some((x, y)) =>
          assert forall y' :: 1 <= y' < |input| ==> input[y'] == input[1..][y' - 1];
          Some((x, y + 1))
  }

  // ---------------------------------------------------------------------------
  // One row, without multiplicity (part 1)

  /**
   * A beam in column `x` can enter the row: the column is in the row, the
   * cell is not a Start (the source panics there), and a splitter is not
   * in column 0 (where `x - 1` underflows).
   */
  predicate Passable(row: Row, x: nat)
  {
    x < |row| && row[x] != Start && !(row[x] == Splitter && x == 0)
  }

  predicate AllPassable(row: Row, beams: set<nat>)
  {
    forall x :: x in beams ==> Passable(row, x)
  }

  /** Column `y` of the row below receives a beam: Empty passes a beam on, a splitter sends it to both sides. */
  predicate Reaches(row: Row, beams: set<nat>, y: nat)
  {
    (y in beams && y < |row| && row[y] == Empty)
      || (y + 1 in beams && y + 1 < |row| && row[y + 1] == Splitter)
      || (y >= 1 && y - 1 in beams && y - 1 < |row| && row[y - 1] == Splitter)
  }

  /** The beams of the row below. */
  function Step1(row: Row, beams: set<nat>): (next: set<nat>)
    ensures forall y :: y in next <==> Reaches(row, beams, y)
  {
    set y: nat | y <= |row| && Reaches(row, beams, y)
  }

  /** The beams that hit a splitter. */
  function SplitBeams(row: Row, beams: set<nat>): set<nat>
  {
    set x | x in beams && x < |row| && row[x] == Splitter
  }

  /** Beams converging on one column are one beam: splitters two apart send a single beam between them. */
  lemma ConvergingBeams(row: Row, x: nat)
    requires 1 <= x && x + 1 < |row| && row[x - 1] == Splitter && row[x + 1] == Splitter
    ensures x in Step1(row, {x - 1, x + 1})
    ensures Step1(row, {x - 1, x + 1}) <= {x - 2, x, x + 2}
    ensures |SplitBeams(row, {x - 1, x + 1})| == 2
  {
    assert SplitBeams(row, {x - 1, x + 1}) == {x - 1, x + 1};
  }

  /** Adding one beam adds its targets to the next row and, at a splitter, one split. */
  lemma Step1Add(row: Row, done: set<nat>, x: nat)
    requires Passable(row, x) && x !in done
    ensures Step1(row, done + {x}) ==
      Step1(row, done) + (if row[x] == Empty then {x} else {x - 1, x + 1})
    ensures SplitBeams(row, done + {x}) ==
      SplitBeams(row, done) + (if row[x] == Splitter then {x} else {})
  {
    assert SplitBeams(row, done + {x}) ==
      SplitBeams(row, done) + (if row[x] == Splitter then {x} else {});
  }

  /** One beam entering the row: its targets join `next`, and a splitter counts one split. */
  method Enter(row: Row, ghost done: set<nat>, x: nat, next: set<nat>, splits: nat) returns (next': set<nat>, splits': nat)
    requires Passable(row, x) && x !in done
    requires next == Step1(row, done) && splits == |SplitBeams(row, done)|
    ensures next' == Step1(row, done + {x}) && splits' == |SplitBeams(row, done + {x})|
  {
    Step1Add(row, done, x);
    match row[x] {
      case Splitter =>
        next' := next + {x - 1, x + 1};
        splits' := splits + 1;
      case Empty =>
        next' := next + {x};
        splits' := splits;
    }
  }

  /**
   * The `for x in beams` loop of `part1`: the beams of the next row and
   * the number of splits, or failure when a beam cannot enter the row.
   */
  method Row1(row: Row, beams: set<nat>) returns (next: set<nat>, splits: nat, ok: bool)
    ensures ok <==> AllPassable(row, beams)
    ensures ok ==> next == Step1(row, beams) && splits == |SplitBeams(row, beams)|
  {
    next := {};
    splits := 0;
    var todo := beams;
    ghost var done: set<nat> := {};
    while todo != {}
      invariant done + todo == beams && done !! todo
      invariant AllPassable(row, done)
      invariant next == Step1(row, done) && splits == |SplitBeams(row, done)|
      decreases |todo|
    {
      var x :| x in todo;
      if !Passable(row, x) {
        return next, splits, false;
      }
      next, splits := Enter(row, done, x, next, splits);
      todo := todo - {x};
      done := done + {x};
    }
    return next, splits, true;
  }

  /**
   * The rows below the start processed in order: the final beams and the
   * total number of splits, or None when some beam cannot enter its row.
   */
  function Run1(rows: seq<Row>, beams: set<nat>, splits: nat): Option<(set<nat>, nat)>
  {
    if rows == [] then Some((beams, splits))
    else if !AllPassable(rows[0], beams) then None
    else Run1(rows[1..], Step1(rows[0], beams), splits + |SplitBeams(rows[0], beams)|)
  }

  /** Row `y` processed by `Row1`: the run from row `y` is the run from row `y + 1`, or fails. */
  lemma Run1Next(input: seq<Row>, y: nat, beams: set<nat>, splits: nat, next: set<nat>, s: nat, ok: bool)
    requires y < |input|
    requires ok <==> AllPassable(input[y], beams)
    requires ok ==> next == Step1(input[y], beams) && s == |SplitBeams(input[y], beams)|
    ensures !ok ==> Run1(input[y..], beams, splits).None?
    ensures ok ==> Run1(input[y..], beams, splits) == Run1(input[y + 1..], next, splits + s)
  {
    assert input[y..][0] == input[y] && input[y..][1..] == input[y + 1..];
  }

  /** `part1`: from the start cell, the splits over all the rows below it. */
  method Part1(input: seq<Row>) returns (r: Option<nat>)
    ensures FindStart(input).None? ==> r.None?
    ensures FindStart(input).Some? ==>
      var (sx, sy) := FindStart(input).value;
      r == (match Run1(input[sy + 1..], {sx}, 0) case None => None case Some((_, s)) => Some(s))
  {
    var start := FindStart(input);
    if start.None? {
      return None;
    }
    var (sx, sy) := start.value;
    var beams: set<nat> := {sx};
    var splits := 0;
    var y := sy + 1;
    while y < |input|
      invariant sy + 1 <= y <= |input|
      invariant Run1(input[y..], beams, splits) == Run1(input[sy + 1..], {sx}, 0)
    {
      var next, s, ok := Row1(input[y], beams);
      Run1Next(input, y, beams, splits, next, s, ok);
      if !ok {
        return None;
      }
      beams := next;
      splits := splits + s;
      y := y + 1;
    }
    assert input[y..] == [];
    return Some(splits);
  }

  // ---------------------------------------------------------------------------
  // One row, with multiplicity (part 2)

  /** How many timelines reach column `y` of the row below from the beams `m`. */
  function Inflow(row: Row, m: map<nat, nat>, y: nat): nat
  {
    (if y in m && y < |row| && row[y] == Empty then m[y] else 0)
      + (if y + 1 in m && y + 1 < |row| && row[y + 1] == Splitter then m[y + 1] else 0)
      + (if y >= 1 && y - 1 in m && y - 1 < |row| && row[y - 1] == Splitter then m[y - 1] else 0)
  }

  /** The same transitions as part 1, with each beam carrying its number of timelines. */
  function Step2(row: Row, m: map<nat, nat>): (next: map<nat, nat>)
    ensures next.Keys == Step1(row, m.Keys)
  {
    map y | y in Step1(row, m.Keys) :: Inflow(row, m, y)
  }

  /** `*entry(y).or_insert(0) += c` */
  function Add(m: map<nat, nat>, y: nat, c: nat): (r: map<nat, nat>)
  {
    m[y := (if y in m then m[y] else 0) + c]
  }

  /** Adding one beam of `c` timelines adds `c` at each of its targets. */
  lemma Step2Add(row: Row, m: map<nat, nat>, x: nat, c: nat)
    requires Passable(row, x) && x !in m
    ensures Step2(row, m[x := c]) ==
      if row[x] == Empty then Add(Step2(row, m), x, c)
      else Add(Add(Step2(row, m), x - 1, c), x + 1, c)
  {
    if row[x] == Empty {
      Step2AddEmpty(row, m, x, c);
    } else {
      Step2AddSplitter(row, m, x, c);
    }
  }

  lemma Step2AddEmpty(row: Row, m: map<nat, nat>, x: nat, c: nat)
    requires Passable(row, x) && x !in m && row[x] == Empty
    ensures Step2(row, m[x := c]) == Add(Step2(row, m), x, c)
  {
    var m' := m[x := c];
    var lhs, rhs := Step2(row, m'), Add(Step2(row, m), x, c);
    assert lhs.Keys == rhs.Keys by {
      assert m'.Keys == m.Keys + {x};
      Step1Add(row, m.Keys, x);
    }
    forall y | y in lhs.Keys ensures lhs[y] == rhs[y] {
      Step2AddAt(row, m, x, c, y);
    }
  }

  lemma Step2AddSplitter(row: Row, m: map<nat, nat>, x: nat, c: nat)
    requires Passable(row, x) && x !in m && row[x] == Splitter
    ensures Step2(row, m[x := c]) == Add(Add(Step2(row, m), x - 1, c), x + 1, c)
  {
    var m' := m[x := c];
    var lhs, rhs := Step2(row, m'), Add(Add(Step2(row, m), x - 1, c), x + 1, c);
    assert lhs.Keys == rhs.Keys by {
      assert m'.Keys == m.Keys + {x};
      Step1Add(row, m.Keys, x);
    }
    forall y | y in lhs.Keys ensures lhs[y] == rhs[y] {
      Step2AddAt(row, m, x, c, y);
    }
  }

  /** The count of one column of the row below after adding a beam of `c` timelines. */
  lemma Step2AddAt(row: Row, m: map<nat, nat>, x: nat, c: nat, y: nat)
    requires Passable(row, x) && x !in m && y in Step2(row, m[x := c])
    ensures Step2(row, m[x := c])[y] == (if y in Step2(row, m) then Step2(row, m)[y] else 0)
      + (if row[x] == Empty && y == x then c else 0)
      + (if row[x] == Splitter && (y + 1 == x || y == x + 1) then c else 0)
  {
    assert m[x := c].Keys == m.Keys + {x};
    InflowAdd(row, m, x, c, y);
  }

  lemma InflowAdd(row: Row, m: map<nat, nat>, x: nat, c: nat, y: nat)
    requires Passable(row, x) && x !in m
    ensures Inflow(row, m[x := c], y) == Inflow(row, m, y)
      + (if row[x] == Empty && y == x then c else 0)
      + (if row[x] == Splitter && (y + 1 == x || y == x + 1) then c else 0)
  {
  }

  /** The sum of the counts of the columns below `bound`. */
  function Total(m: map<nat, nat>, bound: nat): nat
  {
    if bound == 0 then 0 else Total(m, bound - 1) + (if bound - 1 in m then m[bound - 1] else 0)
  }

  lemma {:induction false} TotalAdd(m: map<nat, nat>, y: nat, c: nat, bound: nat)
    requires y < bound
    ensures Total(Add(m, y, c), bound) == Total(m, bound) + c
  {
    if y < bound - 1 {
      TotalAdd(m, y, c, bound - 1);
    } else {
      TotalSame(m, Add(m, y, c), bound - 1);
    }
  }

  lemma {:induction false} TotalSame(m: map<nat, nat>, m': map<nat, nat>, bound: nat)
    requires forall k :: k < bound ==> (k in m <==> k in m') && (k in m ==> m[k] == m'[k])
    ensures Total(m, bound) == Total(m', bound)
  {
    if bound > 0 {
      TotalSame(m, m', bound - 1);
    }
  }

  lemma {:induction false} TotalEmpty(m: map<nat, nat>, bound: nat)
    requires m == map[]
    ensures Total(m, bound) == 0
  {
    if bound > 0 {
      TotalEmpty(m, bound - 1);
    }
  }

  /** The timelines of the beams that hit a splitter. */
  function SplitMass(row: Row, m: map<nat, nat>, bound: nat): nat
  {
    Total(SplitMap(row, m), bound)
  }

  function SplitMap(row: Row, m: map<nat, nat>): map<nat, nat>
  {
    map x | x in SplitBeams(row, m.Keys) :: m[x]
  }

  lemma SplitMassAdd(row: Row, m: map<nat, nat>, x: nat, c: nat, bound: nat)
    requires Passable(row, x) && x !in m && x < bound
    ensures SplitMass(row, m[x := c], bound) == SplitMass(row, m, bound) + (if row[x] == Splitter then c else 0)
  {
    var s0 := SplitMap(row, m);
    var s := SplitMap(row, m[x := c]);
    if row[x] == Splitter {
      assert s == Add(s0, x, c);
      TotalAdd(s0, x, c, bound);
    } else {
      assert s == s0;
    }
  }

  predicate KeysBelow(m: map<nat, nat>, bound: nat) { forall k :: k in m ==> k < bound }

  /**
   * Every beam that hits a splitter becomes two, so a row adds to the
   * number of timelines exactly the timelines that hit a splitter.
   */
  lemma {:induction false} Step2Total(row: Row, m: map<nat, nat>, bound: nat)
    requires AllPassable(row, m.Keys) && KeysBelow(m, bound) && |row| < bound
    ensures Total(Step2(row, m), bound) == Total(m, bound) + SplitMass(row, m, bound)
    decreases |m.Keys|
  {
    if m.Keys != {} {
      var x :| x in m.Keys;
      var m0 := map k | k in m.Keys - {x} :: m[k];
      assert m == m0[x := m[x]];
      assert |m0.Keys| < |m.Keys| by { assert m0.Keys == m.Keys - {x}; }
      assert m0.Keys <= m.Keys;
      Step2Total(row, m0, bound);
      Step2TotalStep(row, m0, x, m[x], bound);
    } else {
      TotalEmpty(Step2(row, m), bound);
      TotalEmpty(SplitMap(row, m), bound);
      TotalEmpty(m, bound);
    }
  }

  /** One more beam of `c` timelines keeps the total equal to the old total plus the split timelines. */
  lemma Step2TotalStep(row: Row, m0: map<nat, nat>, x: nat, c: nat, bound: nat)
    requires Passable(row, x) && x !in m0 && |row| < bound
    requires Total(Step2(row, m0), bound) == Total(m0, bound) + SplitMass(row, m0, bound)
    ensures Total(Step2(row, m0[x := c]), bound) == Total(m0[x := c], bound) + SplitMass(row, m0[x := c], bound)
  {
    var d := if row[x] == Splitter then c else 0;
    assert Total(Step2(row, m0[x := c]), bound) == Total(Step2(row, m0), bound) + c + d by {
      Step2AddTotal(row, m0, x, c, bound);
    }
    assert Total(m0[x := c], bound) == Total(m0, bound) + c by {
      assert Add(m0, x, c) == m0[x := c];
      TotalAdd(m0, x, c, bound);
    }
    assert SplitMass(row, m0[x := c], bound) == SplitMass(row, m0, bound) + d by {
      SplitMassAdd(row, m0, x, c, bound);
    }
  }

  lemma Step2AddTotal(row: Row, m0: map<nat, nat>, x: nat, c: nat, bound: nat)
    requires Passable(row, x) && x !in m0 && |row| < bound
    ensures Total(Step2(row, m0[x := c]), bound) == Total(Step2(row, m0), bound) + c + (if row[x] == Splitter then c else 0)
  {
    Step2Add(row, m0, x, c);
    TotalAfterAdd(Step2(row, m0), Step2(row, m0[x := c]), x, c, row[x] == Splitter, bound);
  }

  /** A beam of `c` timelines sent on to one column, or split to the two around it, adds `c` per target. */
  lemma TotalAfterAdd(n0: map<nat, nat>, n: map<nat, nat>, x: nat, c: nat, split: bool, bound: nat)
    requires x + 1 < bound && (split ==> x >= 1)
    requires n == if split then Add(Add(n0, x - 1, c), x + 1, c) else Add(n0, x, c)
    ensures Total(n, bound) == Total(n0, bound) + c + (if split then c else 0)
  {
    if split {
      TotalAdd(n0, x - 1, c, bound);
      TotalAdd(Add(n0, x - 1, c), x + 1, c, bound);
    } else {
      TotalAdd(n0, x, c, bound);
    }
  }

  lemma Step2Empty(row: Row)
    ensures Step2(row, map[]) == map[]
  {
    assert Step1(row, {}) == {};
  }

  /** `done` holds the beams already fed, with their counts; `todo` the columns still to feed. */
  ghost predicate Parted(beams: map<nat, nat>, done: map<nat, nat>, todo: set<nat>)
  {
    done.Keys + todo == beams.Keys && done.Keys !! todo && forall k :: k in done ==> done[k] == beams[k]
  }

  lemma PartedMove(beams: map<nat, nat>, done: map<nat, nat>, todo: set<nat>, x: nat)
    requires Parted(beams, done, todo) && x in todo
    ensures x in beams && x !in done && Parted(beams, done[x := beams[x]], todo - {x})
  {
  }

  lemma PartedDone(beams: map<nat, nat>, done: map<nat, nat>)
    requires Parted(beams, done, {})
    ensures done == beams
  {
  }

  /** One beam of `count` timelines entering the row: its targets in `next` gain `count`. */
  method Feed(row: Row, next: map<nat, nat>, x: nat, count: nat) returns (next': map<nat, nat>)
    requires Passable(row, x)
    ensures next' == if row[x] == Empty then Add(next, x, count)
      else Add(Add(next, x - 1, count), x + 1, count)
  {
    next' := next;
    match row[x] {
      case Splitter =>
        next' := Add(next', x - 1, count);
        next' := Add(next', x + 1, count);
      case Empty =>
        next' := Add(next', x, count);
    }
  }

  /**
   * The `for (x, count) in beams` loop of `part2`: the counts of the next
   * row, or failure when a beam cannot enter the row.
   */
  method Row2(row: Row, beams: map<nat, nat>) returns (next: map<nat, nat>, ok: bool)
    ensures ok <==> AllPassable(row, beams.Keys)
    ensures ok ==> next == Step2(row, beams)
  {
    next := map[];
    var todo := beams.Keys;
    ghost var done: map<nat, nat> := map[];
    Step2Empty(row);
    while todo != {}
      invariant Parted(beams, done, todo)
      invariant AllPassable(row, done.Keys)
      invariant next == Step2(row, done)
      decreases |todo|
    {
      var x :| x in todo;
      if !Passable(row, x) {
        return next, false;
      }
      var count := beams[x];
      Step2Add(row, done, x, count);
      next := Feed(row, next, x, count);
      PartedMove(beams, done, todo, x);
      todo := todo - {x};
      done := done[x := count];
    }
    PartedDone(beams, done);
    return next, true;
  }

  /** The rows processed in order with multiplicity: the final counts, or None when a beam cannot enter its row. */
  function Run2(rows: seq<Row>, m: map<nat, nat>): Option<map<nat, nat>>
  {
    if rows == [] then Some(m)
    else if !AllPassable(rows[0], m.Keys) then None
    else Run2(rows[1..], Step2(rows[0], m))
  }

  /** Row `y` processed by `Row2`: the run from row `y` is the run from row `y + 1`, or fails. */
  lemma Run2Next(input: seq<Row>, y: nat, m: map<nat, nat>, next: map<nat, nat>, ok: bool)
    requires y < |input|
    requires ok <==> AllPassable(input[y], m.Keys)
    requires ok ==> next == Step2(input[y], m)
    ensures !ok ==> Run2(input[y..], m).None?
    ensures ok ==> Run2(input[y..], m) == Run2(input[y + 1..], next)
  {
    assert input[y..][0] == input[y] && input[y..][1..] == input[y + 1..];
  }

  /**
   * At every row, the columns holding timelines in part 2 are the beams of
   * part 1, and the two fail on the same rows.
   */
  lemma {:induction false} RunsAgree(rows: seq<Row>, m: map<nat, nat>, splits: nat)
    ensures Run2(rows, m).Some? <==> Run1(rows, m.Keys, splits).Some?
    ensures Run2(rows, m).Some? ==> Run2(rows, m).value.Keys == Run1(rows, m.Keys, splits).value.0
  {
    if rows != [] && AllPassable(rows[0], m.Keys) {
      RunsAgree(rows[1..], Step2(rows[0], m), splits + |SplitBeams(rows[0], m.Keys)|);
    }
  }

  /** The widest row. */
  function Width(input: seq<Row>): (w: nat)
    ensures forall y :: 0 <= y < |input| ==> |input[y]| <= w
  {
    if input == [] then 0 else Max(|input[0]|, Width(input[1..]))
  }

  /** No beam leaves the columns `0..=w` of a grid whose rows are at most `w` wide. */
  lemma Step2Below(row: Row, m: map<nat, nat>, w: nat)
    requires |row| <= w && KeysBelow(m, w + 1)
    ensures KeysBelow(Step2(row, m), w + 1)
  {
  }

  /**
   * `part2`: from the start cell with one timeline, the counts after the
   * last row, added up (every column holding timelines is below `bound`).
   */
  method Part2(input: seq<Row>) returns (r: Option<nat>)
    ensures FindStart(input).None? ==> r.None?
    ensures FindStart(input).Some? ==>
      var (sx, sy) := FindStart(input).value;
      r == (match Run2(input[sy + 1..], map[sx := 1]) case None => None
        case Some(m) => Some(Total(m, Width(input) + 1)))
  {
    var start := FindStart(input);
    if start.None? {
      return None;
    }
    var (sx, sy) := start.value;
    var counts := Rows2(input[sy + 1..], map[sx := 1]);
    if counts.None? {
      return None;
    }
    return Some(Total(counts.value, Width(input) + 1));
  }

  /** The `for y in start_y + 1..input.len()` loop of `part2`: the rows processed in order. */
  method Rows2(rows: seq<Row>, m: map<nat, nat>) returns (r: Option<map<nat, nat>>)
    ensures r == Run2(rows, m)
  {
    var beams := m;
    var y := 0;
    while y < |rows|
      invariant y <= |rows|
      invariant Run2(rows[y..], beams) == Run2(rows, m)
    {
      var next, ok := Row2(rows[y], beams);
      Run2Next(rows, y, beams, next, ok);
      if !ok {
        return None;
      }
      beams := next;
      y := y + 1;
    }
    assert rows[y..] == [];
    return Some(beams);
  }

  /** The counts in every column are at most the bound, so `Total` adds up all of them. */
  lemma {:induction false} RunBelow(rows: seq<Row>, m: map<nat, nat>, w: nat)
    requires KeysBelow(m, w + 1) && forall y :: 0 <= y < |rows| ==> |rows[y]| <= w
    ensures Run2(rows, m).Some? ==> KeysBelow(Run2(rows, m).value, w + 1)
  {
    if rows != [] && AllPassable(rows[0], m.Keys) {
      Step2Below(rows[0], m, w);
      RunBelow(rows[1..], Step2(rows[0], m), w);
    }
  }
}
