/**
 * Day 9 of aoc2025 (day09/src/main.rs): the points are the corners of a
 * polygon, in order. Part 1 is the largest rectangle with two of the
 * points as opposite corners; part 2 the largest such rectangle that no
 * edge of the polygon cuts. The rectangle test of part 2 works on floating
 * point numbers and is a parameter of the model here.
 */
module Day09 {
  import opened Common

  datatype Coord = Coord(x: int, y: int)

  predicate IsI64(c: Coord) { I64_MIN <= c.x <= I64_MAX && I64_MIN <= c.y <= I64_MAX }

  /** The number of tiles of the rectangle with opposite corners `a` and `b`. */
  function Area(a: Coord, b: Coord): (r: nat)
    ensures r >= 1
  {
    MulLe(1, AbsDiff(a.x, b.x) + 1, AbsDiff(a.y, b.y) + 1);
    (AbsDiff(a.x, b.x) + 1) * (AbsDiff(a.y, b.y) + 1)
  }

  /** Every area is a `u64`: the source's `u64` arithmetic does not overflow. */
  predicate AreasFit(input: seq<Coord>)
  {
    forall a, b :: 0 <= a < b < |input| ==> Area(input[a], input[b]) <= U64_MAX
  }

  // ---------------------------------------------------------------------------
  // Part 1

  /** The inner fold of `part1`: the largest of `acc` and the areas of `input[i]` with `input[j..]`. */
  function FoldRow(input: seq<Coord>, i: nat, j: nat, acc: nat): (r: nat)
    requires i < |input| && j <= |input|
    ensures r >= acc
    decreases |input| - j
  {
    if j == |input| then acc
    else
      var area := Area(input[i], input[j]);
      FoldRow(input, i, j + 1, if area > acc then area else acc)
  }

  /** The inner fold is the largest of `acc` and the areas it runs over. */
  lemma {:induction false} FoldRowLargest(input: seq<Coord>, i: nat, j: nat, acc: nat)
    requires i < |input| && j <= |input|
    ensures forall b :: j <= b < |input| ==> Area(input[i], input[b]) <= FoldRow(input, i, j, acc)
    ensures var r := FoldRow(input, i, j, acc); r == acc || exists b :: j <= b < |input| && r == Area(input[i], input[b])
    decreases |input| - j
  {
    if j < |input| {
      var area := Area(input[i], input[j]);
      FoldRowLargest(input, i, j + 1, if area > acc then area else acc);
    }
  }

  /** The outer fold of `part1`, from row `i` on. */
  function FoldAll(input: seq<Coord>, i: nat, acc: nat): (r: nat)
    requires i <= |input|
    ensures r >= acc
    decreases |input| - i
  {
    if i == |input| then acc
    else FoldAll(input, i + 1, FoldRow(input, i, i + 1, acc))
  }

  /** The outer fold is the largest of `acc` and the areas of the pairs from row `i` on. */
  lemma {:induction false} FoldAllLargest(input: seq<Coord>, i: nat, acc: nat)
    requires i <= |input|
    ensures forall a, b :: i <= a < b < |input| ==> Area(input[a], input[b]) <= FoldAll(input, i, acc)
    ensures var r := FoldAll(input, i, acc); r == acc || exists a, b :: i <= a < b < |input| && r == Area(input[a], input[b])
    decreases |input| - i
  {
    if i < |input| {
      var row := FoldRow(input, i, i + 1, acc);
      FoldRowLargest(input, i, i + 1, acc);
      FoldAllLargest(input, i + 1, row);
      var r := FoldAll(input, i + 1, row);
      if r != acc && r == row {
        var b :| i + 1 <= b < |input| && row == Area(input[i], input[b]);
      }
    }
  }

  /** `part1`: the largest area over all pairs of points, 0 with fewer than two points. */
  function Part1(input: seq<Coord>): nat
  {
    FoldAll(input, 0, 0)
  }

  /** Part 1 is the largest pair area, and it is the area of some pair. */
  lemma Part1IsLargest(input: seq<Coord>)
    ensures forall a, b :: 0 <= a < b < |input| ==> Area(input[a], input[b]) <= Part1(input)
    ensures |input| < 2 <==> Part1(input) == 0
    ensures |input| >= 2 ==> exists a, b :: 0 <= a < b < |input| && Part1(input) == Area(input[a], input[b])
  {
    FoldAllLargest(input, 0, 0);
    if |input| >= 2 {
      assert Area(input[0], input[1]) >= 1;
    }
  }

  // ---------------------------------------------------------------------------
  // The candidate rectangles of part 2

  /** A candidate `(i, j, area)`. */
  type Entry = (nat, nat, nat)

  /** The candidates `(i, j)` with `i < j`, in the order the source lists them. */
  function Pairs(input: seq<Coord>): (r: seq<Entry>)
    ensures forall e :: e in r <==> e.0 < e.1 < |input| && e.2 == Area(input[e.0], input[e.1])
    ensures LexSorted(r)
  {
    PairsFrom(input, 0)
  }

  function PairRow(input: seq<Coord>, i: nat): (r: seq<Entry>)
    requires i < |input|
    ensures forall e :: e in r <==> e.0 == i && i < e.1 < |input| && e.2 == Area(input[e.0], input[e.1])
    ensures forall t, u :: 0 <= t < u < |r| ==> r[t].0 == r[u].0 && r[t].1 < r[u].1
  {
    var r := seq(|input| - i - 1, k requires 0 <= k < |input| - i - 1 => (i, i + 1 + k, Area(input[i], input[i + 1 + k])));
    assert forall e: Entry :: e.0 == i && i < e.1 < |input| && e.2 == Area(input[e.0], input[e.1]) ==> r[e.1 - i - 1] == e;
    r
  }

  function PairsFrom(input: seq<Coord>, i: nat): (r: seq<Entry>)
    requires i <= |input|
    ensures forall e :: e in r <==> i <= e.0 < e.1 < |input| && e.2 == Area(input[e.0], input[e.1])
    ensures LexSorted(r)
    decreases |input| - i
  {
    if i == |input| then []
    else
      var row := PairRow(input, i);
      var rest := PairsFrom(input, i + 1);
      assert forall t :: 0 <= t < |rest| ==> rest[t] in rest;
      assert forall t :: 0 <= t < |row| ==> row[t] in row;
      row + rest
  }

  predicate LexLess(e: Entry, f: Entry)
  {
    e.0 < f.0 || (e.0 == f.0 && e.1 < f.1)
  }

  predicate LexSorted(s: seq<Entry>)
  {
    forall t, u :: 0 <= t < u < |s| ==> LexLess(s[t], s[u])
  }

  /**
   * The order `areas.sort_by(|a, b| b.2.cmp(&a.2))` leaves the candidates
   * in: larger areas first and, the sort being stable, equal areas in the
   * order they were listed.
   */
  predicate Before(e: Entry, f: Entry)
  {
    e.2 > f.2 || (e.2 == f.2 && LexLess(e, f))
  }

  predicate SortedBefore(s: seq<Entry>)
  {
    forall t, u :: 0 <= t < u < |s| ==> Before(s[t], s[u])
  }

  /** Inserts a candidate listed after all of `s` behind the ones at least as large. */
  function Insert(x: Entry, s: seq<Entry>): (r: seq<Entry>)
    requires SortedBefore(s) && forall t :: 0 <= t < |s| ==> LexLess(s[t], x)
    ensures SortedBefore(r) && multiset(r) == multiset(s) + multiset{x}
  {
    if s == [] then [x]
    else if s[0].2 >= x.2 then
      var rest := Insert(x, s[1..]);
      assert s == [s[0]] + s[1..];
      HeadBefore(x, s, rest);
      [s[0]] + rest
    else
      [x] + s
  }

  /** The head of `s` goes before everything inserting `x` into the rest of `s` gives. */
  lemma HeadBefore(x: Entry, s: seq<Entry>, rest: seq<Entry>)
    requires SortedBefore(s) && s != [] && s[0].2 >= x.2 && LexLess(s[0], x)
    requires multiset(rest) == multiset(s[1..]) + multiset{x}
    ensures forall t :: 0 <= t < |rest| ==> Before(s[0], rest[t])
  {
    forall t | 0 <= t < |rest| ensures Before(s[0], rest[t]) {
      assert rest[t] in multiset(rest);
      if rest[t] != x {
        assert rest[t] in multiset(s[1..]);
        var u :| 0 <= u < |s[1..]| && s[1..][u] == rest[t];
        assert s[u + 1] == rest[t];
      }
    }
  }

  /** The last listed candidate comes after every candidate of a permutation of the others. */
  lemma LastAfterAll(s: seq<Entry>, front: seq<Entry>)
    requires LexSorted(s) && s != [] && multiset(front) == multiset(s[..|s| - 1])
    ensures forall t :: 0 <= t < |front| ==> LexLess(front[t], s[|s| - 1])
  {
    forall t | 0 <= t < |front| ensures LexLess(front[t], s[|s| - 1]) {
      assert front[t] in multiset(s[..|s| - 1]);
      var u :| 0 <= u < |s| - 1 && s[..|s| - 1][u] == front[t];
    }
  }

  /** The stable sort of the listed candidates by descending area. */
  function SortByArea(s: seq<Entry>): (r: seq<Entry>)
    requires LexSorted(s)
    ensures SortedBefore(r) && multiset(r) == multiset(s) && |r| == |s|
  {
    if s == [] then []
    else
      var front := SortByArea(s[..|s| - 1]);
      var x := s[|s| - 1];
      LastAfterAll(s, front);
      assert s == s[..|s| - 1] + [x];
      var r := Insert(x, front);
      assert |r| == |multiset(r)|;
      r
  }

  /** The candidates in the order part 2 tries them. */
  function Sorted(input: seq<Coord>): (r: seq<Entry>)
    ensures SortedBefore(r)
    ensures forall e :: e in r <==> e.0 < e.1 < |input| && e.2 == Area(input[e.0], input[e.1])
  {
    var r := SortByArea(Pairs(input));
    assert forall e :: e in r <==> e in multiset(Pairs(input));
    r
  }

  // ---------------------------------------------------------------------------
  // The search of part 2

  /**
   * The test of one polygon edge against one rectangle, given as the two
   * ends of the edge and the low and high corners: Some(true) when the edge
   * cuts the rectangle, Some(false) when it does not, None where the test
   * panics.
   */
  type Test = (Coord, Coord, Coord, Coord) -> Option<bool>

  /** The low and the high corner of the rectangle of `p1` and `p2`. */
  function Low(p1: Coord, p2: Coord): Coord { Coord(Min(p1.x, p2.x), Min(p1.y, p2.y)) }

  function High(p1: Coord, p2: Coord): Coord { Coord(Max(p1.x, p2.x), Max(p1.y, p2.y)) }

  /** Edge `k` of the polygon, from the point before `input[k]` to it; edge 0 closes the polygon. */
  function EdgeStart(input: seq<Coord>, k: nat): Coord
    requires k < |input|
  {
    input[if k == 0 then |input| - 1 else k - 1]
  }

  /**
   * `input.iter().find(...)` from edge `k` on: Some(true) at the first edge
   * that cuts the rectangle, Some(false) when none does, None when a test
   * panics first.
   */
  function Cut(input: seq<Coord>, k: nat, low: Coord, high: Coord, test: Test): Option<bool>
    requires k <= |input|
    decreases |input| - k
  {
    if k == |input| then Some(false)
    else
      match test(EdgeStart(input, k), input[k], low, high)
      case None => None
      case Some(true) => Some(true)
      case Some(false) => Cut(input, k + 1, low, high, test)
  }

  /** No edge cuts the rectangle exactly when every test from edge `k` on says so. */
  lemma {:induction false} CutFree(input: seq<Coord>, k: nat, low: Coord, high: Coord, test: Test)
    requires k <= |input|
    ensures Cut(input, k, low, high, test) == Some(false) <==>
      forall t :: k <= t < |input| ==> test(EdgeStart(input, t), input[t], low, high) == Some(false)
    decreases |input| - k
  {
    if k < |input| {
      CutFree(input, k + 1, low, high, test);
    }
  }

  /** A test that never panics gives a verdict on every rectangle. */
  lemma {:induction false} CutTotal(input: seq<Coord>, k: nat, low: Coord, high: Coord, test: Test)
    requires k <= |input|
    requires forall a, b, c, d :: test(a, b, c, d).Some?
    ensures Cut(input, k, low, high, test).Some?
    decreases |input| - k
  {
    if k < |input| {
      CutTotal(input, k + 1, low, high, test);
    }
  }

  /**
   * The inner search with its mutable `t1`: the edges are tried in order,
   * the first from the last point to the first.
   */
  method Scan(input: seq<Coord>, low: Coord, high: Coord, test: Test) returns (r: Option<bool>)
    requires |input| >= 1
    ensures r == Cut(input, 0, low, high, test)
  {
    var t1 := input[|input| - 1];
    var k := 0;
    while k < |input|
      invariant k <= |input|
      invariant k < |input| ==> t1 == EdgeStart(input, k)
      invariant Cut(input, k, low, high, test) == Cut(input, 0, low, high, test)
    {
      var t2 := input[k];
      var cut := test(t1, t2, low, high);
      t1 := t2;
      if cut.None? {
        return None;
      }
      if cut.value {
        return Some(true);
      }
      k := k + 1;
    }
    return Some(false);
  }

  /** The rectangle of candidate `e` is left whole by every edge. */
  predicate Uncut(input: seq<Coord>, e: Entry, test: Test)
    requires e.0 < |input| && e.1 < |input|
  {
    Cut(input, 0, Low(input[e.0], input[e.1]), High(input[e.0], input[e.1]), test) == Some(false)
  }

  /** What part 2 answers when the candidate at `t` is the first uncut one. */
  lemma FirstUncutArea(input: seq<Coord>, t: nat, test: Test)
    requires t < |Sorted(input)|
    requires forall u :: 0 <= u < t ==> !Uncut(input, Sorted(input)[u], test)
    requires Uncut(input, Sorted(input)[t], test)
    ensures var r := Sorted(input)[t].2;
      r != 0 && r <= Part1(input) &&
      (exists e :: e in Pairs(input) && Uncut(input, e, test) && e.2 == r) &&
      (forall e :: e in Pairs(input) && Uncut(input, e, test) ==> e.2 <= r)
  {
    var s := Sorted(input);
    FirstUncutIsBest(input, t, test);
    Part1IsLargest(input);
    assert s[t] in s;
    assert s[t] in Pairs(input);
  }

  /** When no sorted candidate is uncut, no listed one is. */
  lemma NoneUncut(input: seq<Coord>, test: Test)
    requires forall u :: 0 <= u < |Sorted(input)| ==> !Uncut(input, Sorted(input)[u], test)
    ensures forall e :: e in Pairs(input) ==> !Uncut(input, e, test)
  {
    forall e | e in Pairs(input) ensures !Uncut(input, e, test) {
      assert e in Sorted(input);
    }
  }

  /**
   * The first uncut candidate in the sorted order beats every other uncut
   * candidate: a larger area, or the same area and listed earlier.
   */
  lemma FirstUncutIsBest(input: seq<Coord>, t: nat, test: Test)
    requires t < |Sorted(input)|
    requires forall u :: 0 <= u < t ==> !Uncut(input, Sorted(input)[u], test)
    requires Uncut(input, Sorted(input)[t], test)
    ensures forall e :: e in Sorted(input) && Uncut(input, e, test) && e != Sorted(input)[t] ==> Before(Sorted(input)[t], e)
  {
    var s := Sorted(input);
    forall e | e in s && Uncut(input, e, test) && e != s[t] ensures Before(s[t], e) {
      var u :| 0 <= u < |s| && s[u] == e;
      assert u != t;
      assert u > t;
    }
  }

  /**
   * `part2`: the area of the first candidate, in the sorted order, whose
   * rectangle no edge cuts; 0 when there is none.
   */
  method Part2(input: seq<Coord>, cuts: (Coord, Coord, Coord, Coord) -> bool) returns (r: nat)
    requires AreasFit(input)
    ensures r == 0 <==> forall e :: e in Pairs(input) ==> !Uncut(input, e, Total(cuts))
    ensures r != 0 ==> exists e :: e in Pairs(input) && Uncut(input, e, Total(cuts)) && e.2 == r
    ensures forall e :: e in Pairs(input) && Uncut(input, e, Total(cuts)) ==> e.2 <= r
    ensures r <= Part1(input)
  {
    var test := Total(cuts);
    var areas := Sorted(input);
    var t := FirstUncut(input, areas, test);
    if t < |areas| {
      FirstUncutArea(input, t, test);
      return areas[t].2;
    }
    NoneUncut(input, test);
    Part1IsLargest(input);
    return 0;
  }

  /** Every candidate of `s` names two points of the polygon. */
  predicate Indexed(input: seq<Coord>, s: seq<Entry>)
  {
    forall u :: 0 <= u < |s| ==> s[u].0 < |input| && s[u].1 < |input|
  }

  /**
   * The `for (i, j, area) in areas` loop of `part2`: the index of the first
   * candidate whose rectangle no edge cuts, `|s|` when there is none.
   */
  method FirstUncut(input: seq<Coord>, s: seq<Entry>, test: Test) returns (t: nat)
    requires Indexed(input, s) && forall a, b, c, d :: test(a, b, c, d).Some?
    ensures t <= |s|
    ensures forall u :: 0 <= u < t ==> !Uncut(input, s[u], test)
    ensures t < |s| ==> Uncut(input, s[t], test)
  {
    t := 0;
    while t < |s|
      invariant t <= |s|
      invariant forall u :: 0 <= u < t ==> !Uncut(input, s[u], test)
    {
      var (a, b, _) := s[t];
      var p1 := input[a];
      var p2 := input[b];
      var found := Scan(input, Low(p1, p2), High(p1, p2), test);
      if found == Some(false) {
        return t;
      }
      CutTotal(input, 0, Low(p1, p2), High(p1, p2), test);
      t := t + 1;
    }
  }

  /** The float test as a test that never panics. */
  function Total(cuts: (Coord, Coord, Coord, Coord) -> bool): Test
  {
    (a, b, c, d) => Some(cuts(a, b, c, d))
  }

  // ---------------------------------------------------------------------------
  // Input

  /** `input_transform`: `x,y` as two `i64`; None where the source panics. */
  function InputTransform(line: string): (r: Option<Coord>)
    ensures r.Some? ==> IsI64(r.value)
  {
    match SplitOnce(line, ",")
    case None => None
    case Some((xs, ys)) =>
      match (ParseSigned(xs, I64_MIN, I64_MAX), ParseSigned(ys, I64_MIN, I64_MAX))
      case (Some(x), Some(y)) => Some(Coord(x, y))
      case _ => None
  }

  function Format(c: Coord): string
  {
    SignedString(c.x) + "," + SignedString(c.y)
  }

  /** Every point with `i64` coordinates reads back from its written form. */
  lemma InputTransformRoundTrip(c: Coord)
    requires IsI64(c)
    ensures InputTransform(Format(c)) == Some(c)
  {
    var xs := SignedString(c.x);
    assert ',' !in xs by {
      var ds := DecimalString(if c.x < 0 then -c.x else c.x);
      assert forall t :: 0 <= t < |ds| ==> ds[t] != ',';
      assert xs == if c.x < 0 then "-" + ds else ds;
    }
    SplitOnceFirst(xs, SignedString(c.y), ',');
    assert Format(c) == xs + [','] + SignedString(c.y);
    ParseSignedRoundTrip(c.x, I64_MIN, I64_MAX);
    ParseSignedRoundTrip(c.y, I64_MIN, I64_MAX);
  }
}
