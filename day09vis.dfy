/**
 * The visualising variant of day 9 (day09vis/src/main.rs): the same two
 * searches, answering with the two corner points instead of the area, and
 * an integer test of whether a polygon edge cuts a rectangle. Points,
 * areas, the candidate order and the edge scan are those of `Day09`; the
 * input format is the same too, so `Day09.InputTransform` reads it.
 */
module Day09Vis {
  import opened Common
  import Day09

  type Coord = Day09.Coord

  // ---------------------------------------------------------------------------
  // The rectangle test

  /**
   * `line_segment_intersects_rect` as written: a horizontal edge strictly
   * between the rectangle's top and bottom cuts it when its span lies
   * strictly inside the rectangle's or straddles one of its sides; a
   * vertical edge likewise with x and y swapped; any other edge panics
   * (None).
   */
  function LineSegmentIntersectsRect(l1: Coord, l2: Coord, rmin: Coord, rmax: Coord): Option<bool>
  {
    if l1.y == l2.y then
      if l1.y > rmin.y && l1.y < rmax.y then
        var lo := Min(l1.x, l2.x);
        var hi := Max(l1.x, l2.x);
        Some((lo > rmin.x && hi < rmax.x) || (lo < rmin.x && hi > rmin.x) || (lo < rmax.x && hi > rmax.x))
      else Some(false)
    else if l1.x == l2.x then
      if l1.x > rmin.x && l1.x < rmax.x then
        var lo := Min(l1.y, l2.y);
        var hi := Max(l1.y, l2.y);
        Some((lo > rmin.y && hi < rmax.y) || (lo < rmin.y && hi > rmin.y) || (lo < rmax.y && hi > rmax.y))
      else Some(false)
    else None
  }

  /** The test panics exactly on an edge that is neither horizontal nor vertical. */
  lemma IntersectsPanics(l1: Coord, l2: Coord, rmin: Coord, rmax: Coord)
    ensures LineSegmentIntersectsRect(l1, l2, rmin, rmax).None? <==> l1.x != l2.x && l1.y != l2.y
    ensures SegmentCrossesRect(l1, l2, rmin, rmax).None? <==> l1.x != l2.x && l1.y != l2.y
  {
  }

  /** The direction of the edge does not matter. */
  lemma IntersectsSymmetric(l1: Coord, l2: Coord, rmin: Coord, rmax: Coord)
    ensures LineSegmentIntersectsRect(l1, l2, rmin, rmax) == LineSegmentIntersectsRect(l2, l1, rmin, rmax)
    ensures SegmentCrossesRect(l1, l2, rmin, rmax) == SegmentCrossesRect(l2, l1, rmin, rmax)
  {
  }

  /** An edge along one of the rectangle's sides never cuts it. */
  lemma IntersectsBoundary(l1: Coord, l2: Coord, rmin: Coord, rmax: Coord)
    requires (l1.y == l2.y && (l1.y == rmin.y || l1.y == rmax.y))
      || (l1.x == l2.x && (l1.x == rmin.x || l1.x == rmax.x))
    ensures LineSegmentIntersectsRect(l1, l2, rmin, rmax) == Some(false)
    ensures SegmentCrossesRect(l1, l2, rmin, rmax) == Some(false)
  {
  }

  /**
   * The test the comment of `line_segment_intersects_rect` describes: an
   * axis-aligned edge cuts the rectangle when it meets it anywhere except
   * on its sides, that is, when its span overlaps the open span of the
   * rectangle.
   */
  function SegmentCrossesRect(l1: Coord, l2: Coord, rmin: Coord, rmax: Coord): Option<bool>
  {
    if l1.y == l2.y then
      Some(rmin.y < l1.y < rmax.y && Min(l1.x, l2.x) < rmax.x && Max(l1.x, l2.x) > rmin.x)
    else if l1.x == l2.x then
      Some(rmin.x < l1.x < rmax.x && Min(l1.y, l2.y) < rmax.y && Max(l1.y, l2.y) > rmin.y)
    else None
  }

  /** The point `(px / 2, py / 2)` lies on the edge (coordinates doubled, so that half-way points count). */
  predicate OnEdge(l1: Coord, l2: Coord, px: int, py: int)
  {
    2 * Min(l1.x, l2.x) <= px <= 2 * Max(l1.x, l2.x) && 2 * Min(l1.y, l2.y) <= py <= 2 * Max(l1.y, l2.y)
  }

  /** The point `(px / 2, py / 2)` lies strictly inside the rectangle. */
  predicate Inside(rmin: Coord, rmax: Coord, px: int, py: int)
  {
    2 * rmin.x < px < 2 * rmax.x && 2 * rmin.y < py < 2 * rmax.y
  }

  /**
   * For a rectangle with an inside, an axis-aligned edge cuts it exactly
   * when some point of the edge is strictly inside it.
   */
  lemma CrossesMeansInside(l1: Coord, l2: Coord, rmin: Coord, rmax: Coord)
    requires l1.x == l2.x || l1.y == l2.y
    requires rmin.x < rmax.x && rmin.y < rmax.y
    ensures SegmentCrossesRect(l1, l2, rmin, rmax) == Some(true) <==>
      exists px, py :: OnEdge(l1, l2, px, py) && Inside(rmin, rmax, px, py)
  {
    if SegmentCrossesRect(l1, l2, rmin, rmax) == Some(true) {
      var px := Max(2 * Min(l1.x, l2.x), 2 * rmin.x + 1);
      var py := Max(2 * Min(l1.y, l2.y), 2 * rmin.y + 1);
      assert OnEdge(l1, l2, px, py) && Inside(rmin, rmax, px, py);
    }
  }

  /** What the test as written reports is a real cut. */
  lemma IntersectsIsSound(l1: Coord, l2: Coord, rmin: Coord, rmax: Coord)
    requires rmin.x <= rmax.x && rmin.y <= rmax.y
    requires LineSegmentIntersectsRect(l1, l2, rmin, rmax) == Some(true)
    ensures SegmentCrossesRect(l1, l2, rmin, rmax) == Some(true)
  {
  }

  /**
   * The test as written misses an edge that runs from one side of the
   * rectangle to the other through its inside.
   */
  lemma IntersectsMissesSpanningEdge()
    ensures LineSegmentIntersectsRect(Day09.Coord(0, 5), Day09.Coord(10, 5), Day09.Coord(0, 0), Day09.Coord(10, 10)) == Some(false)
    ensures SegmentCrossesRect(Day09.Coord(0, 5), Day09.Coord(10, 5), Day09.Coord(0, 0), Day09.Coord(10, 10)) == Some(true)
    ensures OnEdge(Day09.Coord(0, 5), Day09.Coord(10, 5), 10, 10) && Inside(Day09.Coord(0, 0), Day09.Coord(10, 10), 10, 10)
  {
  }

  // ---------------------------------------------------------------------------
  // Part 1

  /** The fold state of `part1`: the largest area so far and the pair that first reached it. */
  datatype Best = Best(area: nat, pair: Option<(nat, nat)>)

  /** The pair `(a, b)` comes before `(i, j)` in the order the folds visit pairs. */
  predicate Earlier(a: nat, b: nat, i: nat, j: nat)
  {
    a < i || (a == i && b < j)
  }

  /**
   * `st` is the fold state after the pairs before `(i, j)`: no area beats
   * it, and its pair is the first one with its area.
   */
  predicate Good(input: seq<Coord>, st: Best, i: nat, j: nat)
  {
    (forall a, b :: 0 <= a < b < |input| && Earlier(a, b, i, j) ==> Day09.Area(input[a], input[b]) <= st.area) &&
    (st.pair.None? ==> st.area == 0) &&
    (st.pair.Some? ==>
      var p := st.pair.value.0;
      var q := st.pair.value.1;
      p < q < |input| && Earlier(p, q, i, j) && Day09.Area(input[p], input[q]) == st.area &&
      forall a, b :: 0 <= a < b < |input| && Earlier(a, b, p, q) ==> Day09.Area(input[a], input[b]) < st.area)
  }

  /** The inner fold of `part1`: a strictly larger area replaces the pair. */
  function VisRow(input: seq<Coord>, i: nat, j: nat, acc: Best): (r: Best)
    requires i < j <= |input| && Good(input, acc, i, j)
    ensures Good(input, r, i, |input|)
    decreases |input| - j
  {
    if j == |input| then acc
    else
      var area := Day09.Area(input[i], input[j]);
      var next := if area > acc.area then Best(area, Some((i, j))) else acc;
      GoodNextPair(input, acc, i, j);
      VisRow(input, i, j + 1, next)
  }

  /** The pair `(i, j)` folded in: the state is good up to the pair after it. */
  lemma GoodNextPair(input: seq<Coord>, acc: Best, i: nat, j: nat)
    requires i < j < |input| && Good(input, acc, i, j)
    ensures var area := Day09.Area(input[i], input[j]);
      Good(input, if area > acc.area then Best(area, Some((i, j))) else acc, i, j + 1)
  {
    var area := Day09.Area(input[i], input[j]);
    assert forall a: nat, b: nat :: Earlier(a, b, i, j + 1) <==> Earlier(a, b, i, j) || (a == i && b == j);
  }

  /** The outer fold of `part1`, from row `i` on. */
  function VisAll(input: seq<Coord>, i: nat, acc: Best): (r: Best)
    requires i <= |input| && Good(input, acc, i, i + 1)
    ensures Good(input, r, |input|, |input| + 1)
    decreases |input| - i
  {
    if i == |input| then acc
    else
      var row := VisRow(input, i, i + 1, acc);
      GoodNextRow(input, row, i);
      VisAll(input, i + 1, row)
  }

  /** Having seen all of row `i` is having seen everything before row `i + 1`. */
  lemma GoodNextRow(input: seq<Coord>, st: Best, i: nat)
    requires Good(input, st, i, |input|)
    ensures Good(input, st, i + 1, i + 2)
  {
    assert forall a: nat, b: nat :: a < b < |input| ==> (Earlier(a, b, i, |input|) <==> Earlier(a, b, i + 1, i + 2));
  }

  /**
   * `part1`: the first pair with the largest area, as indices; None with
   * fewer than two points, where the source's `unwrap` panics.
   */
  function Part1Pair(input: seq<Coord>): (r: Option<(nat, nat)>)
    ensures r.None? <==> |input| < 2
    ensures r.Some? ==> r.value.0 < r.value.1 < |input|
    ensures r.Some? ==> Day09.Area(input[r.value.0], input[r.value.1]) == Day09.Part1(input)
    ensures r.Some? ==> forall a, b :: 0 <= a < b < |input| && Earlier(a, b, r.value.0, r.value.1) ==>
      Day09.Area(input[a], input[b]) < Day09.Part1(input)
  {
    var st := VisAll(input, 0, Best(0, None));
    FoldResult(input, st);
    st.pair
  }

  /** A final fold state holds the first pair with the largest area. */
  lemma FoldResult(input: seq<Coord>, st: Best)
    requires Good(input, st, |input|, |input| + 1)
    ensures st.pair.None? <==> |input| < 2
    ensures st.pair.Some? ==> st.area == Day09.Part1(input)
  {
    Day09.Part1IsLargest(input);
    if |input| >= 2 {
      assert Earlier(0, 1, |input|, |input| + 1);
      assert Day09.Area(input[0], input[1]) <= st.area;
    }
    if st.pair.Some? {
      assert |input| >= 2;
      var a, b :| 0 <= a < b < |input| && Day09.Area(input[a], input[b]) == Day09.Part1(input);
      assert Earlier(a, b, |input|, |input| + 1);
    }
  }

  /** `part1`: the two corners of the first largest rectangle. */
  function Part1(input: seq<Coord>): (r: Option<(Coord, Coord)>)
    ensures r.Some? <==> |input| >= 2
    ensures r.Some? ==> Day09.Area(r.value.0, r.value.1) == Day09.Part1(input)
  {
    match Part1Pair(input)
    case None => None
    case Some((a, b)) => Some((input[a], input[b]))
  }

  // ---------------------------------------------------------------------------
  // Part 2

  /** Every edge of the polygon, the closing one included, is horizontal or vertical. */
  predicate AxisAligned(input: seq<Coord>)
  {
    forall k :: 0 <= k < |input| ==>
      Day09.EdgeStart(input, k).x == input[k].x || Day09.EdgeStart(input, k).y == input[k].y
  }

  /** A rectangle test that panics only on an edge that is neither horizontal nor vertical. */
  ghost predicate PanicsOnlyOnSlant(test: Day09.Test)
  {
    forall l1, l2, rmin, rmax :: test(l1, l2, rmin, rmax).None? ==> l1.x != l2.x && l1.y != l2.y
  }

  /** Both the test as written and the corrected one panic only on a slanted edge. */
  lemma TestsPanicOnlyOnSlant()
    ensures PanicsOnlyOnSlant(LineSegmentIntersectsRect)
    ensures PanicsOnlyOnSlant(SegmentCrossesRect)
  {
    forall l1, l2, rmin, rmax ensures
      (LineSegmentIntersectsRect(l1, l2, rmin, rmax).None? ==> l1.x != l2.x && l1.y != l2.y) &&
      (SegmentCrossesRect(l1, l2, rmin, rmax).None? ==> l1.x != l2.x && l1.y != l2.y)
    {
      IntersectsPanics(l1, l2, rmin, rmax);
    }
  }

  /** On an axis-aligned polygon the scan never panics. */
  lemma {:induction false} CutAligned(input: seq<Coord>, k: nat, low: Coord, high: Coord, test: Day09.Test)
    requires k <= |input| && PanicsOnlyOnSlant(test)
    ensures AxisAligned(input) ==> Day09.Cut(input, k, low, high, test).Some?
    decreases |input| - k
  {
    if k < |input| {
      CutAligned(input, k + 1, low, high, test);
    }
  }

  /**
   * `e` is the candidate part 2 is after: a pair no edge cuts that beats
   * every other such pair, by a larger area or the same area and an
   * earlier place in the listing.
   */
  predicate BestUncut(input: seq<Coord>, e: Day09.Entry, test: Day09.Test)
  {
    e in Day09.Pairs(input) && Day09.Uncut(input, e, test) &&
    forall f :: f in Day09.Pairs(input) && Day09.Uncut(input, f, test) && f != e ==> Day09.Before(e, f)
  }

  /** The first uncut candidate in the sorted order is the best one. */
  lemma FirstUncutBest(input: seq<Coord>, t: nat, test: Day09.Test)
    requires t < |Day09.Sorted(input)|
    requires forall u :: 0 <= u < t ==> !Day09.Uncut(input, Day09.Sorted(input)[u], test)
    requires Day09.Uncut(input, Day09.Sorted(input)[t], test)
    ensures BestUncut(input, Day09.Sorted(input)[t], test)
  {
    var s := Day09.Sorted(input);
    Day09.FirstUncutIsBest(input, t, test);
    assert s[t] in s;
    forall f | f in Day09.Pairs(input) ensures f in s {
    }
  }

  /**
   * `part2` as written, with `line_segment_intersects_rect`: the corners of
   * the first candidate, in the sorted order, that no edge cuts by that
   * test; None where the source panics: an edge that is not axis-aligned
   * is tested, or no candidate is left whole.
   */
  method Part2(input: seq<Coord>) returns (r: Option<(Coord, Coord)>)
    requires Day09.AreasFit(input)
    ensures r.Some? ==> exists e: Day09.Entry :: BestUncut(input, e, LineSegmentIntersectsRect) && r.value == (input[e.0], input[e.1])
    ensures r.None? && AxisAligned(input) ==>
      forall e :: e in Day09.Pairs(input) ==> !Day09.Uncut(input, e, LineSegmentIntersectsRect)
  {
    TestsPanicOnlyOnSlant();
    r := Part2With(input, LineSegmentIntersectsRect);
  }

  /**
   * `part2` with the corrected test, which counts every edge that passes
   * through the inside of the rectangle.
   */
  method Part2Fixed(input: seq<Coord>) returns (r: Option<(Coord, Coord)>)
    requires Day09.AreasFit(input)
    ensures r.Some? ==> exists e: Day09.Entry :: BestUncut(input, e, SegmentCrossesRect) && r.value == (input[e.0], input[e.1])
    ensures r.None? && AxisAligned(input) ==>
      forall e :: e in Day09.Pairs(input) ==> !Day09.Uncut(input, e, SegmentCrossesRect)
  {
    TestsPanicOnlyOnSlant();
    r := Part2With(input, SegmentCrossesRect);
  }

  /** The body of `part2` for a given rectangle test. */
  method Part2With(input: seq<Coord>, test: Day09.Test) returns (r: Option<(Coord, Coord)>)
    requires Day09.AreasFit(input) && PanicsOnlyOnSlant(test)
    ensures r.Some? ==> exists e: Day09.Entry :: BestUncut(input, e, test) && r.value == (input[e.0], input[e.1])
    ensures r.None? && AxisAligned(input) ==>
      forall e :: e in Day09.Pairs(input) ==> !Day09.Uncut(input, e, test)
  {
    var areas := Day09.Sorted(input);
    var t, panics := Search(input, areas, test);
    if panics {
      return None;
    }
    if t < |areas| {
      FirstUncutBest(input, t, test);
      var (a, b, _) := areas[t];
      return Some((input[a], input[b]));
    }
    Day09.NoneUncut(input, test);
    return None;
  }

  /**
   * The `for (i, j, _) in areas` loop of `part2`: the index of the first
   * candidate no edge cuts (`|s|` when there is none), or a panic, which
   * only a polygon with an edge that is not axis-aligned can cause.
   */
  method Search(input: seq<Coord>, s: seq<Day09.Entry>, test: Day09.Test) returns (t: nat, panics: bool)
    requires Day09.Indexed(input, s) && PanicsOnlyOnSlant(test)
    ensures t <= |s|
    ensures forall u :: 0 <= u < t ==> !Day09.Uncut(input, s[u], test)
    ensures panics ==> !AxisAligned(input)
    ensures !panics && t < |s| ==> Day09.Uncut(input, s[t], test)
  {
    t := 0;
    while t < |s|
      invariant t <= |s|
      invariant forall u :: 0 <= u < t ==> !Day09.Uncut(input, s[u], test)
    {
      var (a, b, _) := s[t];
      var r1 := input[a];
      var r2 := input[b];
      var found := Day09.Scan(input, Day09.Low(r1, r2), Day09.High(r1, r2), test);
      if found.None? {
        CutAligned(input, 0, Day09.Low(r1, r2), Day09.High(r1, r2), test);
        return t, true;
      }
      if !found.value {
        return t, false;
      }
      t := t + 1;
    }
    return t, false;
  }
}
