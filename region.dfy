/**
 * The rectangular region of aoc/src/gif/region.rs: four inclusive `u16`
 * bounds, used both for a fixed rectangle and as the accumulator of the
 * bounding box of the cells that changed between two GIF frames.
 */
module GifRegion {
  import opened Common

  /** A grid coordinate handed to `max_add`. */
  datatype Point = Point(x: U16, y: U16)

  /** The four inclusive bounds a region holds. */
  datatype Bounds = Bounds(top: U16, left: U16, bottom: U16, right: U16)
  {
    /** What `max_valid` answers for these bounds. */
    predicate IsValid()
    {
      top != U16_MAX
    }

    /** Whether a point lies inside the rectangle. */
    predicate Holds(p: Point)
    {
      top <= p.y <= bottom && left <= p.x <= right
    }
  }

  /** The bounds `max_init` starts from: an empty, invalid region. */
  const Sentinel := Bounds(U16_MAX, U16_MAX, 0, 0)

  /** The effect of one `max_add(x, y)` on the bounds. */
  function AddPoint(b: Bounds, p: Point): (r: Bounds)
    ensures r.Holds(p)
    ensures r.top <= b.top && r.left <= b.left && r.bottom >= b.bottom && r.right >= b.right
  {
    Bounds(Min(b.top, p.y), Min(b.left, p.x), Max(b.bottom, p.y), Max(b.right, p.x))
  }

  /** The bounds after `max_init` followed by `max_add` of every point in order. */
  function Accumulate(pts: seq<Point>): Bounds
  {
    if pts == [] then Sentinel else AddPoint(Accumulate(pts[..|pts| - 1]), pts[|pts| - 1])
  }

  /** Adding one more point to the fold is one more `max_add`. */
  lemma AccumulateSnoc(pts: seq<Point>, p: Point)
    ensures Accumulate(pts + [p]) == AddPoint(Accumulate(pts), p)
  {
    assert (pts + [p])[..|pts|] == pts;
  }

  /** The smallest `y` and `x` and the largest `y` and `x` of a non-empty point set. */
  ghost predicate IsBoundingBox(b: Bounds, pts: set<Point>)
  {
    (forall p :: p in pts ==> b.Holds(p)) &&
    (exists p :: p in pts && p.y == b.top) &&
    (exists p :: p in pts && p.x == b.left) &&
    (exists p :: p in pts && p.y == b.bottom) &&
    (exists p :: p in pts && p.x == b.right)
  }

  /** Every point added lies inside the accumulated bounds, and every bound is attained. */
  lemma {:induction false} AccumulateIsBoundingBox(pts: seq<Point>)
    requires |pts| >= 1
    ensures IsBoundingBox(Accumulate(pts), set p | p in pts)
  {
    var n := |pts| - 1;
    var last := pts[n];
    var front := pts[..n];
    assert pts == front + [last];
    if n == 0 {
      assert last in pts;
    } else {
      AccumulateIsBoundingBox(front);
      var b := Accumulate(front);
      var r := Accumulate(pts);
      var fs := set x | x in front;
      assert IsBoundingBox(b, fs);
      assert r == AddPoint(b, last);
      forall p | p in pts ensures r.Holds(p) {
        if p != last {
          assert p in fs;
          assert b.Holds(p);
        }
      }
      var pt :| pt in front && pt.y == b.top;
      assert pt in pts;
      var pl :| pl in front && pl.x == b.left;
      assert pl in pts;
      var pb :| pb in front && pb.y == b.bottom;
      assert pb in pts;
      var pr :| pr in front && pr.x == b.right;
      assert pr in pts;
      assert last in pts;
    }
  }

  /** A point set has exactly one bounding box. */
  lemma BoundingBoxUnique(b1: Bounds, b2: Bounds, pts: set<Point>)
    requires IsBoundingBox(b1, pts) && IsBoundingBox(b2, pts)
    ensures b1 == b2
  {
    var p1 :| p1 in pts && p1.y == b1.top;
    var p2 :| p2 in pts && p2.y == b2.top;
    assert b1.Holds(p2) && b2.Holds(p1);
    var q1 :| q1 in pts && q1.x == b1.left;
    var q2 :| q2 in pts && q2.x == b2.left;
    assert b1.Holds(q2) && b2.Holds(q1);
    var r1 :| r1 in pts && r1.y == b1.bottom;
    var r2 :| r2 in pts && r2.y == b2.bottom;
    assert b1.Holds(r2) && b2.Holds(r1);
    var s1 :| s1 in pts && s1.x == b1.right;
    var s2 :| s2 in pts && s2.x == b2.right;
    assert b1.Holds(s2) && b2.Holds(s1);
  }

  /**
   * The accumulated region depends only on which points were added: the
   * order of the `max_add` calls and repeated points make no difference.
   */
  lemma AccumulateDependsOnSetOnly(p: seq<Point>, q: seq<Point>)
    requires forall x :: x in p <==> x in q
    ensures Accumulate(p) == Accumulate(q)
  {
    if p == [] {
      assert forall i :: 0 <= i < |q| ==> q[i] in p;
    } else {
      assert p[0] in p;
      assert (set x | x in p) == (set x | x in q);
      AccumulateIsBoundingBox(p);
      AccumulateIsBoundingBox(q);
      BoundingBoxUnique(Accumulate(p), Accumulate(q), set x | x in p);
    }
  }

  /**
   * `max_valid` holds after the adds exactly when some added point has a
   * `y` below `u16::MAX`; in particular it fails when nothing was added.
   */
  lemma {:induction false} AccumulateValidIff(pts: seq<Point>)
    ensures Accumulate(pts).IsValid() <==> exists i :: 0 <= i < |pts| && pts[i].y < U16_MAX
  {
    if pts != [] {
      var n := |pts| - 1;
      AccumulateValidIff(pts[..n]);
      if Accumulate(pts[..n]).IsValid() {
        var i :| 0 <= i < n && pts[..n][i].y < U16_MAX;
        assert pts[i].y < U16_MAX;
      } else if exists i :: 0 <= i < |pts| && pts[i].y < U16_MAX {
        var i :| 0 <= i < |pts| && pts[i].y < U16_MAX;
      }
    }
  }

  /** The region object of region.rs, with its four bounds as mutable fields. */
  class Region {
    var top: U16
    var left: U16
    var bottom: U16
    var right: U16

    /** The bounds the object currently holds. */
    function Value(): Bounds
      reads this
    {
      Bounds(top, left, bottom, right)
    }

    /** `Region::new`: a region with exactly the given bounds. */
    constructor New(top: U16, left: U16, bottom: U16, right: U16)
      ensures Value() == Bounds(top, left, bottom, right)
    {
      this.top := top;
      this.left := left;
      this.bottom := bottom;
      this.right := right;
    }

    /** `Region::max_init`: the empty accumulator, not yet valid. */
    constructor MaxInit()
      ensures Value() == Sentinel && !MaxValid()
    {
      top := U16_MAX;
      left := U16_MAX;
      bottom := 0;
      right := 0;
    }

    function Left(): U16
      reads this
    {
      left
    }

    function Top(): U16
      reads this
    {
      top
    }

    /**
     * The number of columns; `u16` arithmetic panics unless
     * `left <= right` and the width fits in a `u16`.
     */
    function Width(): (r: U16)
      reads this
      requires left <= right && right - left < U16_MAX
      ensures r >= 1 && r == |XRange()|
    {
      right - left + 1
    }

    /** The number of rows, under the same `u16` conditions as `Width`. */
    function Height(): (r: U16)
      reads this
      requires top <= bottom && bottom - top < U16_MAX
      ensures r >= 1 && r == |set y | 0 <= y <= U16_MAX && ContainsY(y)|
    {
      assert (set y | 0 <= y <= U16_MAX && ContainsY(y)) == Interval(top, bottom);
      bottom - top + 1
    }

    /** Whether row `y` is one of the rows the region covers. */
    predicate ContainsY(y: int)
      reads this
    {
      top <= y <= bottom
    }

    /** The columns `left..=right`, in increasing order; empty when `left > right`. */
    function XRange(): (r: seq<int>)
      reads this
      ensures forall x :: x in r <==> left <= x <= right
      ensures forall i :: 0 <= i < |r| ==> r[i] == left + i
    {
      Range(left, right)
    }

    /** `max_valid`: at least one point was added since `max_init`. */
    predicate MaxValid()
      reads this
    {
      Value().IsValid()
    }

    /** `max_add`: widens the region to include `(x, y)` and changes nothing else. */
    method MaxAdd(x: U16, y: U16)
      modifies this
      ensures Value() == AddPoint(old(Value()), Point(x, y))
    {
      top := Min(top, y);
      left := Min(left, x);
      bottom := Max(bottom, y);
      right := Max(right, x);
    }
  }
}
