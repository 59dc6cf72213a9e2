/**
 * Day 12 (day12/src/main.rs): packing 3x3 presents under trees.
 *
 * A shape is read from a 3x3 grid of `#` and `.` into its distinct
 * orientations; each orientation is three rows of bits, a row being
 * modelled as the set of its set bit positions (a `u8` row, bits 0..7).
 * A board line is a `u64` modelled the same way (bits 0..63): `&` is
 * intersection, `|` is union and `<<` adds to every position, dropping
 * those that pass bit 63.
 */
module Day12 {
  import opened Common

  type Row = set<nat>

  /** `[u8; 3]`: one orientation of a shape, three rows of bits. */
  type Mask = seq<Row>

  /** `Shape`: the distinct orientations and the number of `#` cells. */
  datatype Shape = Shape(masks: seq<Mask>, area: nat)

  /** `Board`: the dimensions and the number of presents of each shape. */
  datatype Board = Board(width: Byte, height: Byte, shapes: seq<nat>)

  // ---------------------------------------------------------------------------
  // Shapes

  /** The grid has the three rows of three characters `build_shape` reads. */
  predicate Grid3(chars: seq<seq<char>>)
  {
    |chars| >= 3 && forall y :: 0 <= y < 3 ==> |chars[y]| >= 3
  }

  predicate Hash(chars: seq<seq<char>>, y: nat, x: nat)
    requires Grid3(chars) && y < 3 && x < 3
  {
    chars[y][x] == '#'
  }

  /**
   * The eight orientations, numbered in the order `build_shape` offers
   * them to `check_unique`. For orientation `o`, `Cell(o, r, b)` is the
   * grid cell (row, column) whose `#` sets bit `b` of mask row `r`:
   *   0 `xi_yi` as read, 1 `xi_yd` rows reversed, 2 `xd_yi` bits
   *   reversed, 3 `xd_yd` both reversed, 4 `yi_xi` transposed,
   *   5 `yd_xi`, 6 `yi_xd` and 7 `yd_xd` transposed with reversals.
   */
  function Cell(o: nat, r: nat, b: nat): (c: (nat, nat))
    requires o < 8 && r < 3 && b < 3
    ensures c.0 < 3 && c.1 < 3
  {
    match o
    case 0 => (r, b)
    case 1 => (2 - r, b)
    case 2 => (r, 2 - b)
    case 3 => (2 - r, 2 - b)
    case 4 => (b, r)
    case 5 => (2 - b, r)
    case 6 => (b, 2 - r)
    case _ => (2 - b, 2 - r)
  }

  /** The mask row and bit that the `#` at row `y`, column `x` sets in orientation `o`. */
  function Target(o: nat, y: nat, x: nat): (t: (nat, nat))
    requires o < 8 && y < 3 && x < 3
    ensures t.0 < 3 && t.1 < 3
    ensures Cell(o, t.0, t.1) == (y, x)
  {
    match o
    case 0 => (y, x)
    case 1 => (2 - y, x)
    case 2 => (y, 2 - x)
    case 3 => (2 - y, 2 - x)
    case 4 => (x, y)
    case 5 => (x, 2 - y)
    case 6 => (2 - x, y)
    case _ => (2 - x, 2 - y)
  }

  /** Only the target bit of a cell comes from that cell. */
  lemma TargetOnly(o: nat, y: nat, x: nat, r: nat, b: nat)
    requires o < 8 && y < 3 && x < 3 && r < 3 && b < 3 && Cell(o, r, b) == (y, x)
    ensures (r, b) == Target(o, y, x)
  {
  }

  /** Row `r` of orientation `o`: the bits whose cell holds `#`. */
  function OrientRow(chars: seq<seq<char>>, o: nat, r: nat): (row: Row)
    requires Grid3(chars) && o < 8 && r < 3
    ensures forall b :: b in row <==> b < 3 && Hash(chars, Cell(o, r, b).0, Cell(o, r, b).1)
  {
    set b: nat | b < 3 && Hash(chars, Cell(o, r, b).0, Cell(o, r, b).1)
  }

  /** Orientation `o` of the shape in `chars`. */
  function Orientation(chars: seq<seq<char>>, o: nat): (m: Mask)
    requires Grid3(chars) && o < 8
    ensures |m| == 3
  {
    [OrientRow(chars, o, 0), OrientRow(chars, o, 1), OrientRow(chars, o, 2)]
  }

  /**
   * `build_shape` visits the cells column by column, top to bottom. A
   * point of that walk is a pair `(x, y)`: the next cell to visit is row
   * `y` of column `x`, and `(x, 3)` is the same point as `(x + 1, 0)`.
   */
  predicate Point(x: nat, y: nat)
  {
    x <= 3 && y <= 3 && (x == 3 ==> y == 0)
  }

  /** The cell at row `cy`, column `cx` is visited before the point `(x, y)`. */
  predicate Visited(cy: nat, cx: nat, x: nat, y: nat)
  {
    cx < x || (cx == x && cy < y)
  }

  /** The `#` cells visited before the point `(x, y)`. */
  function HashCount(chars: seq<seq<char>>, x: nat, y: nat): nat
    requires Grid3(chars) && Point(x, y)
    decreases x, y
  {
    if y == 0 then (if x == 0 then 0 else HashCount(chars, x - 1, 3))
    else HashCount(chars, x, y - 1) + (if Hash(chars, y - 1, x) then 1 else 0)
  }

  /** The shape's area: every `#` of the grid. */
  function Area(chars: seq<seq<char>>): nat
    requires Grid3(chars)
  {
    HashCount(chars, 3, 0)
  }

  /** `row[r] |= 1 << b` */
  function Mark(m: Mask, r: nat, b: nat): Mask
    requires r < |m|
  {
    m[r := m[r] + {b}]
  }

  /**
   * Orientation `o` as it stands at the point `(x, y)`: each `#` visited
   * so far has set its target bit.
   */
  function PartialMask(chars: seq<seq<char>>, o: nat, x: nat, y: nat): (m: Mask)
    requires Grid3(chars) && o < 8 && Point(x, y)
    ensures |m| == 3
    decreases x, y
  {
    if y == 0 then (if x == 0 then [{}, {}, {}] else PartialMask(chars, o, x - 1, 3))
    else
      var prev := PartialMask(chars, o, x, y - 1);
      if Hash(chars, y - 1, x) then Mark(prev, Target(o, y - 1, x).0, Target(o, y - 1, x).1) else prev
  }

  /** Bit `b` of row `r` is set at the point `(x, y)` exactly when its cell has been visited and holds `#`. */
  lemma {:induction false} PartialBit(chars: seq<seq<char>>, o: nat, x: nat, y: nat, r: nat, b: nat)
    requires Grid3(chars) && o < 8 && Point(x, y) && r < 3
    ensures b in PartialMask(chars, o, x, y)[r] <==> BitVisited(chars, o, x, y, r, b)
    decreases x, y
  {
    if y == 0 {
      if x > 0 {
        PartialBit(chars, o, x - 1, 3, r, b);
        NextColumn(chars, o, x, r, b);
      }
    } else {
      PartialBit(chars, o, x, y - 1, r, b);
      NextCell(chars, o, x, y, r, b);
    }
  }

  /** Bit `b` of row `r` comes from a `#` cell visited before the point `(x, y)`. */
  predicate BitVisited(chars: seq<seq<char>>, o: nat, x: nat, y: nat, r: nat, b: nat)
    requires Grid3(chars) && o < 8 && r < 3
  {
    b < 3 && Visited(Cell(o, r, b).0, Cell(o, r, b).1, x, y) && Hash(chars, Cell(o, r, b).0, Cell(o, r, b).1)
  }

  /** Stepping from the end of column `x - 1` to the start of column `x`. */
  lemma NextColumn(chars: seq<seq<char>>, o: nat, x: nat, r: nat, b: nat)
    requires Grid3(chars) && o < 8 && 0 < x <= 3 && r < 3
    ensures PartialMask(chars, o, x, 0) == PartialMask(chars, o, x - 1, 3)
    ensures BitVisited(chars, o, x, 0, r, b) == BitVisited(chars, o, x - 1, 3, r, b)
  {
  }

  /** Visiting the cell at row `y - 1` of column `x`. */
  lemma NextCell(chars: seq<seq<char>>, o: nat, x: nat, y: nat, r: nat, b: nat)
    requires Grid3(chars) && o < 8 && x < 3 && 0 < y <= 3 && r < 3
    requires b in PartialMask(chars, o, x, y - 1)[r] <==> BitVisited(chars, o, x, y - 1, r, b)
    ensures b in PartialMask(chars, o, x, y)[r] <==> BitVisited(chars, o, x, y, r, b)
  {
    if Hash(chars, y - 1, x) {
      MarkBit(PartialMask(chars, o, x, y - 1), o, y - 1, x, r, b);
    }
  }

  /** Marking the target of the cell `(cy, cx)` sets exactly the bit whose cell that is. */
  lemma MarkBit(prev: Mask, o: nat, cy: nat, cx: nat, r: nat, b: nat)
    requires |prev| == 3 && o < 8 && cy < 3 && cx < 3 && r < 3
    ensures b in Mark(prev, Target(o, cy, cx).0, Target(o, cy, cx).1)[r] <==>
      b in prev[r] || (b < 3 && Cell(o, r, b) == (cy, cx))
  {
    if b < 3 && Cell(o, r, b) == (cy, cx) {
      TargetOnly(o, cy, cx, r, b);
    }
  }

  /** Nothing is set before the first cell, and every cell is visited after the ninth. */
  lemma PartialEnds(chars: seq<seq<char>>, o: nat)
    requires Grid3(chars) && o < 8
    ensures PartialMask(chars, o, 0, 0) == [{}, {}, {}]
    ensures PartialMask(chars, o, 3, 0) == Orientation(chars, o)
  {
    var n, m := PartialMask(chars, o, 3, 0), Orientation(chars, o);
    forall r | 0 <= r < 3 ensures n[r] == m[r] {
      forall b ensures b in n[r] <==> b in m[r] {
        PartialBit(chars, o, 3, 0, r, b);
      }
    }
  }

  /** `check_unique`: the mask is added unless an equal one is already there. */
  method CheckUnique(masks0: seq<Mask>, mask: Mask) returns (masks: seq<Mask>)
    ensures mask in masks0 ==> masks == masks0
    ensures mask !in masks0 ==> masks == masks0 + [mask]
  {
    for i := 0 to |masks0|
      invariant mask !in masks0[..i]
    {
      if masks0[i] == mask {
        return masks0;
      }
    }
    assert masks0[..|masks0|] == masks0;
    masks := masks0 + [mask];
  }

  /** No mask appears twice. */
  predicate Distinct(masks: seq<Mask>)
  {
    forall i, j :: 0 <= i < j < |masks| ==> masks[i] != masks[j]
  }

  /** The masks `check_unique` keeps from a list offered in order: each first occurrence. */
  function Unique(ms: seq<Mask>): (r: seq<Mask>)
    ensures Distinct(r) && |r| <= |ms|
    ensures forall m :: m in r <==> m in ms
    ensures ms != [] ==> r != [] && r[0] == ms[0]
  {
    if ms == [] then []
    else
      var u := Unique(ms[..|ms| - 1]);
      var m := ms[|ms| - 1];
      assert forall x :: x in ms <==> x in ms[..|ms| - 1] || x == m by {
        assert ms == ms[..|ms| - 1] + [m];
      }
      if m in u then u else u + [m]
  }

  /** All eight orientations, in the order they are offered. */
  function Orientations(chars: seq<seq<char>>): (os: seq<Mask>)
    requires Grid3(chars)
    ensures |os| == 8 && forall o :: 0 <= o < 8 ==> os[o] == Orientation(chars, o)
  {
    FirstOrientations(chars, 8)
  }

  /** The first `n` orientations, in `build_shape`'s order. */
  function FirstOrientations(chars: seq<seq<char>>, n: nat): (os: seq<Mask>)
    requires Grid3(chars) && n <= 8
    ensures |os| == n && forall o :: 0 <= o < n ==> os[o] == Orientation(chars, o)
  {
    if n == 0 then [] else FirstOrientations(chars, n - 1) + [Orientation(chars, n - 1)]
  }

  /** The shape `build_shape` makes of a grid, or None where it would index past the grid. */
  function ShapeOf(chars: seq<seq<char>>): (r: Option<Shape>)
    ensures r.None? <==> !Grid3(chars)
  {
    if Grid3(chars) then Some(Shape(Unique(Orientations(chars)), Area(chars))) else None
  }

  /** Offering one more mask to `check_unique`. */
  lemma UniqueStep(os: seq<Mask>, j: nat)
    requires j < |os|
    ensures Unique(os[..j + 1]) == if os[j] in Unique(os[..j]) then Unique(os[..j]) else Unique(os[..j]) + [os[j]]
  {
    assert os[..j + 1][..j] == os[..j];
  }

  /**
   * The first half of `build_shape`: visit the nine cells column by
   * column, setting for each `#` one bit in each of the eight
   * orientations and counting it.
   */
  method Orient(chars: seq<seq<char>>)
    returns (xi_yi: Mask, xi_yd: Mask, xd_yi: Mask, xd_yd: Mask,
             yi_xi: Mask, yd_xi: Mask, yi_xd: Mask, yd_xd: Mask, area: nat)
    requires Grid3(chars)
    ensures [xi_yi, xi_yd, xd_yi, xd_yd, yi_xi, yd_xi, yi_xd, yd_xd] == Orientations(chars)
    ensures area == Area(chars)
  {
    forall o | 0 <= o < 8 ensures PartialMask(chars, o, 0, 0) == [{}, {}, {}] && PartialMask(chars, o, 3, 0) == Orientation(chars, o) {
      PartialEnds(chars, o);
    }
    xi_yi, xi_yd, xd_yi, xd_yd := [{}, {}, {}], [{}, {}, {}], [{}, {}, {}], [{}, {}, {}];
    yi_xi, yd_xi, yi_xd, yd_xd := [{}, {}, {}], [{}, {}, {}], [{}, {}, {}], [{}, {}, {}];
    area := 0;
    for xi := 0 to 3
      invariant xi_yi == PartialMask(chars, 0, xi, 0) && xi_yd == PartialMask(chars, 1, xi, 0)
      invariant xd_yi == PartialMask(chars, 2, xi, 0) && xd_yd == PartialMask(chars, 3, xi, 0)
      invariant yi_xi == PartialMask(chars, 4, xi, 0) && yd_xi == PartialMask(chars, 5, xi, 0)
      invariant yi_xd == PartialMask(chars, 6, xi, 0) && yd_xd == PartialMask(chars, 7, xi, 0)
      invariant area == HashCount(chars, xi, 0)
    {
      xi_yi, xi_yd, xd_yi, xd_yd, yi_xi, yd_xi, yi_xd, yd_xd, area :=
        VisitColumn(chars, xi, xi_yi, xi_yd, xd_yi, xd_yd, yi_xi, yd_xi, yi_xd, yd_xd, area);
    }
    OrientationsListed(chars);
  }

  /** The eight orientations, written out. */
  lemma OrientationsListed(chars: seq<seq<char>>)
    requires Grid3(chars)
    ensures Orientations(chars) == [Orientation(chars, 0), Orientation(chars, 1), Orientation(chars, 2), Orientation(chars, 3),
                                    Orientation(chars, 4), Orientation(chars, 5), Orientation(chars, 6), Orientation(chars, 7)]
  {
    var os := Orientations(chars);
    assert os[0] == Orientation(chars, 0) && os[1] == Orientation(chars, 1);
    assert os[2] == Orientation(chars, 2) && os[3] == Orientation(chars, 3);
    assert os[4] == Orientation(chars, 4) && os[5] == Orientation(chars, 5);
    assert os[6] == Orientation(chars, 6) && os[7] == Orientation(chars, 7);
  }

  /** One pass of `build_shape`'s outer loop: the three cells of column `xi`, top to bottom. */
  method VisitColumn(chars: seq<seq<char>>, xi: nat,
                     xi_yi0: Mask, xi_yd0: Mask, xd_yi0: Mask, xd_yd0: Mask,
                     yi_xi0: Mask, yd_xi0: Mask, yi_xd0: Mask, yd_xd0: Mask, area0: nat)
    returns (xi_yi: Mask, xi_yd: Mask, xd_yi: Mask, xd_yd: Mask,
             yi_xi: Mask, yd_xi: Mask, yi_xd: Mask, yd_xd: Mask, area: nat)
    requires Grid3(chars) && xi < 3
    requires xi_yi0 == PartialMask(chars, 0, xi, 0) && xi_yd0 == PartialMask(chars, 1, xi, 0)
    requires xd_yi0 == PartialMask(chars, 2, xi, 0) && xd_yd0 == PartialMask(chars, 3, xi, 0)
    requires yi_xi0 == PartialMask(chars, 4, xi, 0) && yd_xi0 == PartialMask(chars, 5, xi, 0)
    requires yi_xd0 == PartialMask(chars, 6, xi, 0) && yd_xd0 == PartialMask(chars, 7, xi, 0)
    requires area0 == HashCount(chars, xi, 0)
    ensures xi_yi == PartialMask(chars, 0, xi + 1, 0) && xi_yd == PartialMask(chars, 1, xi + 1, 0)
    ensures xd_yi == PartialMask(chars, 2, xi + 1, 0) && xd_yd == PartialMask(chars, 3, xi + 1, 0)
    ensures yi_xi == PartialMask(chars, 4, xi + 1, 0) && yd_xi == PartialMask(chars, 5, xi + 1, 0)
    ensures yi_xd == PartialMask(chars, 6, xi + 1, 0) && yd_xd == PartialMask(chars, 7, xi + 1, 0)
    ensures area == HashCount(chars, xi + 1, 0)
  {
    xi_yi, xi_yd, xd_yi, xd_yd := xi_yi0, xi_yd0, xd_yi0, xd_yd0;
    yi_xi, yd_xi, yi_xd, yd_xd := yi_xi0, yd_xi0, yi_xd0, yd_xd0;
    area := area0;
    for yi := 0 to 3
      invariant xi_yi == PartialMask(chars, 0, xi, yi) && xi_yd == PartialMask(chars, 1, xi, yi)
      invariant xd_yi == PartialMask(chars, 2, xi, yi) && xd_yd == PartialMask(chars, 3, xi, yi)
      invariant yi_xi == PartialMask(chars, 4, xi, yi) && yd_xi == PartialMask(chars, 5, xi, yi)
      invariant yi_xd == PartialMask(chars, 6, xi, yi) && yd_xd == PartialMask(chars, 7, xi, yi)
      invariant area == HashCount(chars, xi, yi)
    {
      xi_yi, xi_yd, xd_yi, xd_yd, yi_xi, yd_xi, yi_xd, yd_xd, area :=
        VisitCell(chars, xi, yi, xi_yi, xi_yd, xd_yi, xd_yd, yi_xi, yd_xi, yi_xd, yd_xd, area);
    }
  }

  /** The body of `build_shape`'s inner loop: a `#` at row `yi`, column `xi` sets one bit in each orientation. */
  method VisitCell(chars: seq<seq<char>>, xi: nat, yi: nat,
                   xi_yi0: Mask, xi_yd0: Mask, xd_yi0: Mask, xd_yd0: Mask,
                   yi_xi0: Mask, yd_xi0: Mask, yi_xd0: Mask, yd_xd0: Mask, area0: nat)
    returns (xi_yi: Mask, xi_yd: Mask, xd_yi: Mask, xd_yd: Mask,
             yi_xi: Mask, yd_xi: Mask, yi_xd: Mask, yd_xd: Mask, area: nat)
    requires Grid3(chars) && xi < 3 && yi < 3
    requires xi_yi0 == PartialMask(chars, 0, xi, yi) && xi_yd0 == PartialMask(chars, 1, xi, yi)
    requires xd_yi0 == PartialMask(chars, 2, xi, yi) && xd_yd0 == PartialMask(chars, 3, xi, yi)
    requires yi_xi0 == PartialMask(chars, 4, xi, yi) && yd_xi0 == PartialMask(chars, 5, xi, yi)
    requires yi_xd0 == PartialMask(chars, 6, xi, yi) && yd_xd0 == PartialMask(chars, 7, xi, yi)
    requires area0 == HashCount(chars, xi, yi)
    ensures xi_yi == PartialMask(chars, 0, xi, yi + 1) && xi_yd == PartialMask(chars, 1, xi, yi + 1)
    ensures xd_yi == PartialMask(chars, 2, xi, yi + 1) && xd_yd == PartialMask(chars, 3, xi, yi + 1)
    ensures yi_xi == PartialMask(chars, 4, xi, yi + 1) && yd_xi == PartialMask(chars, 5, xi, yi + 1)
    ensures yi_xd == PartialMask(chars, 6, xi, yi + 1) && yd_xd == PartialMask(chars, 7, xi, yi + 1)
    ensures area == HashCount(chars, xi, yi + 1)
  {
    xi_yi, xi_yd, xd_yi, xd_yd := xi_yi0, xi_yd0, xd_yi0, xd_yd0;
    yi_xi, yd_xi, yi_xd, yd_xd := yi_xi0, yd_xi0, yi_xd0, yd_xd0;
    area := area0;
    var xd := 2 - xi;
    var yd := 2 - yi;
    if chars[yi][xi] == '#' {
      area := area + 1;

      xi_yi := Mark(xi_yi, yi, xi);
      xi_yd := Mark(xi_yd, yd, xi);
      xd_yi := Mark(xd_yi, yi, xd);
      xd_yd := Mark(xd_yd, yd, xd);

      yi_xi := Mark(yi_xi, xi, yi);
      yd_xi := Mark(yd_xi, xi, yd);
      yi_xd := Mark(yi_xd, xd, yi);
      yd_xd := Mark(yd_xd, xd, yd);
    }
  }

  /**
   * `build_shape`: the eight orientations of the grid, of which
   * `check_unique` keeps the distinct ones, and the number of `#` cells.
   */
  method BuildShape(chars: seq<seq<char>>) returns (r: Option<Shape>)
    ensures r == ShapeOf(chars)
  {
    if !Grid3(chars) {
      return None;
    }
    var xi_yi, xi_yd, xd_yi, xd_yd, yi_xi, yd_xi, yi_xd, yd_xd, area := Orient(chars);
    var offered := [xi_yi, xi_yd, xd_yi, xd_yd, yi_xi, yd_xi, yi_xd, yd_xd];
    var masks := [];
    for j := 0 to 8
      invariant masks == Unique(offered[..j])
    {
      masks := CheckUnique(masks, offered[j]);
      UniqueStep(offered, j);
    }
    assert offered[..8] == offered;
    r := Some(Shape(masks, area));
  }

  // ---------------------------------------------------------------------------
  // What a shape holds

  /** The bits set in a mask: its cells. */
  function Bits(m: Mask): nat
    requires |m| == 3
  {
    |m[0]| + |m[1]| + |m[2]|
  }

  function H(chars: seq<seq<char>>, c: (nat, nat)): nat
    requires Grid3(chars) && c.0 < 3 && c.1 < 3
  {
    if Hash(chars, c.0, c.1) then 1 else 0
  }

  /** Row `r` of orientation `o` has one bit for each `#` among the three cells it reads. */
  lemma RowBits(chars: seq<seq<char>>, o: nat, r: nat)
    requires Grid3(chars) && o < 8 && r < 3
    ensures forall b :: b in OrientRow(chars, o, r) ==> b < 3
    ensures |OrientRow(chars, o, r)| == H(chars, Cell(o, r, 0)) + H(chars, Cell(o, r, 1)) + H(chars, Cell(o, r, 2))
  {
    var row := OrientRow(chars, o, r);
    SmallSetSize(row);
    assert (0 in row) == Hash(chars, Cell(o, r, 0).0, Cell(o, r, 0).1);
    assert (1 in row) == Hash(chars, Cell(o, r, 1).0, Cell(o, r, 1).1);
    assert (2 in row) == Hash(chars, Cell(o, r, 2).0, Cell(o, r, 2).1);
  }

  /** A set of bits below 3 has one element for each of 0, 1 and 2 it holds. */
  lemma SmallSetSize(s: set<nat>)
    requires forall x :: x in s ==> x < 3
    ensures |s| == (if 0 in s then 1 else 0) + (if 1 in s then 1 else 0) + (if 2 in s then 1 else 0)
  {
    var s1 := s - {0};
    var s2 := s1 - {1};
    var s3 := s2 - {2};
    assert s3 == {} by {
      forall x | x in s3 ensures x < 3 && x != 0 && x != 1 && x != 2 { }
    }
    assert (1 in s1) == (1 in s) && (2 in s2) == (2 in s);
    RemoveSize(s, 0);
    RemoveSize(s1, 1);
    RemoveSize(s2, 2);
  }

  /** Removing `x` from a set shrinks it by one exactly when `x` was in it. */
  lemma RemoveSize(s: set<nat>, x: nat)
    ensures |s - {x}| == |s| - (if x in s then 1 else 0)
  {
    if x in s {
      assert s == (s - {x}) + {x};
    } else {
      assert s - {x} == s;
    }
  }

  /** The area counts every cell of the grid. */
  lemma HashCountNine(chars: seq<seq<char>>)
    requires Grid3(chars)
    ensures Area(chars) ==
      H(chars, (0, 0)) + H(chars, (1, 0)) + H(chars, (2, 0)) +
      H(chars, (0, 1)) + H(chars, (1, 1)) + H(chars, (2, 1)) +
      H(chars, (0, 2)) + H(chars, (1, 2)) + H(chars, (2, 2))
  {
    ColumnCount(chars, 0);
    ColumnCount(chars, 1);
    ColumnCount(chars, 2);
  }

  /** Visiting column `x` counts its `#` cells. */
  lemma ColumnCount(chars: seq<seq<char>>, x: nat)
    requires Grid3(chars) && x < 3
    ensures HashCount(chars, x + 1, 0) == HashCount(chars, x, 0) + H(chars, (0, x)) + H(chars, (1, x)) + H(chars, (2, x))
  {
    assert HashCount(chars, x, 1) == HashCount(chars, x, 0) + H(chars, (0, x));
    assert HashCount(chars, x, 2) == HashCount(chars, x, 1) + H(chars, (1, x));
    assert HashCount(chars, x, 3) == HashCount(chars, x, 2) + H(chars, (2, x));
  }

  /** Every orientation has a bit for each `#` of the grid: as many as the area. */
  lemma OrientationBits(chars: seq<seq<char>>, o: nat)
    requires Grid3(chars) && o < 8
    ensures forall r, b :: 0 <= r < 3 && b in Orientation(chars, o)[r] ==> b < 3
    ensures Bits(Orientation(chars, o)) == Area(chars)
  {
    OrientationRows(chars, o);
    OrientationArea(chars, o);
  }

  lemma OrientationRows(chars: seq<seq<char>>, o: nat)
    requires Grid3(chars) && o < 8
    ensures forall r, b :: 0 <= r < 3 && b in Orientation(chars, o)[r] ==> b < 3
  {
    var m := Orientation(chars, o);
    forall r, b | 0 <= r < 3 && b in m[r]
      ensures b < 3
    {
      assert m[r] == OrientRow(chars, o, r);
    }
  }

  lemma OrientationArea(chars: seq<seq<char>>, o: nat)
    requires Grid3(chars) && o < 8
    ensures Bits(Orientation(chars, o)) == Area(chars)
  {
    RowBits(chars, o, 0);
    RowBits(chars, o, 1);
    RowBits(chars, o, 2);
    HashCountNine(chars);
    CellSum(chars, o);
  }

  /** Every orientation reads each of the nine cells once. */
  lemma CellSum(chars: seq<seq<char>>, o: nat)
    requires Grid3(chars) && o < 8
    ensures H(chars, Cell(o, 0, 0)) + H(chars, Cell(o, 0, 1)) + H(chars, Cell(o, 0, 2)) +
            H(chars, Cell(o, 1, 0)) + H(chars, Cell(o, 1, 1)) + H(chars, Cell(o, 1, 2)) +
            H(chars, Cell(o, 2, 0)) + H(chars, Cell(o, 2, 1)) + H(chars, Cell(o, 2, 2)) ==
            H(chars, (0, 0)) + H(chars, (1, 0)) + H(chars, (2, 0)) +
            H(chars, (0, 1)) + H(chars, (1, 1)) + H(chars, (2, 1)) +
            H(chars, (0, 2)) + H(chars, (1, 2)) + H(chars, (2, 2))
  {
    if o == 0 {
    } else if o == 1 {
    } else if o == 2 {
    } else if o == 3 {
    } else if o == 4 {
    } else if o == 5 {
    } else if o == 6 {
    } else {
    }
  }

  /**
   * The shape of a 3x3 grid: between one and eight masks, all distinct,
   * the first as read, each one of the eight orientations and each
   * orientation among them; every mask has three rows of bits 0..2 and
   * as many bits as the shape's area, the number of `#` cells.
   */
  lemma ShapeMasks(chars: seq<seq<char>>)
    requires Grid3(chars)
    ensures var s := ShapeOf(chars).value;
      && Distinct(s.masks) && 1 <= |s.masks| <= 8
      && s.masks[0] == Orientation(chars, 0)
      && (forall m :: m in s.masks <==> exists o :: 0 <= o < 8 && m == Orientation(chars, o))
      && (forall m :: m in s.masks ==> |m| == 3 && Bits(m) == s.area)
      && (forall m, r, b :: m in s.masks && 0 <= r < 3 && b in m[r] ==> b < 3)
  {
    var os := Orientations(chars);
    forall o | 0 <= o < 8
      ensures (forall r, b :: 0 <= r < 3 && b in Orientation(chars, o)[r] ==> b < 3)
      ensures Bits(Orientation(chars, o)) == Area(chars)
    {
      OrientationBits(chars, o);
    }
    forall m | m in os ensures exists o :: 0 <= o < 8 && m == Orientation(chars, o) {
      var o :| 0 <= o < 8 && os[o] == m;
    }
    forall o | 0 <= o < 8 ensures Orientation(chars, o) in os {
      assert os[o] == Orientation(chars, o);
    }
  }

  /** Orientation 0 is the grid as read: row `y` has bit `x` exactly when that cell is `#`. */
  lemma AsRead(chars: seq<seq<char>>, y: nat, x: nat)
    requires Grid3(chars) && y < 3 && x < 3
    ensures x in Orientation(chars, 0)[y] <==> chars[y][x] == '#'
  {
  }

  // ---------------------------------------------------------------------------
  // The area filter of `part1`

  /** `*count as u16 * shapes[i].area as u16` summed over the board's counts, without overflow. */
  function Demand(shapes: seq<Shape>, counts: seq<nat>): nat
    requires |counts| <= |shapes|
  {
    if counts == [] then 0
    else
      var i := |counts| - 1;
      Demand(shapes, counts[..i]) + (counts[i] % (U16_MAX + 1)) * shapes[i].area
  }

  /**
   * The area the presents of a board need, as `part1` computes it in
   * `u16`: None where it would index past the shapes or overflow, which
   * panics.
   */
  function ShapeArea(shapes: seq<Shape>, counts: seq<nat>): (r: Option<nat>)
    ensures r.None? <==> |counts| > |shapes| || Demand(shapes, counts) > U16_MAX
    ensures r.Some? ==> r.value == Demand(shapes, counts)
  {
    if counts == [] then Some(0)
    else
      var i := |counts| - 1;
      match ShapeArea(shapes, counts[..i])
      case None => None
      case Some(acc) =>
        if i >= |shapes| then None
        else
          var term := (counts[i] % (U16_MAX + 1)) * shapes[i].area;
          if term > U16_MAX || acc + term > U16_MAX then None else Some(acc + term)
  }

  /** Whether the presents' area fits in the board's, or None where `part1` panics. */
  function AreaFits(shapes: seq<Shape>, board: Board): Option<bool>
  {
    match ShapeArea(shapes, board.shapes)
    case None => None
    case Some(need) => Some(need <= board.width * board.height)
  }

  /** The boards whose presents fit by area. */
  function Passing(shapes: seq<Shape>, boards: seq<Board>): set<nat>
  {
    set i: nat | i < |boards| && AreaFits(shapes, boards[i]) == Some(true)
  }

  lemma PassingSnoc(shapes: seq<Shape>, boards: seq<Board>)
    requires boards != []
    ensures var n := |boards| - 1;
      Passing(shapes, boards) == Passing(shapes, boards[..n]) + (if AreaFits(shapes, boards[n]) == Some(true) then {n} else {})
  {
  }

  /** The last board adds one to the passing count exactly when it fits. */
  lemma PassingCount(shapes: seq<Shape>, boards: seq<Board>)
    requires boards != []
    ensures var n := |boards| - 1;
      |Passing(shapes, boards)| == |Passing(shapes, boards[..n])| + (if AreaFits(shapes, boards[n]) == Some(true) then 1 else 0)
  {
    var n := |boards| - 1;
    PassingSnoc(shapes, boards);
    assert n !in Passing(shapes, boards[..n]);
  }

  /** Some board panics exactly when one before the last does or the last does. */
  lemma PanicSnoc(shapes: seq<Shape>, boards: seq<Board>)
    requires boards != []
    ensures var n := |boards| - 1;
      (exists i :: 0 <= i < |boards| && AreaFits(shapes, boards[i]).None?) <==>
      (exists i :: 0 <= i < n && AreaFits(shapes, boards[..n][i]).None?) || AreaFits(shapes, boards[n]).None?
  {
    var n := |boards| - 1;
    assert forall i :: 0 <= i < n ==> boards[..n][i] == boards[i];
  }

  /**
   * `part1` without proving: the number of boards whose presents' total
   * area is at most the board's; None if any board panics.
   */
  function Part1(shapes: seq<Shape>, boards: seq<Board>): (r: Option<nat>)
    ensures r.None? <==> exists i :: 0 <= i < |boards| && AreaFits(shapes, boards[i]).None?
    ensures r.Some? ==> r.value == |Passing(shapes, boards)|
  {
    if boards == [] then Some(0)
    else
      var n := |boards| - 1;
      PassingCount(shapes, boards);
      PanicSnoc(shapes, boards);
      match (Part1(shapes, boards[..n]), AreaFits(shapes, boards[n]))
      case (Some(count), Some(fits)) => Some(if fits then count + 1 else count)
      case _ => None
  }

  // ---------------------------------------------------------------------------
  // Packing: `fit_board`

  /** A board line: a `u64`, as the set of its bit positions. */
  type Line = set<nat>

  /** `(row as u64) << shift`: the bits move up by `shift`, those past bit 63 are lost. */
  function ShiftRow(row: Row, shift: nat): (r: Line)
    ensures forall b :: b in r ==> b < 64
  {
    set b | b in row && b + shift < 64 :: b + shift
  }

  /** The mask shifted by `shift` overlaps no set bit of the three board lines from `y`. */
  predicate Fits(board: seq<Line>, y: nat, config: Mask, shift: nat)
    requires y + 3 <= |board| && |config| == 3
  {
    forall i :: 0 <= i < 3 ==> board[y + i] * ShiftRow(config[i], shift) == {}
  }

  /** The board with the shifted mask ORed into the three lines from `y`. */
  function Place(board: seq<Line>, y: nat, config: Mask, shift: nat): (r: seq<Line>)
    requires y + 3 <= |board| && |config| == 3
    ensures |r| == |board|
  {
    board[y := board[y] + ShiftRow(config[0], shift)]
         [y + 1 := board[y + 1] + ShiftRow(config[1], shift)]
         [y + 2 := board[y + 2] + ShiftRow(config[2], shift)]
  }

  /** One present placed: top-left corner `(x, y)`, shape `s`, orientation `config`. */
  datatype Placement = Placement(x: nat, y: nat, s: nat, config: Mask)

  /** `fit_board` may make this placement on this board: inside it, a mask of the shape, no overlap. */
  predicate Allowed(board: seq<Line>, width: nat, shapes: seq<Shape>, p: Placement)
  {
    p.y + 3 <= |board| && p.x + 3 <= width && p.s < |shapes| && p.config in shapes[p.s].masks &&
    |p.config| == 3 && Fits(board, p.y, p.config, width - p.x - 3)
  }

  /** The placements can be made one after the other, each on the board the earlier ones left. */
  predicate Packs(board: seq<Line>, width: nat, shapes: seq<Shape>, ps: seq<Placement>)
    decreases |ps|
  {
    ps == [] ||
    (Allowed(board, width, shapes, ps[0]) &&
     Packs(Place(board, ps[0].y, ps[0].config, width - ps[0].x - 3), width, shapes, ps[1..]))
  }

  /** The shapes the placements use. */
  function Kinds(ps: seq<Placement>): (r: seq<nat>)
    ensures |r| == |ps| && forall i :: 0 <= i < |ps| ==> r[i] == ps[i].s
  {
    if ps == [] then [] else [ps[0].s] + Kinds(ps[1..])
  }

  /** `v.swap_remove(i)`: the last element takes the place of the removed one. */
  function SwapRemove(a: seq<nat>, i: nat): (r: seq<nat>)
    requires i < |a|
    ensures |r| == |a| - 1
    ensures multiset(r) == multiset(a) - multiset{a[i]}
    ensures forall v :: v in r ==> v in a
  {
    var last := |a| - 1;
    if i == last then
      assert a == a[..i] + [a[i]];
      a[..i]
    else
      assert a == a[..i] + [a[i]] + a[i + 1..last] + [a[last]];
      a[..i] + [a[last]] + a[i + 1..last]
  }

  /** Every mask has three rows, as a `[u8; 3]` does. */
  predicate Masks3(shapes: seq<Shape>)
  {
    forall s, m :: 0 <= s < |shapes| && m in shapes[s].masks ==> |m| == 3
  }

  /** A placement of shape `s` that `fit_board` has not been told to skip. */
  predicate FreshFit(board: seq<Line>, width: nat, shapes: seq<Shape>, s: nat, tried: set<(nat, nat, nat)>, p: Placement)
  {
    Allowed(board, width, shapes, p) && p.s == s && (p.x, p.y, p.s) !in tried
  }

  /** What `fit_board` has added to `shapes_tried`: the positions it has visited. */
  ghost predicate TriedBefore(tried: set<(nat, nat, nat)>, tried0: set<(nat, nat, nat)>, y: nat, x: nat, ks: seq<nat>)
  {
    tried0 <= tried &&
    forall t: (nat, nat, nat) :: t in tried ==>
      t in tried0 || t.1 < y || (t.1 == y && t.0 < x) || (t.1 == y && t.0 == x && t.2 in ks)
  }

  /** No fresh placement of `s` lies before position `(x, y)` in `fit_board`'s visiting order. */
  ghost predicate NoneBefore(board: seq<Line>, width: nat, shapes: seq<Shape>, s: nat,
                             tried0: set<(nat, nat, nat)>, y: nat, x: nat)
  {
    forall p :: FreshFit(board, width, shapes, s, tried0, p) ==> p.y > y || (p.y == y && p.x >= x)
  }

  /** A placement of the `k`-th available present followed by a packing of the others packs them all. */
  lemma PackFirst(board: seq<Line>, width: nat, shapes: seq<Shape>, available: seq<nat>, k: nat,
                  p: Placement, rest: seq<Placement>)
    requires k < |available| && p.s == available[k] && Allowed(board, width, shapes, p)
    requires Packs(Place(board, p.y, p.config, width - p.x - 3), width, shapes, rest)
    requires multiset(Kinds(rest)) == multiset(SwapRemove(available, k))
    ensures Packs(board, width, shapes, [p] + rest)
    ensures multiset(Kinds([p] + rest)) == multiset(available)
  {
    PacksCons(board, width, shapes, p, rest);
    KindsCons(available, k, p, rest);
  }

  lemma PacksCons(board: seq<Line>, width: nat, shapes: seq<Shape>, p: Placement, rest: seq<Placement>)
    requires Allowed(board, width, shapes, p)
    requires Packs(Place(board, p.y, p.config, width - p.x - 3), width, shapes, rest)
    ensures Packs(board, width, shapes, [p] + rest)
  {
    assert ([p] + rest)[1..] == rest;
  }

  lemma KindsCons(available: seq<nat>, k: nat, p: Placement, rest: seq<Placement>)
    requires k < |available| && p.s == available[k]
    requires multiset(Kinds(rest)) == multiset(SwapRemove(available, k))
    ensures multiset(Kinds([p] + rest)) == multiset(available)
  {
    assert ([p] + rest)[1..] == rest;
    assert Kinds([p] + rest) == [p.s] + Kinds(rest);
    assert available[k] in multiset(available);
  }

  /** Marking one more present tried at `(x, y)`, or passing one already tried, visits it. */
  lemma TriedNext(tried: set<(nat, nat, nat)>, tried0: set<(nat, nat, nat)>, y: nat, x: nat, available: seq<nat>, k: nat)
    requires k < |available| && TriedBefore(tried, tried0, y, x, available[..k])
    ensures TriedBefore(tried, tried0, y, x, available[..k + 1])
    ensures TriedBefore(tried + {(x, y, available[k])}, tried0, y, x, available[..k + 1])
  {
    assert available[..k + 1] == available[..k] + [available[k]];
  }

  /** A lone present already tried at `(x, y)` before the call has no fresh placement there. */
  lemma SkipTried(board: seq<Line>, width: nat, shapes: seq<Shape>, s: nat,
                  tried: set<(nat, nat, nat)>, tried0: set<(nat, nat, nat)>, y: nat, x: nat)
    requires TriedBefore(tried, tried0, y, x, []) && (x, y, s) in tried
    requires NoneBefore(board, width, shapes, s, tried0, y, x)
    ensures NoneBefore(board, width, shapes, s, tried0, y, x + 1)
  {
  }

  /** No orientation of a lone present fits at `(x, y)`. */
  lemma NoConfig(board: seq<Line>, width: nat, shapes: seq<Shape>, s: nat, tried0: set<(nat, nat, nat)>, y: nat, x: nat)
    requires NoneBefore(board, width, shapes, s, tried0, y, x)
    requires !exists p :: Allowed(board, width, shapes, p) && p.s == s && p.x == x && p.y == y
    ensures NoneBefore(board, width, shapes, s, tried0, y, x + 1)
  {
  }

  /** Past the last position of a line of positions. */
  lemma NextLine(board: seq<Line>, width: nat, shapes: seq<Shape>, s: nat, tried0: set<(nat, nat, nat)>, y: nat)
    requires width >= 2 && NoneBefore(board, width, shapes, s, tried0, y, width - 2)
    ensures NoneBefore(board, width, shapes, s, tried0, y + 1, 0)
  {
  }

  /** Past the last line of positions there is none left. */
  lemma NoFreshFit(board: seq<Line>, width: nat, shapes: seq<Shape>, s: nat, tried0: set<(nat, nat, nat)>)
    requires |board| >= 2 && NoneBefore(board, width, shapes, s, tried0, |board| - 2, 0)
    ensures forall p :: !FreshFit(board, width, shapes, s, tried0, p)
  {
  }

  /** None of these orientations fits at `(x, y)`. */
  ghost predicate NoneFits(board: seq<Line>, width: nat, x: nat, y: nat, masks: seq<Mask>)
  {
    forall m :: m in masks && |m| == 3 && y + 3 <= |board| && x + 3 <= width ==> !Fits(board, y, m, width - x - 3)
  }

  /** One more orientation that does not fit. */
  lemma NoneFitsNext(board: seq<Line>, width: nat, x: nat, y: nat, masks: seq<Mask>, c: nat)
    requires c < |masks| && NoneFits(board, width, x, y, masks[..c])
    requires |masks[c]| == 3 && y + 3 <= |board| && x + 3 <= width ==> !Fits(board, y, masks[c], width - x - 3)
    ensures NoneFits(board, width, x, y, masks[..c + 1])
  {
    assert masks[..c + 1] == masks[..c] + [masks[c]];
  }

  /** When no orientation of shape `s` fits at `(x, y)`, no placement of it is allowed there. */
  lemma NoneAllowed(board: seq<Line>, width: nat, shapes: seq<Shape>, s: nat, x: nat, y: nat)
    requires s < |shapes| && NoneFits(board, width, x, y, shapes[s].masks)
    ensures !exists p :: Allowed(board, width, shapes, p) && p.s == s && p.x == x && p.y == y
  {
  }

  /** A fitting orientation gives an allowed placement. */
  lemma SomeAllowed(board: seq<Line>, width: nat, shapes: seq<Shape>, p: Placement)
    requires Allowed(board, width, shapes, p)
    ensures exists q :: Allowed(board, width, shapes, q) && q.s == p.s && q.x == p.x && q.y == p.y
  {
  }

  /** The rest of the available presents are all below `shapes`' length after one is removed. */
  lemma RemainingShapes(shapes: seq<Shape>, available: seq<nat>, k: nat)
    requires k < |available| && forall i :: 0 <= i < |available| ==> available[i] < |shapes|
    ensures forall i :: 0 <= i < |available| - 1 ==> SwapRemove(available, k)[i] < |shapes|
  {
    var r := SwapRemove(available, k);
    forall i | 0 <= i < |r|
      ensures r[i] < |shapes|
    {
      assert r[i] in r;
    }
  }

  /**
   * The body of `fit_board`'s orientation loop once an orientation fits:
   * the last present is placed, or the others are fitted onto the board
   * with this one placed.
   */
  method PlaceNext(board: seq<Line>, width: nat, shapes: seq<Shape>, available: seq<nat>, k: nat,
                   p: Placement, tried: set<(nat, nat, nat)>)
    returns (r: bool, ghost ps: seq<Placement>)
    requires width <= 66 && k < |available| && p.s == available[k] && Allowed(board, width, shapes, p)
    requires Masks3(shapes) && forall i :: 0 <= i < |available| ==> available[i] < |shapes|
    ensures r ==> Packs(board, width, shapes, ps) && multiset(Kinds(ps)) == multiset(available)
    ensures |available| == 1 ==> r
    decreases |available|, 0
  {
    var next_available := SwapRemove(available, k);
    if next_available == [] {
      PackFirst(board, width, shapes, available, k, p, []);
      return true, [p];
    }
    var next_board := Place(board, p.y, p.config, width - p.x - 3);
    RemainingShapes(shapes, available, k);
    var ok, rest := FitBoard(next_board, width, shapes, next_available, tried);
    if ok {
      PackFirst(board, width, shapes, available, k, p, rest);
      return true, [p] + rest;
    }
    return false, [];
  }

  /**
   * The innermost loop of `fit_board`: each orientation of the `k`-th
   * available present at `(x, y)` that overlaps nothing is placed, and
   * the rest are fitted onto the board that leaves.
   */
  method TryConfigs(board: seq<Line>, width: nat, shapes: seq<Shape>, available: seq<nat>, k: nat,
                    x: nat, y: nat, tried: set<(nat, nat, nat)>)
    returns (r: bool, ghost ps: seq<Placement>)
    requires y + 3 <= |board| && x + 3 <= width <= 66 && k < |available|
    requires Masks3(shapes) && forall i :: 0 <= i < |available| ==> available[i] < |shapes|
    ensures r ==> Packs(board, width, shapes, ps) && multiset(Kinds(ps)) == multiset(available)
    ensures |available| == 1 ==>
      (r <==> exists p :: Allowed(board, width, shapes, p) && p.s == available[k] && p.x == x && p.y == y)
    decreases |available|, 1
  {
    var shift := (width - x) - 3;
    var s := available[k];
    var masks := shapes[s].masks;
    for c := 0 to |masks|
      invariant |available| == 1 ==> NoneFits(board, width, x, y, masks[..c])
    {
      var config := masks[c];
      assert config in shapes[s].masks;
      if Fits(board, y, config, shift) {
        var p := Placement(x, y, s, config);
        assert Allowed(board, width, shapes, p);
        r, ps := PlaceNext(board, width, shapes, available, k, p, tried);
        if r {
          if |available| == 1 {
            SomeAllowed(board, width, shapes, p);
          }
          return;
        }
      }
      if |available| == 1 {
        NoneFitsNext(board, width, x, y, masks, c);
      }
    }
    if |available| == 1 {
      assert masks[..|masks|] == masks;
      NoneAllowed(board, width, shapes, s, x, y);
    }
    return false, [];
  }

  /** A placement found at `(x, y)` that was not tried before the call is fresh. */
  lemma FoundFresh(board: seq<Line>, width: nat, shapes: seq<Shape>, s: nat, tried0: set<(nat, nat, nat)>, x: nat, y: nat)
    requires (x, y, s) !in tried0
    requires exists p :: Allowed(board, width, shapes, p) && p.s == s && p.x == x && p.y == y
    ensures exists p :: FreshFit(board, width, shapes, s, tried0, p)
  {
    var p :| Allowed(board, width, shapes, p) && p.s == s && p.x == x && p.y == y;
    assert FreshFit(board, width, shapes, s, tried0, p);
  }

  /**
   * `fit_board`: try every position, top to bottom and left to right, for
   * every available present not yet tried there, in every orientation
   * that overlaps nothing; place it on a copy of the board and go on with
   * the rest. True when some order of placements uses up the presents.
   * `shapes_tried` is copied into each deeper call, so what a deeper call
   * tries is not seen here.
   */
  method FitBoard(board: seq<Line>, width: nat, shapes: seq<Shape>, available: seq<nat>,
                  tried0: set<(nat, nat, nat)>)
    returns (r: bool, ghost ps: seq<Placement>)
    requires |board| >= 2 && (|board| > 2 ==> width >= 2) && width <= 66
    requires Masks3(shapes) && forall k :: 0 <= k < |available| ==> available[k] < |shapes|
    ensures r ==> Packs(board, width, shapes, ps) && multiset(Kinds(ps)) == multiset(available)
    ensures |available| == 1 ==> (r <==> exists p :: FreshFit(board, width, shapes, available[0], tried0, p))
    ensures available == [] ==> !r
    decreases |available|, 2
  {
    var height := |board|;
    var tried := tried0;
    ghost var single := |available| == 1;
    for y := 0 to height - 2
      invariant TriedBefore(tried, tried0, y, 0, [])
      invariant single ==> NoneBefore(board, width, shapes, available[0], tried0, y, 0)
    {
      for x := 0 to width - 2
        invariant TriedBefore(tried, tried0, y, x, [])
        invariant single ==> NoneBefore(board, width, shapes, available[0], tried0, y, x)
      {
        for k := 0 to |available|
          invariant TriedBefore(tried, tried0, y, x, available[..k])
          invariant single ==> NoneBefore(board, width, shapes, available[0], tried0, y, if k == 0 then x else x + 1)
        {
          var s := available[k];
          TriedNext(tried, tried0, y, x, available, k);
          if (x, y, s) in tried {
            if single {
              SkipTried(board, width, shapes, s, tried, tried0, y, x);
            }
            continue;
          }
          tried := tried + {(x, y, s)};
          var ok;
          ok, ps := TryConfigs(board, width, shapes, available, k, x, y, tried);
          if ok {
            if single {
              FoundFresh(board, width, shapes, s, tried0, x, y);
            }
            return true, ps;
          }
          if single {
            NoConfig(board, width, shapes, s, tried0, y, x);
          }
        }
      }
      if single && height > 2 {
        NextLine(board, width, shapes, available[0], tried0, y);
      }
    }
    if single {
      NoFreshFit(board, width, shapes, available[0], tried0);
    }
    return false, [];
  }

  // ---------------------------------------------------------------------------
  // `part1` with proving

  /** `vec![v; n]` */
  function Repeat(v: nat, n: nat): (r: seq<nat>)
    ensures |r| == n && forall i :: 0 <= i < n ==> r[i] == v
  {
    if n == 0 then [] else Repeat(v, n - 1) + [v]
  }

  /** The presents of a board, one entry per present: shape `i` repeated `counts[i]` times, in order. */
  function Available(counts: seq<nat>): (r: seq<nat>)
    ensures forall v :: v in r ==> v < |counts|
  {
    if counts == [] then []
    else
      var n := |counts| - 1;
      Available(counts[..n]) + Repeat(n, counts[n])
  }

  lemma RepeatCount(v: nat, n: nat, w: nat)
    ensures multiset(Repeat(v, n))[w] == if w == v then n else 0
  {
    if n > 0 {
      RepeatCount(v, n - 1, w);
    }
  }

  /** Shape `v` appears in a board's list of presents as many times as its count says. */
  lemma {:induction false} AvailableCounts(counts: seq<nat>, v: nat)
    ensures multiset(Available(counts))[v] == if v < |counts| then counts[v] else 0
  {
    if counts != [] {
      var n := |counts| - 1;
      AvailableCounts(counts[..n], v);
      RepeatCount(n, counts[n], v);
    }
  }

  /** `vec![0; n]`: an empty board of `n` lines. */
  function EmptyLines(n: nat): (r: seq<Line>)
    ensures |r| == n && forall i :: 0 <= i < n ==> r[i] == {}
  {
    if n == 0 then [] else EmptyLines(n - 1) + [{}]
  }

  /** The boards `fit_board` runs on without overflowing a subtraction or a shift. */
  predicate FitDefined(b: Board)
  {
    b.height >= 2 && (b.height > 2 ==> b.width >= 2) && b.width <= 66
  }

  /** Some order of placements puts all of a board's presents onto it. */
  ghost predicate Packed(shapes: seq<Shape>, b: Board)
  {
    exists ps :: Packs(EmptyLines(b.height), b.width, shapes, ps) && multiset(Kinds(ps)) == multiset(Available(b.shapes))
  }

  lemma PackedBy(shapes: seq<Shape>, b: Board, ps: seq<Placement>)
    requires Packs(EmptyLines(b.height), b.width, shapes, ps) && multiset(Kinds(ps)) == multiset(Available(b.shapes))
    ensures Packed(shapes, b)
  {
  }

  /** A board with a single present that fits somewhere on it. */
  ghost predicate LoneFits(shapes: seq<Shape>, b: Board)
    requires |Available(b.shapes)| == 1
  {
    exists p :: Allowed(EmptyLines(b.height), b.width, shapes, p) && p.s == Available(b.shapes)[0]
  }

  lemma FreshIsAllowed(board: seq<Line>, width: nat, shapes: seq<Shape>, s: nat)
    ensures (exists p :: FreshFit(board, width, shapes, s, {}, p)) <==>
            (exists p :: Allowed(board, width, shapes, p) && p.s == s)
  {
    if p :| Allowed(board, width, shapes, p) && p.s == s {
      assert FreshFit(board, width, shapes, s, {}, p);
    }
  }

  lemma SubsetCard(a: set<nat>, b: set<nat>)
    requires a <= b
    ensures |a| <= |b|
  {
    assert b == a + (b - a);
  }

  /** What a board's entry in the count says: packed if counted, and counted exactly when a lone present fits. */
  ghost predicate Verdict(shapes: seq<Shape>, b: Board, counted: bool)
  {
    (counted ==> Packed(shapes, b) && Available(b.shapes) != []) &&
    (AreaFits(shapes, b) == Some(true) && |Available(b.shapes)| == 1 ==> (counted <==> LoneFits(shapes, b)))
  }

  /**
   * The packer branch of `part1`'s closure: the board's presents, one
   * entry each, handed to `fit_board` with an empty board of the board's
   * height and nothing tried.
   */
  method ProveBoard(shapes: seq<Shape>, b: Board) returns (ok: bool)
    requires Masks3(shapes) && AreaFits(shapes, b) == Some(true) && FitDefined(b)
    ensures ok ==> Packed(shapes, b) && Available(b.shapes) != []
    ensures |Available(b.shapes)| == 1 ==> (ok <==> LoneFits(shapes, b))
    ensures Verdict(shapes, b, ok)
  {
    var available := Available(b.shapes);
    assert |b.shapes| <= |shapes|;
    assert forall k :: 0 <= k < |available| ==> available[k] in available;
    ghost var ps;
    ok, ps := FitBoard(EmptyLines(b.height), b.width, shapes, available, {});
    if ok {
      PackedBy(shapes, b, ps);
    }
    if |available| == 1 {
      FreshIsAllowed(EmptyLines(b.height), b.width, shapes, available[0]);
    }
  }

  /** One board in `part1`: the area test, then the packer for a board that passes it. */
  method JudgeBoard(shapes: seq<Shape>, b: Board) returns (fits: Option<bool>, ok: bool)
    requires Masks3(shapes) && (AreaFits(shapes, b) == Some(true) ==> FitDefined(b))
    ensures fits == AreaFits(shapes, b)
    ensures ok ==> fits == Some(true)
    ensures fits == Some(true) ==> Verdict(shapes, b, ok)
  {
    fits := AreaFits(shapes, b);
    ok := false;
    if fits == Some(true) {
      ok := ProveBoard(shapes, b);
    }
  }

  /** The first `i` boards passed the area test without panicking, and each has its verdict. */
  ghost predicate Settled(shapes: seq<Shape>, boards: seq<Board>, packed: set<nat>, i: nat)
  {
    i <= |boards| &&
    (forall j :: 0 <= j < i ==> AreaFits(shapes, boards[j]).Some?) &&
    (forall j :: j in packed ==> j < i && AreaFits(shapes, boards[j]) == Some(true)) &&
    (forall j :: 0 <= j < i ==> Verdict(shapes, boards[j], j in packed))
  }

  lemma SettledNext(shapes: seq<Shape>, boards: seq<Board>, packed: set<nat>, i: nat, counted: bool)
    requires i < |boards| && Settled(shapes, boards, packed, i) && AreaFits(shapes, boards[i]).Some?
    requires counted ==> AreaFits(shapes, boards[i]) == Some(true)
    requires AreaFits(shapes, boards[i]) == Some(true) ==> Verdict(shapes, boards[i], counted)
    ensures Settled(shapes, boards, if counted then packed + {i} else packed, i + 1)
  {
    var next := if counted then packed + {i} else packed;
    forall j | 0 <= j < i + 1
      ensures Verdict(shapes, boards[j], j in next)
    {
      if j < i {
        assert (j in next) == (j in packed);
      }
    }
  }

  lemma SettledAll(shapes: seq<Shape>, boards: seq<Board>, packed: set<nat>)
    requires Settled(shapes, boards, packed, |boards|)
    ensures Part1(shapes, boards).Some? && packed <= Passing(shapes, boards)
    ensures |packed| <= Part1(shapes, boards).value
    ensures forall i :: i in packed ==> i < |boards| && Packed(shapes, boards[i]) && Available(boards[i].shapes) != []
    ensures forall i :: i in Passing(shapes, boards) && |Available(boards[i].shapes)| == 1 ==>
      (i in packed <==> LoneFits(shapes, boards[i]))
  {
    SubsetCard(packed, Passing(shapes, boards));
  }

  /**
   * `part1` with `prove` set: of the boards whose presents fit by area,
   * those `fit_board` packs, starting from an empty board and nothing
   * tried. None if any board panics in the area test.
   */
  method Part1Proved(shapes: seq<Shape>, boards: seq<Board>) returns (r: Option<nat>, ghost packed: set<nat>)
    requires Masks3(shapes)
    requires forall i :: 0 <= i < |boards| && AreaFits(shapes, boards[i]) == Some(true) ==> FitDefined(boards[i])
    ensures r.None? <==> Part1(shapes, boards).None?
    ensures r.Some? ==> r.value == |packed| && packed <= Passing(shapes, boards) && r.value <= Part1(shapes, boards).value
    ensures forall i :: i in packed ==> i < |boards| && Packed(shapes, boards[i]) && Available(boards[i].shapes) != []
    ensures r.Some? ==> forall i :: i in Passing(shapes, boards) && |Available(boards[i].shapes)| == 1 ==>
      (i in packed <==> LoneFits(shapes, boards[i]))
  {
    var count := 0;
    packed := {};
    for i := 0 to |boards|
      invariant count == |packed| && Settled(shapes, boards, packed, i)
    {
      var fits, ok := JudgeBoard(shapes, boards[i]);
      if fits.None? {
        assert AreaFits(shapes, boards[i]).None?;
        return None, packed;
      }
      SettledNext(shapes, boards, packed, i, ok);
      if ok {
        packed := packed + {i};
        count := count + 1;
      }
    }
    SettledAll(shapes, boards, packed);
    SubsetCard(packed, Passing(shapes, boards));
    return Some(count), packed;
  }

  // ---------------------------------------------------------------------------
  // Input

  /** The counts after a board's `:`, each parsed as a `usize`; None where a parse fails. */
  function ParseCounts(pieces: seq<string>): (r: Option<seq<nat>>)
    ensures r.None? <==> exists i :: 0 <= i < |pieces| && ParseUnsigned(pieces[i], U64_MAX).None?
    ensures r.Some? ==> |r.value| == |pieces|
    ensures r.Some? ==> forall i :: 0 <= i < |pieces| ==> ParseUnsigned(pieces[i], U64_MAX) == Some(r.value[i])
  {
    if pieces == [] then Some([])
    else
      var n := |pieces| - 1;
      assert forall i :: 0 <= i < n ==> pieces[..n][i] == pieces[i];
      match (ParseCounts(pieces[..n]), ParseUnsigned(pieces[n], U64_MAX))
      case (Some(front), Some(c)) => Some(front + [c])
      case _ => None
  }

  /**
   * One line of a boards section, `WxH: c0 c1 ...`: the dimensions before
   * the first `:` split at the first `x`, the counts after it trimmed and
   * split at single spaces. None where one of the `unwrap`s panics.
   */
  function ParseBoard(line: string): (r: Option<Board>)
    ensures r.Some? ==> Occurs(line, ":") && r.value.shapes != []
  {
    match SplitOnce(line, ":")
    case None => None
    case Some((dim, rest)) =>
      match SplitOnce(dim, "x")
      case None => None
      case Some((w, h)) =>
        match (ParseCounts(Split(Trim(rest), " ")), ParseUnsigned(w, U8_MAX), ParseUnsigned(h, U8_MAX))
        case (Some(counts), Some(width), Some(height)) => Some(Board(width, height, counts))
        case _ => None
  }

  /** The decimal forms of the counts. */
  function Decimals(counts: seq<nat>): (r: seq<string>)
    ensures |r| == |counts| && forall i :: 0 <= i < |counts| ==> r[i] == DecimalString(counts[i])
  {
    if counts == [] then [] else Decimals(counts[..|counts| - 1]) + [DecimalString(counts[|counts| - 1])]
  }

  /** A board written the way the puzzle input writes it. */
  function FormatBoard(b: Board): string
  {
    DecimalString(b.width) + "x" + DecimalString(b.height) + ": " + Join(Decimals(b.shapes), " ")
  }

  /** Decimal numbers joined by spaces start and end with a digit. */
  lemma {:induction false} JoinDigits(ds: seq<string>)
    requires |ds| >= 1 && forall i :: 0 <= i < |ds| ==> |ds[i]| >= 1 && AllDigits(ds[i])
    ensures var j := Join(ds, " "); |j| >= 1 && IsDigit(j[0]) && IsDigit(j[|j| - 1])
    ensures var j := Join(ds, " "); forall k :: 0 <= k < |j| ==> IsDigit(j[k]) || j[k] == ' '
  {
    if |ds| > 1 {
      JoinDigits(ds[1..]);
      var j, rest := Join(ds, " "), Join(ds[1..], " ");
      assert j == ds[0] + " " + rest;
      forall k | 0 <= k < |j|
        ensures IsDigit(j[k]) || j[k] == ' '
      {
        if k > |ds[0]| {
          assert j[k] == rest[k - |ds[0]| - 1];
        }
      }
    }
  }

  /** The counts written after a board's `:` read back as themselves. */
  lemma CountsRoundTrip(counts: seq<nat>)
    requires counts != [] && forall i :: 0 <= i < |counts| ==> counts[i] <= U64_MAX
    ensures ParseCounts(Split(Trim(" " + Join(Decimals(counts), " ")), " ")) == Some(counts)
  {
    CountsPieces(Decimals(counts));
    ParseDecimals(counts);
  }

  /** Trimming and splitting at spaces gives back the numbers that were joined. */
  lemma CountsPieces(ds: seq<string>)
    requires |ds| >= 1 && forall i :: 0 <= i < |ds| ==> |ds[i]| >= 1 && AllDigits(ds[i])
    ensures Split(Trim(" " + Join(ds, " ")), " ") == ds
  {
    var j := Join(ds, " ");
    JoinDigits(ds);
    TrimPadded(" ", j, "");
    assert " " + j + "" == " " + j;
    forall i | 0 <= i < |ds|
      ensures ' ' !in ds[i]
    {
      assert forall k :: 0 <= k < |ds[i]| ==> IsDigit(ds[i][k]);
    }
    SplitJoin(ds, ' ');
  }

  lemma ParseDecimals(counts: seq<nat>)
    requires forall i :: 0 <= i < |counts| ==> counts[i] <= U64_MAX
    ensures ParseCounts(Decimals(counts)) == Some(counts)
  {
    var ds := Decimals(counts);
    forall i | 0 <= i < |ds|
      ensures ParseUnsigned(ds[i], U64_MAX) == Some(counts[i])
    {
      ParseUnsignedRoundTrip(counts[i], U64_MAX);
    }
    var r := ParseCounts(ds);
    assert r.value == counts;
  }

  /** A board line splits at its `:` and then at its `x` into its three parts. */
  lemma BoardLineSplits(b: Board)
    ensures var w, h := DecimalString(b.width), DecimalString(b.height);
      && SplitOnce(FormatBoard(b), ":") == Some((w + "x" + h, " " + Join(Decimals(b.shapes), " ")))
      && SplitOnce(w + "x" + h, "x") == Some((w, h))
  {
    var w, h := DecimalString(b.width), DecimalString(b.height);
    var j := Join(Decimals(b.shapes), " ");
    var dim := w + "x" + h;
    assert ':' !in dim by {
      assert forall i :: 0 <= i < |dim| ==> dim[i] == 'x' || IsDigit(dim[i]);
    }
    assert FormatBoard(b) == dim + [':'] + (" " + j);
    SplitOnceFirst(dim, " " + j, ':');
    assert 'x' !in w by {
      assert forall i :: 0 <= i < |w| ==> IsDigit(w[i]);
    }
    SplitOnceFirst(w, h, 'x');
  }

  /** A board line reads back as the board it was written from. */
  lemma BoardRoundTrip(b: Board)
    requires Writable(b)
    ensures ParseBoard(FormatBoard(b)) == Some(b)
  {
    BoardLineSplits(b);
    CountsRoundTrip(b.shapes);
    ParseUnsignedRoundTrip(b.width, U8_MAX);
    ParseUnsignedRoundTrip(b.height, U8_MAX);
  }

  /** Every line of a boards section, parsed in turn. */
  function MapBoards(lines: seq<string>): (r: seq<Option<Board>>)
    ensures |r| == |lines| && forall i :: 0 <= i < |lines| ==> r[i] == ParseBoard(lines[i])
  {
    seq(|lines|, i requires 0 <= i < |lines| => ParseBoard(lines[i]))
  }

  /** What one section of the input holds. */
  datatype Section = ShapeSection(shape: Shape) | BoardSection(boards: seq<Board>)

  /**
   * One section between blank lines: a shape when its first line ends
   * with `:` (its grid is the lines after that one), otherwise a list of
   * boards. None where `input_transform` panics: an empty section, a grid
   * smaller than 3 by 3, a malformed board line.
   */
  function ParseSection(sec: string): (r: Option<Section>)
    ensures r.Some? ==> StrLines(sec) != []
    ensures r.Some? && r.value.BoardSection? ==> |r.value.boards| == |StrLines(sec)|
  {
    var lines := StrLines(sec);
    if lines == [] then None
    else if lines[0] != [] && lines[0][|lines[0]| - 1] == ':' then
      match ShapeOf(lines[1..])
      case None => None
      case Some(shape) => Some(ShapeSection(shape))
    else
      match Collect(MapBoards(lines))
      case None => None
      case Some(boards) => Some(BoardSection(boards))
  }

  predicate IsShapeSection(r: Option<Section>)
  {
    r.Some? && r.value.ShapeSection?
  }

  /** `boards` is what the last boards section holds. */
  predicate LastBoards(parsed: seq<Option<Section>>, boards: seq<Board>)
  {
    exists i :: 0 <= i < |parsed| && parsed[i] == Some(BoardSection(boards)) &&
      forall j :: i < j < |parsed| ==> IsShapeSection(parsed[j])
  }

  lemma LastBoardsSnoc(parsed: seq<Option<Section>>, boards: seq<Board>)
    requires parsed != [] && IsShapeSection(parsed[|parsed| - 1])
    requires boards != [] ==> LastBoards(parsed[..|parsed| - 1], boards)
    ensures boards != [] ==> LastBoards(parsed, boards)
  {
    if boards == [] {
      return;
    }
    var n := |parsed| - 1;
    var i :| 0 <= i < n && parsed[..n][i] == Some(BoardSection(boards)) &&
      forall j :: i < j < n ==> IsShapeSection(parsed[..n][j]);
    forall j | i < j < |parsed|
      ensures IsShapeSection(parsed[j])
    {
      if j < n {
        assert parsed[..n][j] == parsed[j];
      }
    }
  }

  /**
   * The sections in order: each shape section appends its shape, each
   * boards section replaces the boards read so far. None when any
   * section panics.
   */
  function Sections(parsed: seq<Option<Section>>): (r: Option<(seq<Shape>, seq<Board>)>)
    ensures r.None? <==> exists i :: 0 <= i < |parsed| && parsed[i].None?
    ensures r.Some? ==> forall s :: s in r.value.0 ==> exists i :: 0 <= i < |parsed| && parsed[i] == Some(ShapeSection(s))
    ensures r.Some? && r.value.1 != [] ==> LastBoards(parsed, r.value.1)
    ensures r.Some? && (forall i :: 0 <= i < |parsed| ==> IsShapeSection(parsed[i])) ==> r.value.1 == []
  {
    if parsed == [] then Some(([], []))
    else
      var n := |parsed| - 1;
      assert forall i :: 0 <= i < n ==> parsed[..n][i] == parsed[i];
      match (Sections(parsed[..n]), parsed[n])
      case (Some((shapes, boards)), Some(ShapeSection(s))) =>
        LastBoardsSnoc(parsed, boards);
        Some((shapes + [s], boards))
      case (Some((shapes, _)), Some(BoardSection(boards))) =>
        Some((shapes, boards))
      case _ => None
  }

  /** `input_transform`: the shapes and the boards of the puzzle input, or None where it panics. */
  function InputTransform(input: string): (r: Option<(seq<Shape>, seq<Board>)>)
    ensures r.Some? ==> Masks3(r.value.0)
  {
    var secs := Split(input, "\n\n");
    var parsed := seq(|secs|, i requires 0 <= i < |secs| => ParseSection(secs[i]));
    SectionShapes(secs, parsed);
    Sections(parsed)
  }

  /** Every shape read from the sections has masks of three rows. */
  lemma SectionShapes(secs: seq<string>, parsed: seq<Option<Section>>)
    requires |parsed| == |secs| && forall i :: 0 <= i < |secs| ==> parsed[i] == ParseSection(secs[i])
    ensures var r := Sections(parsed); r.Some? ==> Masks3(r.value.0)
  {
    var r := Sections(parsed);
    if r.Some? {
      forall s, m | s in r.value.0 && m in s.masks
        ensures |m| == 3
      {
        var i :| 0 <= i < |parsed| && parsed[i] == Some(ShapeSection(s));
        var lines := StrLines(secs[i]);
        ShapeMasks(lines[1..]);
      }
    }
  }

  /** Each board on a line of its own. */
  function FormatBoards(bs: seq<Board>): (r: seq<string>)
    ensures |r| == |bs| && forall i :: 0 <= i < |bs| ==> r[i] == FormatBoard(bs[i])
  {
    if bs == [] then [] else FormatBoards(bs[..|bs| - 1]) + [FormatBoard(bs[|bs| - 1])]
  }

  predicate Writable(b: Board)
  {
    b.shapes != [] && forall i :: 0 <= i < |b.shapes| ==> b.shapes[i] <= U64_MAX
  }

  /** A written board line ends with a digit and holds no line break. */
  lemma BoardLinePlain(b: Board, line: string)
    requires b.shapes != [] && line == FormatBoard(b)
    ensures PlainLine(line) && line[|line| - 1] != ':'
  {
    var ds := Decimals(b.shapes);
    var w, h := DecimalString(b.width), DecimalString(b.height);
    var head := w + "x" + h + ": ";
    var j := Join(ds, " ");
    JoinDigits(ds);
    assert line == head + j;
    forall k | 0 <= k < |line|
      ensures line[k] != '\n'
    {
      if k >= |head| {
        assert line[k] == j[k - |head|];
      } else {
        assert forall t :: 0 <= t < |head| ==> IsDigit(head[t]) || head[t] in "x: ";
      }
    }
    assert line[|line| - 1] == j[|j| - 1];
    assert IsDigit(line[|line| - 1]);
  }

  /** A boards section written one board per line reads back as those boards. */
  lemma BoardsSectionRoundTrip(bs: seq<Board>)
    requires bs != [] && forall i :: 0 <= i < |bs| ==> Writable(bs[i])
    ensures ParseSection(Join(FormatBoards(bs), "\n")) == Some(BoardSection(bs))
  {
    var lines := FormatBoards(bs);
    BoardLines(bs, lines);
    StrLinesOfJoin(lines);
    SectionOfBoards(Join(lines, "\n"), lines, bs);
  }

  lemma BoardLines(bs: seq<Board>, lines: seq<string>)
    requires lines == FormatBoards(bs) && forall i :: 0 <= i < |bs| ==> Writable(bs[i])
    ensures forall i :: 0 <= i < |lines| ==> PlainLine(lines[i]) && lines[i][|lines[i]| - 1] != ':'
    ensures forall i :: 0 <= i < |lines| ==> ParseBoard(lines[i]) == Some(bs[i])
  {
    BoardLinesPlain(bs, lines);
    BoardLinesParse(bs, lines);
  }

  lemma BoardLinesPlain(bs: seq<Board>, lines: seq<string>)
    requires |lines| == |bs| && forall i :: 0 <= i < |bs| ==> bs[i].shapes != [] && lines[i] == FormatBoard(bs[i])
    ensures forall i :: 0 <= i < |lines| ==> PlainLine(lines[i]) && lines[i][|lines[i]| - 1] != ':'
  {
    forall i | 0 <= i < |lines|
      ensures PlainLine(lines[i]) && lines[i][|lines[i]| - 1] != ':'
    {
      BoardLinePlain(bs[i], lines[i]);
    }
  }

  lemma BoardLinesParse(bs: seq<Board>, lines: seq<string>)
    requires lines == FormatBoards(bs) && forall i :: 0 <= i < |bs| ==> Writable(bs[i])
    ensures forall i :: 0 <= i < |lines| ==> ParseBoard(lines[i]) == Some(bs[i])
  {
    forall i | 0 <= i < |lines|
      ensures ParseBoard(lines[i]) == Some(bs[i])
    {
      BoardRoundTrip(bs[i]);
    }
  }

  /** A section whose first line does not end with `:` and whose lines all parse as boards. */
  lemma SectionOfBoards(sec: string, lines: seq<string>, bs: seq<Board>)
    requires StrLines(sec) == lines && |lines| == |bs| >= 1 && lines[0] != [] && lines[0][|lines[0]| - 1] != ':'
    requires forall i :: 0 <= i < |bs| ==> ParseBoard(lines[i]) == Some(bs[i])
    ensures ParseSection(sec) == Some(BoardSection(bs))
  {
    CollectBoards(lines, bs);
    BoardsSection(sec, lines, bs);
  }

  lemma CollectBoards(lines: seq<string>, bs: seq<Board>)
    requires |lines| == |bs| && forall i :: 0 <= i < |bs| ==> ParseBoard(lines[i]) == Some(bs[i])
    ensures Collect(MapBoards(lines)) == Some(bs)
  {
    var parsed := MapBoards(lines);
    assert forall i :: 0 <= i < |lines| ==> parsed[i] == Some(bs[i]);
    assert Collect(parsed).value == bs;
  }

  lemma BoardsSection(sec: string, lines: seq<string>, bs: seq<Board>)
    requires StrLines(sec) == lines && lines != [] && lines[0] != [] && lines[0][|lines[0]| - 1] != ':'
    requires Collect(MapBoards(lines)) == Some(bs)
    ensures ParseSection(sec) == Some(BoardSection(bs))
  {
  }

  /** A shape grid: three rows of three cells, each `#` or `.`. */
  predicate ShapeRows(rows: seq<string>)
  {
    |rows| == 3 && forall k :: 0 <= k < 3 ==> |rows[k]| == 3 && forall c :: c in rows[k] ==> c == '#' || c == '.'
  }

  /**
   * A shape section written as its `i:` header followed by its three rows
   * reads back as the shape `build_shape` makes of that grid.
   */
  lemma ShapeSectionRoundTrip(i: nat, rows: seq<string>)
    requires ShapeRows(rows)
    ensures ShapeOf(rows).Some?
    ensures ParseSection(Join([DecimalString(i) + ":"] + rows, "\n")) == Some(ShapeSection(ShapeOf(rows).value))
  {
    var header := DecimalString(i) + ":";
    var lines := [header] + rows;
    assert header[|header| - 1] == ':';
    assert '\n' !in header by {
      assert forall k :: 0 <= k < |header| - 1 ==> header[k] == DecimalString(i)[k];
    }
    forall k | 0 <= k < |lines|
      ensures PlainLine(lines[k])
    {
      if k > 0 {
        var row := lines[k];
        assert row == rows[k - 1];
        assert row[|row| - 1] in row;
      }
    }
    StrLinesOfJoin(lines);
    assert lines[1..] == rows;
  }
}
