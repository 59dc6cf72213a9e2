/**
 * The delta-frame GIF writer of aoc/src/gif/mod.rs.
 *
 * Each drawn frame is compared with the last one written; only the tight
 * bounding box of the changed cells is upscaled and handed to the encoder.
 * The `gif` crate's encoder is a foreign sink: it is modelled by the ghost
 * sequence `Emitted` of the frame records it accepted, and each write may
 * fail.
 */
module GifWriter {
  import opened Common
  import opened GifRegion

  /** A picture of palette indices, one sequence per row. */
  type FrameData = seq<seq<Byte>>

  /** `f` has exactly `height` rows of `width` cells. */
  predicate IsFrame(f: FrameData, width: nat, height: nat)
  {
    |f| == height && forall y :: 0 <= y < |f| ==> |f[y]| == width
  }

  /** What to do when a drawn frame equals the last one written. */
  datatype IdenticalAction = Ignore | Delay

  /** The fields of one `gif::Frame` handed to `write_frame`; all others keep their defaults. */
  datatype FrameRecord = FrameRecord(
    top: nat, left: nat, width: nat, height: nat,
    delay: nat, transparent: Option<Byte>, buffer: seq<Byte>)

  /** The global palette as the encoder receives it: the RGB triples flattened in order. */
  function FlattenPalette(palette: seq<(Byte, Byte, Byte)>): seq<Byte>
  {
    if palette == [] then []
    else
      var c := palette[|palette| - 1];
      FlattenPalette(palette[..|palette| - 1]) + [c.0, c.1, c.2]
  }

  /** Colour `i` occupies bytes `3i`, `3i+1`, `3i+2` of the flattened palette. */
  lemma {:induction false} FlattenPaletteLayout(palette: seq<(Byte, Byte, Byte)>)
    ensures |FlattenPalette(palette)| == 3 * |palette|
    ensures forall i :: 0 <= i < |palette| ==>
      FlattenPalette(palette)[3 * i] == palette[i].0 &&
      FlattenPalette(palette)[3 * i + 1] == palette[i].1 &&
      FlattenPalette(palette)[3 * i + 2] == palette[i].2
  {
    if palette != [] {
      FlattenPaletteLayout(palette[..|palette| - 1]);
    }
  }

  /** The frame delay actually encoded: never below 2 hundredths of a second. */
  function ClampDelay(delay: U16): (r: U16)
    ensures r >= 2 && r >= delay
    ensures r == delay || r == 2
  {
    Max(2, delay)
  }

  /** The record `delay` writes: one transparent pixel of colour 0 at the origin. */
  function DelayRecord(delay: U16): FrameRecord
  {
    FrameRecord(0, 0, 1, 1, ClampDelay(delay), Some(0), [0])
  }

  /** The cells `(x, y)` with `x < n` where two rows differ, left to right. */
  function RowDiffs(r1: seq<Byte>, r2: seq<Byte>, y: U16, n: nat): seq<Point>
    requires n <= |r1| && n <= |r2| && n <= U16_MAX
  {
    if n == 0 then []
    else
      RowDiffs(r1, r2, y, n - 1) + (if r1[n - 1] != r2[n - 1] then [Point(n - 1, y)] else [])
  }

  /** `RowDiffs` lists exactly the differing cells of the row left of `n`. */
  lemma {:induction false} RowDiffsMembers(r1: seq<Byte>, r2: seq<Byte>, y: U16, n: nat)
    requires n <= |r1| && n <= |r2| && n <= U16_MAX
    ensures forall p :: p in RowDiffs(r1, r2, y, n) <==> p.y == y && p.x < n && r1[p.x] != r2[p.x]
  {
    if n > 0 {
      RowDiffsMembers(r1, r2, y, n - 1);
    }
  }

  /** The cells of the first `n` rows where two frames differ, in row-major order. */
  function FrameDiffs(f1: FrameData, f2: FrameData, width: U16, n: nat): seq<Point>
    requires n <= U16_MAX && IsFrame(f1, width, |f1|) && IsFrame(f2, width, |f2|)
    requires n <= |f1| && n <= |f2|
  {
    if n == 0 then []
    else FrameDiffs(f1, f2, width, n - 1) + RowDiffs(f1[n - 1], f2[n - 1], n - 1, width)
  }

  /** `FrameDiffs` lists exactly the differing cells of the first `n` rows. */
  lemma {:induction false} FrameDiffsMembers(f1: FrameData, f2: FrameData, width: U16, n: nat)
    requires n <= U16_MAX && IsFrame(f1, width, |f1|) && IsFrame(f2, width, |f2|)
    requires n <= |f1| && n <= |f2|
    ensures forall p :: p in FrameDiffs(f1, f2, width, n) <==>
      p.y < n && p.x < width && f1[p.y][p.x] != f2[p.y][p.x]
  {
    if n > 0 {
      FrameDiffsMembers(f1, f2, width, n - 1);
      RowDiffsMembers(f1[n - 1], f2[n - 1], n - 1, width);
    }
  }

  /** The set of cells where two frames of the same size differ. */
  ghost function ChangedCells(f1: FrameData, f2: FrameData, width: U16, height: U16): set<Point>
    requires IsFrame(f1, width, height) && IsFrame(f2, width, height)
  {
    set x: nat, y: nat | x < width && y < height && f1[y][x] != f2[y][x] :: Point(x, y)
  }

  /** What `frame_difference` answers, given the last frame written (if any). */
  function Difference(last: Option<FrameData>, frame: FrameData, width: U16, height: U16): Option<Bounds>
    requires width >= 1 && height >= 1 && IsFrame(frame, width, height)
    requires last.Some? ==> IsFrame(last.value, width, height)
  {
    match last
    case None => Some(Bounds(0, 0, height - 1, width - 1))
    case Some(l) =>
      var b := Accumulate(FrameDiffs(l, frame, width, height));
      if b.IsValid() then Some(b) else None
  }

  /**
   * With a previous frame, there is no difference exactly when the frames
   * are equal, and otherwise the region is the tight bounding box of the
   * changed cells, which lies inside the frame.
   */
  lemma DifferenceIsChangedBox(last: FrameData, frame: FrameData, width: U16, height: U16)
    requires width >= 1 && height >= 1
    requires IsFrame(frame, width, height) && IsFrame(last, width, height)
    ensures Difference(Some(last), frame, width, height).None? <==> last == frame
    ensures match Difference(Some(last), frame, width, height)
      case None => true
      case Some(b) =>
        IsBoundingBox(b, ChangedCells(last, frame, width, height)) &&
        b.top <= b.bottom < height && b.left <= b.right < width
  {
    var pts := FrameDiffs(last, frame, width, height);
    FrameDiffsMembers(last, frame, width, height);
    var b := Accumulate(pts);
    AccumulateValidIff(pts);
    if pts == [] {
      assert last == frame by {
        forall y | 0 <= y < height ensures last[y] == frame[y] {
          forall x | 0 <= x < width ensures last[y][x] == frame[y][x] {
            assert Point(x, y) !in pts;
          }
        }
      }
    } else {
      assert pts[0].y < height;
      assert last != frame by {
        assert pts[0] in pts;
      }
      AccumulateIsBoundingBox(pts);
      assert (set p | p in pts) == ChangedCells(last, frame, width, height);
      var pb :| pb in pts && pb.y == b.bottom;
      var pr :| pr in pts && pr.x == b.right;
      var pt :| pt in pts && pt.y == b.top;
      var pl :| pl in pts && pl.x == b.left;
    }
  }

  /** `n` copies of one value. */
  function Repeat(v: Byte, n: nat): (r: seq<Byte>)
    ensures |r| == n && forall i :: 0 <= i < n ==> r[i] == v
  {
    seq(n, _ => v)
  }

  /** A row with every pixel repeated `xScale` times (the `flat_map` in `draw_frame_identical_check`). */
  function ExpandLine(line: seq<Byte>, xScale: nat): seq<Byte>
  {
    if line == [] then []
    else ExpandLine(line[..|line| - 1], xScale) + Repeat(line[|line| - 1], xScale)
  }

  /** `k` copies of a line, one after another. */
  function RepeatLine(line: seq<Byte>, k: nat): seq<Byte>
  {
    if k == 0 then [] else RepeatLine(line, k - 1) + line
  }

  /** The upscaling fold: each row expanded horizontally, then written `yScale` times. */
  function Upscale(rows: seq<seq<Byte>>, xScale: nat, yScale: nat): seq<Byte>
  {
    if rows == [] then []
    else
      Upscale(rows[..|rows| - 1], xScale, yScale)
        + RepeatLine(ExpandLine(rows[|rows| - 1], xScale), yScale)
  }

  /** The region is a non-empty box inside every row and row range of the frame. */
  predicate InFrame(b: Bounds, frame: FrameData)
  {
    b.top <= b.bottom < |frame| && b.left <= b.right &&
    forall y :: 0 <= y < |frame| ==> b.right < |frame[y]|
  }

  /** The slices `l[left..=right]` of the rows `y` among the first `n` for which `contains_y(y)` holds. */
  function SectionRows(frame: FrameData, b: Bounds, n: nat): seq<seq<Byte>>
    requires n <= |frame| && InFrame(b, frame)
  {
    if n == 0 then []
    else
      SectionRows(frame, b, n - 1)
        + (if b.top <= n - 1 <= b.bottom then [frame[n - 1][b.left..b.right + 1]] else [])
  }

  /** The record `draw_frame_identical_check` writes for the changed region `b`. */
  function ContentRecord(frame: FrameData, b: Bounds, xScale: U16, yScale: U16, delay: U16): FrameRecord
    requires InFrame(b, frame)
  {
    FrameRecord(
      b.top * yScale, b.left * xScale,
      (b.right - b.left + 1) * xScale, (b.bottom - b.top + 1) * yScale,
      ClampDelay(delay), None, Upscale(SectionRows(frame, b, |frame|), xScale, yScale))
  }

  /**
   * The record the next `draw_frame_identical_check` hands to the encoder,
   * or None when it writes nothing.
   */
  function NextRecord(
    last: Option<FrameData>, frame: FrameData, delay: U16, action: IdenticalAction,
    width: U16, height: U16, xScale: U16, yScale: U16): Option<FrameRecord>
    requires width >= 1 && height >= 1 && IsFrame(frame, width, height)
    requires last.Some? ==> IsFrame(last.value, width, height)
  {
    match Difference(last, frame, width, height)
    case None => if action == Delay then Some(DelayRecord(delay)) else None
    case Some(b) =>
      DifferenceInFrame(last, frame, width, height);
      Some(ContentRecord(frame, b, xScale, yScale, delay))
  }

  /** A region `frame_difference` returns lies inside the frame. */
  lemma DifferenceInFrame(last: Option<FrameData>, frame: FrameData, width: U16, height: U16)
    requires width >= 1 && height >= 1 && IsFrame(frame, width, height)
    requires last.Some? ==> IsFrame(last.value, width, height)
    ensures match Difference(last, frame, width, height)
      case None => true
      case Some(b) => b.top <= b.bottom < height && b.left <= b.right < width
  {
    if last.Some? {
      var pts := FrameDiffs(last.value, frame, width, height);
      FrameDiffsMembers(last.value, frame, width, height);
      if pts != [] {
        AccumulateIsBoundingBox(pts);
        var b := Accumulate(pts);
        var pb :| pb in pts && pb.y == b.bottom;
        var pr :| pr in pts && pr.x == b.right;
        var pt :| pt in pts && pt.y == b.top;
        var pl :| pl in pts && pl.x == b.left;
      }
    }
  }

  lemma {:induction false} ExpandLineLength(line: seq<Byte>, xScale: nat)
    ensures |ExpandLine(line, xScale)| == |line| * xScale
  {
    if line != [] {
      ExpandLineLength(line[..|line| - 1], xScale);
      assert |line| * xScale == (|line| - 1) * xScale + xScale;
    }
  }

  /** Pixel `c` of an expanded row comes from source pixel `c / xScale`. */
  lemma {:induction false} ExpandLineAt(line: seq<Byte>, xScale: nat, c: nat)
    requires xScale >= 1 && c < |line| * xScale
    ensures |ExpandLine(line, xScale)| == |line| * xScale
    ensures c / xScale < |line| && ExpandLine(line, xScale)[c] == line[c / xScale]
  {
    ExpandLineLength(line, xScale);
    DivBelow(c, xScale, |line|);
    var n := |line| - 1;
    var front := line[..n];
    var ef := ExpandLine(front, xScale);
    ExpandLineLength(front, xScale);
    var base := n * xScale;
    if c < base {
      ExpandLineAt(front, xScale, c);
      assert ExpandLine(line, xScale)[c] == ef[c];
    } else {
      DivModOfBlock(n, c - base, xScale);
    }
  }

  lemma {:induction false} RepeatLineLength(line: seq<Byte>, k: nat)
    ensures |RepeatLine(line, k)| == k * |line|
  {
    if k > 0 {
      RepeatLineLength(line, k - 1);
      assert k * |line| == (k - 1) * |line| + |line|;
    }
  }

  /** Pixel `j` of `k` stacked copies of a line is pixel `j % |line|` of the line. */
  lemma {:induction false} RepeatLineAt(line: seq<Byte>, k: nat, j: nat)
    requires |line| >= 1 && j < k * |line|
    ensures |RepeatLine(line, k)| == k * |line|
    ensures RepeatLine(line, k)[j] == line[j % |line|]
  {
    RepeatLineLength(line, k);
    RepeatLineLength(line, k - 1);
    var base := (k - 1) * |line|;
    if j < base {
      RepeatLineAt(line, k - 1, j);
    } else {
      DivModOfBlock(k - 1, j - base, |line|);
    }
  }

  lemma {:induction false} UpscaleLength(rows: seq<seq<Byte>>, w: nat, xScale: nat, yScale: nat)
    requires forall i :: 0 <= i < |rows| ==> |rows[i]| == w
    ensures |Upscale(rows, xScale, yScale)| == (|rows| * yScale) * (w * xScale)
  {
    if rows != [] {
      var n := |rows| - 1;
      UpscaleLength(rows[..n], w, xScale, yScale);
      ExpandLineLength(rows[n], xScale);
      RepeatLineLength(ExpandLine(rows[n], xScale), yScale);
      assert |ExpandLine(rows[n], xScale)| == w * xScale by {
        ExpandLineLength(rows[n], xScale);
      }
      assert |RepeatLine(ExpandLine(rows[n], xScale), yScale)| == yScale * (w * xScale) by {
        RepeatLineLength(ExpandLine(rows[n], xScale), yScale);
      }
      BlockAppend(n, yScale, w * xScale);
    }
  }

  /**
   * Output pixel `p` of the upscaled rows, read as row `p / (w * xScale)`
   * and column `p % (w * xScale)`, is source pixel `(column / xScale, row / yScale)`.
   */
  lemma {:induction false} UpscaleAt(rows: seq<seq<Byte>>, w: nat, wx: nat, xScale: nat, yScale: nat, p: nat)
    requires w >= 1 && xScale >= 1 && yScale >= 1 && wx == w * xScale
    requires forall i :: 0 <= i < |rows| ==> |rows[i]| == w
    requires p < |Upscale(rows, xScale, yScale)|
    ensures wx >= 1 && 0 <= (p / wx) / yScale < |rows| && 0 <= (p % wx) / xScale < w
    ensures Upscale(rows, xScale, yScale)[p] == rows[(p / wx) / yScale][(p % wx) / xScale]
  {
    MulSign(xScale, w);
    DivNonneg(p, wx);
    DivNonneg(p / wx, yScale);
    DivNonneg(p % wx, xScale);
    var n := |rows| - 1;
    var front := rows[..n];
    var uf := Upscale(front, xScale, yScale);
    var e := ExpandLine(rows[n], xScale);
    var u := Upscale(rows, xScale, yScale);
    assert u == uf + RepeatLine(e, yScale);
    if p < |uf| {
      UpscaleAt(front, w, wx, xScale, yScale, p);
      assert u[p] == uf[p];
    } else {
      UpscaleLength(front, w, xScale, yScale);
      UpscaleLastAt(rows[n], n, w, wx, xScale, yScale, p - |uf|);
      assert u[p] == RepeatLine(e, yScale)[p - |uf|];
    }
  }

  /**
   * Position `j` of the block written for row `n` is pixel `(j % wx) / xScale`
   * of that row, and in the whole output it lies in row-block `n`.
   */
  lemma UpscaleLastAt(row: seq<Byte>, n: nat, w: nat, wx: nat, xScale: nat, yScale: nat, j: nat)
    requires w >= 1 && xScale >= 1 && yScale >= 1 && wx >= 1 && wx == w * xScale && |row| == w
    requires j < |RepeatLine(ExpandLine(row, xScale), yScale)|
    ensures 0 <= (j % wx) / xScale < w
    ensures ((n * yScale) * wx + j) / wx / yScale == n && ((n * yScale) * wx + j) % wx == j % wx
    ensures RepeatLine(ExpandLine(row, xScale), yScale)[j] == row[(j % wx) / xScale]
  {
    var e := ExpandLine(row, xScale);
    DivNonneg(j % wx, xScale);
    assert |e| == wx by {
      ExpandLineLength(row, xScale);
    }
    assert j < yScale * wx by {
      RepeatLineLength(e, yScale);
    }
    assert RepeatLine(e, yScale)[j] == e[j % wx] by {
      RepeatLineAt(e, yScale, j);
    }
    assert e[j % wx] == row[(j % wx) / xScale] by {
      ExpandLineAt(row, xScale, j % wx);
    }
    BlockCoords(n, yScale, wx, j);
  }

  /** Upscaling one more row appends that row's scaled block. */
  lemma UpscaleSnoc(rows: seq<seq<Byte>>, line: seq<Byte>, xScale: nat, yScale: nat)
    ensures Upscale(rows + [line], xScale, yScale)
      == Upscale(rows, xScale, yScale) + RepeatLine(ExpandLine(line, xScale), yScale)
  {
    assert (rows + [line])[..|rows|] == rows;
  }

  /** Reading row `y` appends its scaled block when `y` lies in the box, and nothing otherwise. */
  lemma UpscaleSectionNext(frame: FrameData, b: Bounds, y: nat, xScale: nat, yScale: nat)
    requires y < |frame| && InFrame(b, frame)
    ensures b.right < |frame[y]|
    ensures b.top <= y <= b.bottom ==>
      Upscale(SectionRows(frame, b, y + 1), xScale, yScale) == Upscale(SectionRows(frame, b, y), xScale, yScale)
        + RepeatLine(ExpandLine(frame[y][b.left..b.right + 1], xScale), yScale)
    ensures !(b.top <= y <= b.bottom) ==>
      Upscale(SectionRows(frame, b, y + 1), xScale, yScale) == Upscale(SectionRows(frame, b, y), xScale, yScale)
  {
    var before := SectionRows(frame, b, y);
    if b.top <= y <= b.bottom {
      var line := frame[y][b.left..b.right + 1];
      assert SectionRows(frame, b, y + 1) == before + [line];
      UpscaleSnoc(before, line, xScale, yScale);
    } else {
      assert SectionRows(frame, b, y + 1) == before + [] == before;
    }
  }

  /** The section holds the rows `top..=bottom`, each cut to the columns `left..=right`. */
  lemma {:induction false} SectionRowsLayout(frame: FrameData, b: Bounds, n: nat)
    requires n <= |frame| && InFrame(b, frame)
    ensures |SectionRows(frame, b, n)| == if n <= b.top then 0 else Min(n, b.bottom + 1) - b.top
    ensures forall r :: 0 <= r < |SectionRows(frame, b, n)| ==>
      SectionRows(frame, b, n)[r] == frame[b.top + r][b.left..b.right + 1]
  {
    if n > 0 {
      SectionRowsLayout(frame, b, n - 1);
    }
  }

  /**
   * Output pixel `p` of `rec`, read row-major with `rec.width` pixels per
   * row, shows cell `(left + column / xScale, top + row / yScale)` of the frame.
   */
  ghost predicate PixelFrom(rec: FrameRecord, frame: FrameData, b: Bounds, xScale: nat, yScale: nat, p: nat)
    requires rec.width >= 1 && xScale >= 1 && yScale >= 1
  {
    var y := b.top + (p / rec.width) / yScale;
    var x := b.left + (p % rec.width) / xScale;
    p < |rec.buffer| && y < |frame| && x < |frame[y]| && rec.buffer[p] == frame[y][x]
  }

  /**
   * `rec` shows the box `b` of `frame` scaled by `xScale`×`yScale`: placed at
   * the scaled corner, with the scaled size, and every pixel from the frame.
   */
  ghost predicate ShowsBox(rec: FrameRecord, frame: FrameData, b: Bounds, xScale: nat, yScale: nat)
    requires xScale >= 1 && yScale >= 1
  {
    rec.top == b.top * yScale && rec.left == b.left * xScale &&
    rec.width == (b.right - b.left + 1) * xScale && rec.height == (b.bottom - b.top + 1) * yScale &&
    rec.width >= 1 && |rec.buffer| == rec.width * rec.height &&
    forall p :: 0 <= p < |rec.buffer| ==> PixelFrom(rec, frame, b, xScale, yScale, p)
  }

  /**
   * Pixel `p` of the upscaled section, with `wx` output pixels per row,
   * is cell `(left + (p % wx) / xScale, top + (p / wx) / yScale)` of the frame.
   */
  lemma SectionPixel(frame: FrameData, b: Bounds, xScale: nat, yScale: nat, wx: nat, p: nat)
    requires InFrame(b, frame) && xScale >= 1 && yScale >= 1
    requires wx == (b.right - b.left + 1) * xScale
    requires p < |Upscale(SectionRows(frame, b, |frame|), xScale, yScale)|
    ensures wx >= 1 && 0 <= (p / wx) / yScale && 0 <= (p % wx) / xScale
    ensures b.top + (p / wx) / yScale <= b.bottom && b.left + (p % wx) / xScale <= b.right
    ensures Upscale(SectionRows(frame, b, |frame|), xScale, yScale)[p]
      == frame[b.top + (p / wx) / yScale][b.left + (p % wx) / xScale]
  {
    var rows := SectionRows(frame, b, |frame|);
    SectionRowsLayout(frame, b, |frame|);
    UpscaleAt(rows, b.right - b.left + 1, wx, xScale, yScale, p);
    var r := (p / wx) / yScale;
    assert rows[r] == frame[b.top + r][b.left..b.right + 1];
  }

  /** Every pixel of a content record comes from its box of the frame. */
  lemma ContentRecordPixels(frame: FrameData, b: Bounds, xScale: U16, yScale: U16, delay: U16)
    requires InFrame(b, frame) && xScale >= 1 && yScale >= 1
    ensures var rec := ContentRecord(frame, b, xScale, yScale, delay);
      rec.width >= 1 && forall p :: 0 <= p < |rec.buffer| ==> PixelFrom(rec, frame, b, xScale, yScale, p)
  {
    var rec := ContentRecord(frame, b, xScale, yScale, delay);
    MulSign(xScale, b.right - b.left + 1);
    forall p | 0 <= p < |rec.buffer| ensures PixelFrom(rec, frame, b, xScale, yScale, p) {
      SectionPixel(frame, b, xScale, yScale, rec.width, p);
    }
  }

  /** A content record's buffer holds exactly `width * height` pixels. */
  lemma ContentRecordSize(frame: FrameData, b: Bounds, xScale: U16, yScale: U16, delay: U16)
    requires InFrame(b, frame) && xScale >= 1 && yScale >= 1
    ensures var rec := ContentRecord(frame, b, xScale, yScale, delay);
      rec.height == |SectionRows(frame, b, |frame|)| * yScale && |rec.buffer| == rec.width * rec.height
  {
    var rows := SectionRows(frame, b, |frame|);
    var w := b.right - b.left + 1;
    assert |rows| == b.bottom - b.top + 1 && forall i :: 0 <= i < |rows| ==> |rows[i]| == w by {
      SectionRowsLayout(frame, b, |frame|);
    }
    var rec := ContentRecord(frame, b, xScale, yScale, delay);
    var wx := w * xScale;
    var hy := |rows| * yScale;
    assert rec.width == wx && rec.height == hy && rec.buffer == Upscale(rows, xScale, yScale);
    assert |rec.buffer| == hy * wx by {
      UpscaleLength(rows, w, xScale, yScale);
    }
  }

  /** A content record lies inside the scaled canvas. */
  lemma ContentRecordFits(frame: FrameData, b: Bounds, width: U16, height: U16, xScale: U16, yScale: U16, delay: U16)
    requires IsFrame(frame, width, height) && InFrame(b, frame) && xScale >= 1 && yScale >= 1
    ensures var rec := ContentRecord(frame, b, xScale, yScale, delay);
      rec.left + rec.width <= width * xScale && rec.top + rec.height <= height * yScale
  {
    Distrib(b.left, b.right - b.left + 1, xScale);
    MulLe(b.right + 1, width, xScale);
    Distrib(b.top, b.bottom - b.top + 1, yScale);
    MulLe(b.bottom + 1, height, yScale);
  }

  /** A content record shows its box of the frame and stays inside the scaled canvas. */
  lemma ContentRecordLayout(frame: FrameData, b: Bounds, width: U16, height: U16, xScale: U16, yScale: U16, delay: U16)
    requires IsFrame(frame, width, height) && InFrame(b, frame) && xScale >= 1 && yScale >= 1
    ensures var rec := ContentRecord(frame, b, xScale, yScale, delay);
      ShowsBox(rec, frame, b, xScale, yScale) &&
      rec.left + rec.width <= width * xScale && rec.top + rec.height <= height * yScale &&
      rec.transparent == None && rec.delay == ClampDelay(delay)
  {
    ContentRecordSize(frame, b, xScale, yScale, delay);
    ContentRecordFits(frame, b, width, height, xScale, yScale, delay);
    ContentRecordPixels(frame, b, xScale, yScale, delay);
  }

  /** The first frame drawn is written whole: at the origin, covering the canvas. */
  lemma FirstFrameCoversCanvas(
    frame: FrameData, delay: U16, action: IdenticalAction,
    width: U16, height: U16, xScale: U16, yScale: U16)
    requires width >= 1 && height >= 1 && IsFrame(frame, width, height)
    requires xScale >= 1 && yScale >= 1
    ensures var r := NextRecord(None, frame, delay, action, width, height, xScale, yScale);
      r.Some? && r.value.top == 0 && r.value.left == 0 &&
      r.value.width == width * xScale && r.value.height == height * yScale &&
      r.value.transparent == None && r.value.delay == ClampDelay(delay) &&
      ShowsBox(r.value, frame, Bounds(0, 0, height - 1, width - 1), xScale, yScale)
  {
    ContentRecordLayout(frame, Bounds(0, 0, height - 1, width - 1), width, height, xScale, yScale, delay);
  }

  /**
   * A frame equal to the last one writes nothing under `Ignore` and exactly
   * the 1×1 transparent delay record under `Delay`.
   */
  lemma IdenticalFrameRecord(
    frame: FrameData, delay: U16, action: IdenticalAction,
    width: U16, height: U16, xScale: U16, yScale: U16)
    requires width >= 1 && height >= 1 && IsFrame(frame, width, height)
    ensures NextRecord(Some(frame), frame, delay, action, width, height, xScale, yScale)
      == if action == Delay then Some(FrameRecord(0, 0, 1, 1, Max(2, delay), Some(0), [0])) else None
  {
    DifferenceIsChangedBox(frame, frame, width, height);
  }

  /**
   * A frame that differs from the last one writes the scaled tight box of
   * the changed cells, with its pixels taken from the new frame.
   */
  lemma ChangedFrameRecord(
    last: FrameData, frame: FrameData, delay: U16, action: IdenticalAction,
    width: U16, height: U16, xScale: U16, yScale: U16)
    requires width >= 1 && height >= 1 && IsFrame(frame, width, height) && IsFrame(last, width, height)
    requires xScale >= 1 && yScale >= 1 && last != frame
    ensures var r := NextRecord(Some(last), frame, delay, action, width, height, xScale, yScale);
      r.Some? && r.value.transparent == None && r.value.delay == ClampDelay(delay) &&
      r.value.left + r.value.width <= width * xScale && r.value.top + r.value.height <= height * yScale &&
      exists b: Bounds ::
        IsBoundingBox(b, ChangedCells(last, frame, width, height)) && ShowsBox(r.value, frame, b, xScale, yScale)
  {
    DifferenceIsChangedBox(last, frame, width, height);
    var b := Difference(Some(last), frame, width, height).value;
    ContentRecordLayout(frame, b, width, height, xScale, yScale, delay);
  }

  /** Every frame of the sequence has `height` rows of `width` cells. */
  predicate AllFrames(frames: seq<(FrameData, U16)>, width: nat, height: nat)
  {
    forall i :: 0 <= i < |frames| ==> IsFrame(frames[i].0, width, height)
  }

  lemma AllFramesPrefix(frames: seq<(FrameData, U16)>, n: nat, width: nat, height: nat)
    requires AllFrames(frames, width, height) && n <= |frames|
    ensures AllFrames(frames[..n], width, height)
  {
    assert forall i :: 0 <= i < n ==> frames[..n][i] == frames[i];
  }

  /**
   * `draw_frame` of each `(frame, delay)` in turn, every write succeeding:
   * the last frame afterwards and the records the encoder received.
   */
  function DrawAll(
    last: Option<FrameData>, frames: seq<(FrameData, U16)>,
    width: U16, height: U16, xScale: U16, yScale: U16): (r: (Option<FrameData>, seq<FrameRecord>))
    requires width >= 1 && height >= 1
    requires AllFrames(frames, width, height)
    requires last.Some? ==> IsFrame(last.value, width, height)
    ensures r.0.Some? ==> IsFrame(r.0.value, width, height)
  {
    if frames == [] then (last, [])
    else
      var prev := DrawAll(last, frames[..|frames| - 1], width, height, xScale, yScale);
      var f := frames[|frames| - 1];
      var next := DrawOne(prev.0, f.0, f.1, width, height, xScale, yScale);
      (next.0, prev.1 + next.1)
  }

  /** One successful `draw_frame`: the last frame afterwards and the records written (none or one). */
  function DrawOne(
    last: Option<FrameData>, frame: FrameData, delay: U16,
    width: U16, height: U16, xScale: U16, yScale: U16): (r: (Option<FrameData>, seq<FrameRecord>))
    requires width >= 1 && height >= 1 && IsFrame(frame, width, height)
    requires last.Some? ==> IsFrame(last.value, width, height)
    ensures r.0.Some? ==> IsFrame(r.0.value, width, height)
  {
    var rec := NextRecord(last, frame, delay, Ignore, width, height, xScale, yScale);
    (if Difference(last, frame, width, height).Some? then Some(frame) else last,
     if rec.Some? then [rec.value] else [])
  }

  /** Drawing one more frame. */
  lemma DrawAllSnoc(
    last: Option<FrameData>, s: seq<(FrameData, U16)>, f: (FrameData, U16),
    width: U16, height: U16, xScale: U16, yScale: U16)
    requires width >= 1 && height >= 1
    requires AllFrames(s, width, height) && IsFrame(f.0, width, height)
    requires last.Some? ==> IsFrame(last.value, width, height)
    ensures AllFrames(s + [f], width, height)
    ensures var p := DrawAll(last, s, width, height, xScale, yScale);
      var one := DrawOne(p.0, f.0, f.1, width, height, xScale, yScale);
      DrawAll(last, s + [f], width, height, xScale, yScale) == (one.0, p.1 + one.1)
  {
    var sf := s + [f];
    assert forall i :: 0 <= i < |sf| ==> sf[i] == if i < |s| then s[i] else f;
    assert sf[..|s|] == s;
  }

  /** Drawing the first `k + 1` frames is drawing the first `k`, then frame `k`. */
  lemma DrawPrefix(
    last: Option<FrameData>, frames: seq<(FrameData, U16)>, k: nat,
    width: U16, height: U16, xScale: U16, yScale: U16)
    requires width >= 1 && height >= 1 && k < |frames|
    requires AllFrames(frames, width, height)
    requires last.Some? ==> IsFrame(last.value, width, height)
    ensures AllFrames(frames[..k], width, height) && AllFrames(frames[..k + 1], width, height)
    ensures var p := DrawAll(last, frames[..k], width, height, xScale, yScale);
      var one := DrawOne(p.0, frames[k].0, frames[k].1, width, height, xScale, yScale);
      DrawAll(last, frames[..k + 1], width, height, xScale, yScale) == (one.0, p.1 + one.1)
  {
    assert frames[..k + 1] == frames[..k] + [frames[k]];
    AllFramesPrefix(frames, k, width, height);
    DrawAllSnoc(last, frames[..k], frames[k], width, height, xScale, yScale);
  }

  /** Drawing `a` then `b` is drawing `a + b`. */
  lemma {:induction false} DrawAllAppend(
    last: Option<FrameData>, a: seq<(FrameData, U16)>, b: seq<(FrameData, U16)>,
    width: U16, height: U16, xScale: U16, yScale: U16)
    requires width >= 1 && height >= 1
    requires AllFrames(a, width, height)
    requires AllFrames(b, width, height)
    requires last.Some? ==> IsFrame(last.value, width, height)
    ensures AllFrames(a + b, width, height)
    ensures var ra := DrawAll(last, a, width, height, xScale, yScale);
      var rb := DrawAll(ra.0, b, width, height, xScale, yScale);
      DrawAll(last, a + b, width, height, xScale, yScale) == (rb.0, ra.1 + rb.1)
  {
    if b == [] {
      assert a + b == a;
      var ra := DrawAll(last, a, width, height, xScale, yScale);
      assert ra.1 + [] == ra.1;
    } else {
      var b' := b[..|b| - 1];
      var f := b[|b| - 1];
      assert b' + [f] == b;
      assert (a + b') + [f] == a + b;
      assert AllFrames(b', width, height) by {
        assert forall i :: 0 <= i < |b'| ==> b'[i] == b[i];
      }
      DrawAllAppend(last, a, b', width, height, xScale, yScale);
      var ra := DrawAll(last, a, width, height, xScale, yScale);
      DrawAllSnoc(last, a + b', f, width, height, xScale, yScale);
      DrawAllSnoc(ra.0, b', f, width, height, xScale, yScale);
      var rb' := DrawAll(ra.0, b', width, height, xScale, yScale);
      var one := DrawOne(rb'.0, f.0, f.1, width, height, xScale, yScale);
      ConcatAssoc(ra.1, rb'.1, one.1);
    }
  }

  /**
   * When every frame differs from the one drawn before it (and the first
   * from the last frame written), every `draw_frame` writes a record, and
   * the last frame drawn becomes the last frame.
   */
  lemma {:induction false} DrawAllDistinct(
    last: Option<FrameData>, frames: seq<(FrameData, U16)>,
    width: U16, height: U16, xScale: U16, yScale: U16)
    requires width >= 1 && height >= 1
    requires AllFrames(frames, width, height)
    requires last.Some? ==> IsFrame(last.value, width, height)
    requires frames != [] && last.Some? ==> last.value != frames[0].0
    requires forall i :: 0 < i < |frames| ==> frames[i - 1].0 != frames[i].0
    ensures var r := DrawAll(last, frames, width, height, xScale, yScale);
      |r.1| == |frames| && (frames != [] ==> r.0 == Some(frames[|frames| - 1].0))
  {
    if frames != [] {
      var front := frames[..|frames| - 1];
      DrawAllDistinct(last, front, width, height, xScale, yScale);
      var prev := DrawAll(last, front, width, height, xScale, yScale);
      var f := frames[|frames| - 1];
      if prev.0.Some? {
        DifferenceIsChangedBox(prev.0.value, f.0, width, height);
      }
      assert |DrawOne(prev.0, f.0, f.1, width, height, xScale, yScale).1| == 1;
    }
  }

  /**
   * The inner loop of `frame_difference`: `max_add` of every cell where
   * row `y` of the two frames differs, left to right.
   */
  method AddRowDifferences(region: Region, l1: seq<Byte>, l2: seq<Byte>, y: U16, ghost front: seq<Point>)
    requires |l1| == |l2| <= U16_MAX && region.Value() == Accumulate(front)
    modifies region
    ensures region.Value() == Accumulate(front + RowDiffs(l1, l2, y, |l1|))
  {
    assert front + RowDiffs(l1, l2, y, 0) == front;
    ghost var pts := front;
    var x: nat := 0;
    while x < |l1|
      invariant x <= |l1|
      invariant pts == front + RowDiffs(l1, l2, y, x)
      invariant region.Value() == Accumulate(pts)
    {
      if l1[x] != l2[x] {
        AccumulateSnoc(pts, Point(x, y));
        region.MaxAdd(x, y);
        pts := pts + [Point(x, y)];
      }
      x := x + 1;
    }
  }

  /**
   * The fold of `draw_frame_identical_check` over the frame's rows: the
   * rows inside `b`, cut to its columns, each expanded `xScale` times
   * horizontally and written `yScale` times.
   */
  method ScaleRows(frameData: FrameData, b: Bounds, xScale: nat, yScale: nat) returns (buffer: seq<Byte>)
    requires InFrame(b, frameData)
    ensures buffer == Upscale(SectionRows(frameData, b, |frameData|), xScale, yScale)
  {
    buffer := [];
    var y: nat := 0;
    while y < |frameData|
      invariant y <= |frameData|
      invariant buffer == Upscale(SectionRows(frameData, b, y), xScale, yScale)
    {
      UpscaleSectionNext(frameData, b, y, xScale, yScale);
      if b.top <= y <= b.bottom {
        var line := frameData[y][b.left..b.right + 1];
        var expanded := ExpandLine(line, xScale);
        buffer := AppendCopies(buffer, expanded, yScale);
      }
      y := y + 1;
    }
  }

  /** The `for _ in 0..y_scale` loop: `k` copies of `line` appended to `buffer`. */
  method AppendCopies(buffer: seq<Byte>, line: seq<Byte>, k: nat) returns (r: seq<Byte>)
    ensures r == buffer + RepeatLine(line, k)
  {
    r := buffer;
    var i := 0;
    while i < k
      invariant i <= k
      invariant r == buffer + RepeatLine(line, i)
    {
      r := r + line;
      i := i + 1;
    }
  }

  /**
   * The outer loop of `frame_difference`: starting from the sentinel, `max_add`
   * of every changed cell, row by row.
   */
  method DiffRegion(last: FrameData, frameData: FrameData, width: U16, height: U16) returns (region: Region)
    requires IsFrame(last, width, height) && IsFrame(frameData, width, height)
    ensures fresh(region) && region.Value() == Accumulate(FrameDiffs(last, frameData, width, height))
  {
    region := new Region.MaxInit();
    var y: nat := 0;
    while y < height
      invariant y <= height
      invariant region.Value() == Accumulate(FrameDiffs(last, frameData, width, y))
    {
      AddRowDifferences(region, last[y], frameData[y], y, FrameDiffs(last, frameData, width, y));
      assert FrameDiffs(last, frameData, width, y + 1) ==
        FrameDiffs(last, frameData, width, y) + RowDiffs(last[y], frameData[y], y, width);
      y := y + 1;
    }
  }

  /** The GIF being written, with the encoder reduced to the records it accepted. */
  class Gif {
    const width: U16
    const height: U16
    const xScale: U16
    const yScale: U16
    const gifWidth: U16
    const gifHeight: U16
    /** The flattened global palette given to the encoder. */
    ghost const Palette: seq<Byte>
    var lastFrame: Option<FrameData>
    /** The frames the encoder accepted, in order. */
    ghost var Emitted: seq<FrameRecord>

    ghost predicate Valid()
      reads this
    {
      gifWidth == width * xScale && gifHeight == height * yScale &&
      (lastFrame.Some? ==> width >= 1 && height >= 1 && IsFrame(lastFrame.value, width, height))
    }

    /** The state right after `Gif::new` succeeded. */
    constructor New(palette: seq<(Byte, Byte, Byte)>, width: U16, height: U16, xScale: U16, yScale: U16)
      requires width * xScale <= U16_MAX && height * yScale <= U16_MAX
      ensures Valid() && lastFrame == None && Emitted == []
      ensures this.width == width && this.height == height
      ensures this.xScale == xScale && this.yScale == yScale
      ensures Palette == FlattenPalette(palette)
    {
      this.width := width;
      this.height := height;
      this.xScale := xScale;
      this.yScale := yScale;
      this.gifWidth := width * xScale;
      this.gifHeight := height * yScale;
      this.Palette := FlattenPalette(palette);
      this.lastFrame := None;
      this.Emitted := [];
    }

    /** The encoder's `write_frame`: it either accepts the record or fails. */
    method WriteFrame(rec: FrameRecord) returns (ok: bool)
      modifies this`Emitted
      ensures Emitted == if ok then old(Emitted) + [rec] else old(Emitted)
    {
      ok :| true;
      if ok {
        Emitted := Emitted + [rec];
      }
    }

    /** `delay`: writes the 1×1 transparent delay record. */
    method Delay(delay: U16) returns (ok: bool)
      modifies this`Emitted
      ensures Emitted == if ok then old(Emitted) + [DelayRecord(delay)] else old(Emitted)
    {
      var frame := FrameRecord(0, 0, 1, 1, Max(2, delay), Some(0), [0]);
      ok := WriteFrame(frame);
    }

    /** `dimensions`: the unscaled size, recovered from the scaled canvas. */
    function Dimensions(): (r: (U16, U16))
      reads this
      requires Valid() && xScale >= 1 && yScale >= 1
      ensures r == (width, height)
    {
      DivModOfBlock(width, 0, xScale);
      DivModOfBlock(height, 0, yScale);
      (gifWidth / xScale, gifHeight / yScale)
    }

    /** `empty_frame`: a frame of the unscaled size with every cell colour 0. */
    function EmptyFrame(): (r: FrameData)
      reads this
      requires Valid() && xScale >= 1 && yScale >= 1
      ensures IsFrame(r, width, height)
      ensures forall y, x :: 0 <= y < |r| && 0 <= x < |r[y]| ==> r[y][x] == 0
    {
      var (w, h) := Dimensions();
      seq(h, _ => seq(w, _ => 0))
    }

    /** `frame_difference`: the region to redraw, or None when nothing changed. */
    method FrameDifference(frameData: FrameData) returns (r: Option<Region>)
      requires Valid() && width >= 1 && height >= 1 && IsFrame(frameData, width, height)
      ensures r.None? <==> Difference(lastFrame, frameData, width, height).None?
      ensures r.Some? ==> fresh(r.value) && r.value.Value() == Difference(lastFrame, frameData, width, height).value
    {
      if lastFrame.None? {
        var region := new Region.New(0, 0, height - 1, width - 1);
        r := Some(region);
      } else {
        var region := DiffRegion(lastFrame.value, frameData, width, height);
        if region.MaxValid() {
          r := Some(region);
        } else {
          r := None;
        }
      }
    }

    /**
     * The upscaling fold of `draw_frame_identical_check`: the rows the
     * region contains, cut to its columns, each expanded `xScale` times
     * horizontally and written `yScale` times.
     */
    method ScaleSection(frameData: FrameData, region: Region) returns (buffer: seq<Byte>)
      requires InFrame(region.Value(), frameData)
      ensures buffer == Upscale(SectionRows(frameData, region.Value(), |frameData|), xScale, yScale)
    {
      buffer := ScaleRows(frameData, region.Value(), xScale, yScale);
    }

    /** The `Frame` built for a changed region: its scaled placement, size and pixels. */
    method ContentFrame(frameData: FrameData, region: Region, delay: U16) returns (frame: FrameRecord)
      requires Valid() && IsFrame(frameData, width, height)
      requires InFrame(region.Value(), frameData)
      ensures frame == ContentRecord(frameData, region.Value(), xScale, yScale, delay)
    {
      var buffer := ScaleSection(frameData, region);
      var top, left := region.Top(), region.Left();
      var w, h := region.Width(), region.Height();
      assert w == region.right - region.left + 1 && h == region.bottom - region.top + 1;
      MulNonneg(top, yScale);
      MulNonneg(left, xScale);
      MulNonneg(w, xScale);
      MulNonneg(h, yScale);
      frame := FrameRecord(top * yScale, left * xScale, w * xScale, h * yScale, Max(2, delay), None, buffer);
    }

    /** `draw_frame`: draw a frame, writing nothing when it equals the last one. */
    method DrawFrame(frameData: FrameData, delay: U16) returns (ok: bool)
      requires Valid() && width >= 1 && height >= 1 && IsFrame(frameData, width, height)
      modifies this`lastFrame, this`Emitted
      ensures Valid()
      ensures var rec := NextRecord(old(lastFrame), frameData, delay, Ignore, width, height, xScale, yScale);
        (rec.None? ==> ok) && Emitted == old(Emitted) + (if ok && rec.Some? then [rec.value] else [])
      ensures lastFrame == if ok && Difference(old(lastFrame), frameData, width, height).Some? then Some(frameData) else old(lastFrame)
    {
      ok := DrawFrameIdenticalCheck(frameData, delay, Ignore);
    }

    /**
     * `draw_frame_identical_check`: writes the changed region scaled up, or
     * applies `action` when nothing changed. The new frame becomes the last
     * frame only when a content record was written successfully.
     */
    method DrawFrameIdenticalCheck(frameData: FrameData, delay: U16, action: IdenticalAction) returns (ok: bool)
      requires Valid() && width >= 1 && height >= 1 && IsFrame(frameData, width, height)
      modifies this`lastFrame, this`Emitted
      ensures Valid()
      ensures var rec := NextRecord(old(lastFrame), frameData, delay, action, width, height, xScale, yScale);
        (rec.None? ==> ok) && Emitted == old(Emitted) + (if ok && rec.Some? then [rec.value] else [])
      ensures lastFrame == if ok && Difference(old(lastFrame), frameData, width, height).Some? then Some(frameData) else old(lastFrame)
    {
      var diff := FrameDifference(frameData);
      match diff
      case None =>
        if action.Delay? {
          ok := this.Delay(delay);
        } else {
          ok := true;
        }
      case Some(region) =>
        ghost var b := region.Value();
        DifferenceInFrame(lastFrame, frameData, width, height);
        var frame := ContentFrame(frameData, region, delay);
        assert NextRecord(lastFrame, frameData, delay, action, width, height, xScale, yScale) == Some(frame);
        ok := WriteFrame(frame);
        if ok {
          lastFrame := Some(frameData);
        }
    }
  }
}
