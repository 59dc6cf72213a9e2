/**
 * The animation of day 4 (day04vis/src/main.rs). Each step removes, all at
 * once, the rolls that are accessible on the board as it was before the
 * step, and draws eight frames in which the removed rolls fade from
 * colour 9 down to colour 2. Every cell is a 5×5 sprite. The neighbour
 * functions `adjacent_coords` and `adjacent_count` of this file are the
 * ones of day 4 (`Day04.Neighbours`, `Day04.AdjacentCount`).
 */
module Day04Vis {
  import opened Common
  import D4 = Day04
  import G = GifWriter

  /** The side of a cell in pixels. */
  const CellSize: nat := 5
  /** The number of frames drawn per step, one per shade. */
  const ColGrades: nat := 8
  /** The removals per hundredth of a second of frame delay. */
  const DelayScale: nat := 75

  /** The sprite of one roll: a 5×5 disc. */
  const Sprite: seq<seq<Byte>> := [
    [0, 1, 1, 1, 0],
    [1, 1, 1, 1, 1],
    [1, 1, 1, 1, 1],
    [1, 1, 1, 1, 1],
    [0, 1, 1, 1, 0]]

  // ---------------------------------------------------------------------------
  // Palette

  /** The red level of shade `i`: `0xff * (i + 1) / 8`, computed in `u16`. */
  function Shade(i: nat): (b: Byte)
    requires i < ColGrades
    ensures b == 255 * (i + 1) / 8
  {
    (255 * (i + 1)) / ColGrades
  }

  /** Black, white, then the eight shades `[b, 0, b / 2]`. */
  method BuildPalette() returns (palette: seq<(Byte, Byte, Byte)>)
    ensures |palette| == 2 + ColGrades
    ensures palette[0] == (0, 0, 0) && palette[1] == (255, 255, 255)
    ensures forall i :: 0 <= i < ColGrades ==> palette[2 + i] == (Shade(i), 0, Shade(i) / 2)
  {
    palette := [(0, 0, 0), (255, 255, 255)];
    for i := 0 to ColGrades
      invariant |palette| == 2 + i
      invariant palette[0] == (0, 0, 0) && palette[1] == (255, 255, 255)
      invariant forall j :: 0 <= j < i ==> palette[2 + j] == (Shade(j), 0, Shade(j) / 2)
    {
      var byte := (255 * (i + 1)) / ColGrades;
      palette := palette + [(byte, 0, byte / 2)];
    }
  }

  /** The shades grow strictly brighter, the last one full red. */
  lemma ShadesRise(i: nat, j: nat)
    requires i < j < ColGrades
    ensures Shade(i) < Shade(j) && Shade(ColGrades - 1) == 255 && Shade(0) == 31
  {
    assert 255 * (j + 1) >= 255 * (i + 1) + 255;
  }

  // ---------------------------------------------------------------------------
  // The simultaneous step

  /** The board after one step: every accessible roll of `b`, judged on `b` alone, removed. */
  function SimStep(b: D4.Board): (r: D4.Board)
    requires D4.IsGrid(b)
  {
    seq(|b|, y requires 0 <= y < |b| =>
      seq(|b[y]|, x requires 0 <= x < |b[y]| => if D4.Accessible(b, x, y) then D4.Empty else b[y][x]))
  }

  /** The step keeps the shape and only turns rolls into empty cells. */
  lemma SimStepSub(b: D4.Board)
    requires D4.IsGrid(b)
    ensures D4.IsGrid(SimStep(b)) && D4.Sub(SimStep(b), b)
  {
  }

  lemma {:induction false} SimRowCount(b: D4.Board, y: nat, n: nat)
    requires D4.IsGrid(b) && y < |b| && n <= D4.Width(b)
    ensures D4.RowPaper(SimStep(b)[y], n) + D4.CountRow(b, y, n) == D4.RowPaper(b[y], n)
  {
    if n > 0 {
      SimRowCount(b, y, n - 1);
    }
  }

  lemma {:induction false} SimRowsCount(b: D4.Board, m: nat)
    requires D4.IsGrid(b) && m <= |b|
    ensures D4.PaperRows(SimStep(b), m) + D4.CountRows(b, m) == D4.PaperRows(b, m)
  {
    if m > 0 {
      SimRowsCount(b, m - 1);
      SimRowCount(b, m - 1, D4.Width(b));
    }
  }

  /** A step removes exactly the rolls day 4's `part1` counts. */
  lemma SimStepCount(b: D4.Board)
    requires D4.IsGrid(b)
    ensures D4.PaperCount(SimStep(b)) + D4.Part1(b) == D4.PaperCount(b)
  {
    SimRowsCount(b, |b|);
  }

  /** A step removes nothing exactly when no roll is accessible, and then leaves the board as it is. */
  lemma SimStepFixpoint(b: D4.Board)
    requires D4.IsGrid(b)
    ensures SimStep(b) == b <==> D4.Stable(b)
  {
    D4.Part1Bounds(b);
    SimStepCount(b);
    if D4.Stable(b) {
      assert forall y :: 0 <= y < |b| ==> SimStep(b)[y] == b[y];
    }
  }

  /** The board the animation ends with: steps until one removes nothing. */
  function SimErode(b: D4.Board): (r: D4.Board)
    requires D4.IsGrid(b)
    ensures D4.IsGrid(r) && D4.SameShape(r, b)
    decreases D4.PaperCount(b)
  {
    SimStepCount(b);
    SimStepSub(b);
    D4.Part1Bounds(b);
    if D4.Part1(b) == 0 then b else SimErode(SimStep(b))
  }

  /**
   * The board the animation ends with only lost rolls, has no accessible
   * roll left, and is the board day 4's in-place sweeps end with too.
   */
  lemma {:induction false} SimErodeStable(b: D4.Board)
    requires D4.IsGrid(b)
    ensures D4.Sub(SimErode(b), b) && D4.Stable(SimErode(b))
    decreases D4.PaperCount(b)
  {
    SimStepCount(b);
    SimStepSub(b);
    D4.Part1Bounds(b);
    if D4.Part1(b) != 0 {
      SimErodeStable(SimStep(b));
    }
  }

  /** One more step of the animation: its eight frames come first, and the end board is the same. */
  lemma MovieStep(b: D4.Board)
    requires D4.IsGrid(b) && D4.Part1(b) > 0
    ensures D4.IsGrid(SimStep(b)) && D4.Sub(SimStep(b), b)
    ensures Movie(b) == StepFrames(b, SimStep(b), Min(D4.Part1(b), U16_MAX) / DelayScale) + Movie(SimStep(b)) &&
      SimErode(b) == SimErode(SimStep(b))
  {
    SimStepCount(b);
    SimStepSub(b);
  }

  /**
   * One step of the loop of `part2`: `next_board` starts as a copy of the
   * board and each accessible roll of the unchanged board is cleared in it.
   */
  method Step(board: D4.Board) returns (next: D4.Board, removed: nat)
    requires D4.IsGrid(board)
    ensures next == SimStep(board)
    ensures removed == D4.Part1(board)
  {
    var w := |board[0]|;
    var h := |board|;
    next := board;
    removed := 0;
    for y := 0 to h
      invariant D4.SameShape(next, board)
      invariant forall y', x' :: 0 <= y' < h && 0 <= x' < w ==>
        next[y'][x'] == if y' < y && D4.Accessible(board, x', y') then D4.Empty else board[y'][x']
      invariant removed == D4.CountRows(board, y)
    {
      for x := 0 to w
        invariant D4.SameShape(next, board)
        invariant forall y', x' :: 0 <= y' < h && 0 <= x' < w ==>
          next[y'][x'] == if (y' < y || (y' == y && x' < x)) && D4.Accessible(board, x', y') then D4.Empty else board[y'][x']
        invariant removed == D4.CountRows(board, y) + D4.CountRow(board, y, x)
      {
        var a := D4.AdjacentCount(board, x, y);
        if board[y][x] == D4.Paper && a < 4 {
          next := next[y := next[y][x := D4.Empty]];
          removed := removed + 1;
        }
      }
    }
    assert forall y :: 0 <= y < h ==> next[y] == SimStep(board)[y];
  }

  // ---------------------------------------------------------------------------
  // Frames

  /**
   * The colour of a cell in the frame of shade `col`: a roll that stays is
   * 1, a roll being removed is `col + 2`, an empty cell is not painted. An
   * empty cell cannot become a roll (`unreachable!()`).
   */
  function CellColour(o: D4.State, n: D4.State, col: nat): (r: Option<Byte>)
    requires col < ColGrades && (o == D4.Paper || n == D4.Empty)
    ensures r.None? <==> o == D4.Empty
    ensures r == Some(1) <==> n == D4.Paper
    ensures r.Some? ==> 1 <= r.value < 2 + ColGrades
  {
    match (o, n)
    case (Empty, Empty) => None
    case (Paper, Empty) => Some(col + 2)
    case (Paper, Paper) => Some(1)
  }

  /** The boards of one step: same grid, and the new one only lost rolls. */
  predicate StepBoards(oldB: D4.Board, newB: D4.Board)
  {
    D4.IsGrid(oldB) && D4.Sub(newB, oldB)
  }

  /** The pixel `(px, py)` of the frame of shade `col`. */
  function PixelColour(oldB: D4.Board, newB: D4.Board, col: nat, px: nat, py: nat): Byte
    requires StepBoards(oldB, newB) && col < ColGrades
  {
    var x := px / CellSize;
    var y := py / CellSize;
    if y < |newB| && x < |newB[y]| && Sprite[py % CellSize][px % CellSize] == 1 then
      match CellColour(oldB[y][x], newB[y][x], col)
      case None => 0
      case Some(c) => c
    else 0
  }

  /** The frame `draw_board` draws for shade `col`, `5 * h` rows of `5 * w` pixels. */
  function BoardFrame(oldB: D4.Board, newB: D4.Board, col: nat): (f: G.FrameData)
    requires StepBoards(oldB, newB) && col < ColGrades
    ensures G.IsFrame(f, CellSize * D4.Width(oldB), CellSize * |oldB|)
  {
    seq(CellSize * |oldB|, py requires 0 <= py =>
      seq(CellSize * D4.Width(oldB), px requires 0 <= px => PixelColour(oldB, newB, col, px, py)))
  }

  /**
   * Every pixel of a frame is a palette index below 10; a non-zero pixel
   * lies where the sprite is 1, in the block of a cell that held a roll.
   */
  lemma FramePixels(oldB: D4.Board, newB: D4.Board, col: nat, px: nat, py: nat)
    requires StepBoards(oldB, newB) && col < ColGrades
    requires py < CellSize * |oldB| && px < CellSize * D4.Width(oldB)
    ensures var c := BoardFrame(oldB, newB, col)[py][px];
      c < 2 + ColGrades &&
      (c != 0 ==> Sprite[py % CellSize][px % CellSize] == 1 && oldB[py / CellSize][px / CellSize] == D4.Paper)
  {
  }

  /** The pixel `(px, py)` lies in the block of cell `(x, y)`. */
  predicate InBlock(x: nat, y: nat, px: nat, py: nat)
  {
    CellSize * x <= px < CellSize * x + CellSize && CellSize * y <= py < CellSize * y + CellSize
  }

  lemma BlockOf(x: nat, y: nat, px: nat, py: nat)
    requires InBlock(x, y, px, py)
    ensures px / CellSize == x && py / CellSize == y
    ensures px % CellSize == px - CellSize * x && py % CellSize == py - CellSize * y
  {
    DivModOfBlock(x, px - CellSize * x, CellSize);
    DivModOfBlock(y, py - CellSize * y, CellSize);
  }

  /** A frame of `rows` rows of `cols` pixels. */
  predicate IsCanvas(f: G.FrameData, cols: nat, rows: nat)
  {
    |f| == rows && forall r :: 0 <= r < rows ==> |f[r]| == cols
  }

  /** The sprite loops of `draw_board` for one cell: paints `colour` where the sprite is 1 in the cell's block. */
  method PaintCell(frame: G.FrameData, ghost cols: nat, ghost rows: nat, x: nat, y: nat, colour: Byte)
    returns (out: G.FrameData)
    requires IsCanvas(frame, cols, rows) && CellSize * x + CellSize <= cols && CellSize * y + CellSize <= rows
    ensures IsCanvas(out, cols, rows)
    ensures forall py, px :: 0 <= py < rows && 0 <= px < cols ==>
      out[py][px] == if InBlock(x, y, px, py) && Sprite[py - CellSize * y][px - CellSize * x] == 1 then colour else frame[py][px]
  {
    var gx := x * CellSize;
    var gy := y * CellSize;
    out := frame;
    for oy := 0 to CellSize
      invariant IsCanvas(out, cols, rows)
      invariant forall py, px :: 0 <= py < rows && 0 <= px < cols ==>
        out[py][px] == if InBlock(x, y, px, py) && py - gy < oy && Sprite[py - gy][px - gx] == 1 then colour else frame[py][px]
    {
      for ox := 0 to CellSize
        invariant IsCanvas(out, cols, rows)
        invariant forall py, px :: 0 <= py < rows && 0 <= px < cols ==>
          out[py][px] == if InBlock(x, y, px, py) && (py - gy < oy || (py - gy == oy && px - gx < ox)) && Sprite[py - gy][px - gx] == 1
            then colour else frame[py][px]
      {
        if Sprite[oy][ox] == 1 {
          var line: seq<Byte> := out[gy + oy][gx + ox := colour];
          out := out[gy + oy := line];
        }
      }
    }
  }

  /** The cell `(cx, cy)` comes before `(x, y)` in row-major order. */
  predicate Before(cx: nat, cy: nat, x: nat, y: nat)
  {
    cy < y || (cy == y && cx < x)
  }

  /** The cell loops of `draw_board` for shade `col`, painting over the empty frame. */
  method PaintBoard(oldB: D4.Board, newB: D4.Board, col: nat, frame: G.FrameData) returns (out: G.FrameData)
    requires StepBoards(oldB, newB) && col < ColGrades
    requires IsCanvas(frame, CellSize * D4.Width(oldB), CellSize * |oldB|)
    requires forall py, px :: 0 <= py < |frame| && 0 <= px < |frame[py]| ==> frame[py][px] == 0
    ensures out == BoardFrame(oldB, newB, col)
  {
    ghost var cols := CellSize * D4.Width(oldB);
    ghost var rows := CellSize * |oldB|;
    out := frame;
    for y := 0 to |newB|
      invariant IsCanvas(out, cols, rows)
      invariant forall py, px :: 0 <= py < rows && 0 <= px < cols ==>
        out[py][px] == if py / CellSize < y then PixelColour(oldB, newB, col, px, py) else 0
    {
      for x := 0 to |newB[y]|
        invariant IsCanvas(out, cols, rows)
        invariant forall py, px :: 0 <= py < rows && 0 <= px < cols ==>
          out[py][px] == if Before(px / CellSize, py / CellSize, x, y) then PixelColour(oldB, newB, col, px, py) else 0
      {
        var useCol: Byte;
        match (oldB[y][x], newB[y][x]) {
          case (Empty, Empty) =>
            PaintedCell(oldB, newB, col, out, out, x, y);
            continue;
          case (Paper, Empty) => useCol := col + 2;
          case (Paper, Paper) => useCol := 1;
        }
        ghost var before := out;
        out := PaintCell(out, cols, rows, x, y, useCol);
        PaintedCell(oldB, newB, col, before, out, x, y);
      }
      assert forall py, px :: 0 <= py < rows && 0 <= px < cols ==>
        (Before(px / CellSize, py / CellSize, |newB[y]|, y) <==> py / CellSize < y + 1) by {
        forall py, px | 0 <= py < rows && 0 <= px < cols
          ensures Before(px / CellSize, py / CellSize, |newB[y]|, y) <==> py / CellSize < y + 1
        {
          DivBelow(px, CellSize, D4.Width(oldB));
        }
      }
    }
    assert forall py :: 0 <= py < rows ==> py / CellSize < |newB| by {
      forall py | 0 <= py < rows ensures py / CellSize < |newB| {
        DivBelow(py, CellSize, |oldB|);
      }
    }
    assert forall py :: 0 <= py < rows ==> out[py] == BoardFrame(oldB, newB, col)[py];
  }

  /** Painting cell `(x, y)` (or skipping an empty one) extends the painted part by that cell. */
  lemma PaintedCell(oldB: D4.Board, newB: D4.Board, col: nat, before: G.FrameData, after: G.FrameData, x: nat, y: nat)
    requires StepBoards(oldB, newB) && col < ColGrades && y < |oldB| && x < D4.Width(oldB)
    requires IsCanvas(before, CellSize * D4.Width(oldB), CellSize * |oldB|)
    requires IsCanvas(after, CellSize * D4.Width(oldB), CellSize * |oldB|)
    requires forall py, px :: 0 <= py < |before| && 0 <= px < |before[py]| ==>
      before[py][px] == if Before(px / CellSize, py / CellSize, x, y) then PixelColour(oldB, newB, col, px, py) else 0
    requires forall py, px :: 0 <= py < |before| && 0 <= px < |before[py]| ==>
      after[py][px] == match CellColour(oldB[y][x], newB[y][x], col)
        case None => before[py][px]
        case Some(c) => if InBlock(x, y, px, py) && Sprite[py - CellSize * y][px - CellSize * x] == 1 then c else before[py][px]
    ensures forall py, px :: 0 <= py < |after| && 0 <= px < |after[py]| ==>
      after[py][px] == if Before(px / CellSize, py / CellSize, x + 1, y) then PixelColour(oldB, newB, col, px, py) else 0
  {
    forall py, px | 0 <= py < |after| && 0 <= px < |after[py]|
      ensures after[py][px] == if Before(px / CellSize, py / CellSize, x + 1, y) then PixelColour(oldB, newB, col, px, py) else 0
    {
      if InBlock(x, y, px, py) {
        BlockOf(x, y, px, py);
      } else {
        assert !(px / CellSize == x && py / CellSize == y);
      }
    }
  }

  // ---------------------------------------------------------------------------
  // Drawing the animation

  /** The eight frames of a step, shade 7 first, each with the step's delay. */
  function StepFrames(oldB: D4.Board, newB: D4.Board, delay: U16): (fs: seq<(G.FrameData, U16)>)
    requires StepBoards(oldB, newB)
    ensures |fs| == ColGrades
    ensures G.AllFrames(fs, CellSize * D4.Width(oldB), CellSize * |oldB|)
  {
    seq(ColGrades, k requires 0 <= k < ColGrades => (BoardFrame(oldB, newB, ColGrades - 1 - k), delay))
  }

  /** The GIF drawing the animation of a board of `w` by `h` cells, unscaled. */
  ghost predicate CanvasFor(gif: G.Gif, w: nat, h: nat)
    reads gif
  {
    gif.Valid() && gif.xScale == 1 && gif.yScale == 1 &&
    gif.width == CellSize * w && gif.height == CellSize * h && w >= 1 && h >= 1
  }

  /**
   * `draw_board`: for `col` from 7 down to 0, paints the frame of that
   * shade over an empty frame and draws it, stopping at the first failure.
   * When all succeed, the encoder received what drawing the eight frames
   * in turn gives.
   */
  method DrawBoard(gif: G.Gif, oldB: D4.Board, newB: D4.Board, delay: U16) returns (ok: bool)
    requires StepBoards(oldB, newB) && CanvasFor(gif, D4.Width(oldB), |oldB|)
    modifies gif`lastFrame, gif`Emitted
    ensures CanvasFor(gif, D4.Width(oldB), |oldB|)
    ensures ok ==>
      var r := G.DrawAll(old(gif.lastFrame), StepFrames(oldB, newB, delay), gif.width, gif.height, 1, 1);
      gif.lastFrame == r.0 && gif.Emitted == old(gif.Emitted) + r.1
  {
    ghost var frames := StepFrames(oldB, newB, delay);
    ghost var last0 := gif.lastFrame;
    ghost var emitted0 := gif.Emitted;
    assert frames[..0] == [];
    assert emitted0 + [] == emitted0;
    for col := ColGrades downto 0
      invariant CanvasFor(gif, D4.Width(oldB), |oldB|)
      invariant |frames| == ColGrades && G.AllFrames(frames, gif.width, gif.height)
      invariant G.AllFrames(frames[..ColGrades - col], gif.width, gif.height)
      invariant var r := G.DrawAll(last0, frames[..ColGrades - col], gif.width, gif.height, 1, 1);
        gif.lastFrame == r.0 && gif.Emitted == emitted0 + r.1
    {
      ghost var k := ColGrades - 1 - col;
      ghost var prev := G.DrawAll(last0, frames[..k], gif.width, gif.height, 1, 1);
      G.DrawPrefix(last0, frames, k, gif.width, gif.height, 1, 1);
      StepFrameAt(oldB, newB, delay, k);
      ok := DrawShade(gif, oldB, newB, col, delay);
      if !ok {
        return;
      }
      ConcatAssoc(emitted0, prev.1, G.DrawOne(prev.0, frames[k].0, delay, gif.width, gif.height, 1, 1).1);
    }
    assert frames[..ColGrades] == frames;
    ok := true;
  }

  /** Frame `k` of a step is the shade `ColGrades - 1 - k`. */
  lemma StepFrameAt(oldB: D4.Board, newB: D4.Board, delay: U16, k: nat)
    requires StepBoards(oldB, newB) && k < ColGrades
    ensures StepFrames(oldB, newB, delay)[k] == (BoardFrame(oldB, newB, ColGrades - 1 - k), delay)
  {
  }

  /** One pass of `draw_board`'s loop: the frame of shade `col`, painted and drawn. */
  method DrawShade(gif: G.Gif, oldB: D4.Board, newB: D4.Board, col: nat, delay: U16) returns (ok: bool)
    requires StepBoards(oldB, newB) && CanvasFor(gif, D4.Width(oldB), |oldB|) && col < ColGrades
    modifies gif`lastFrame, gif`Emitted
    ensures CanvasFor(gif, D4.Width(oldB), |oldB|)
    ensures G.IsFrame(BoardFrame(oldB, newB, col), gif.width, gif.height)
    ensures ok ==>
      var one := G.DrawOne(old(gif.lastFrame), BoardFrame(oldB, newB, col), delay, gif.width, gif.height, 1, 1);
      gif.lastFrame == one.0 && gif.Emitted == old(gif.Emitted) + one.1
  {
    var frameData := gif.EmptyFrame();
    frameData := PaintBoard(oldB, newB, col, frameData);
    ok := gif.DrawFrame(frameData, delay);
  }

  /** The frames of the whole animation, step after step until a step removes nothing. */
  function Movie(b: D4.Board): (fs: seq<(G.FrameData, U16)>)
    requires D4.IsGrid(b)
    ensures G.AllFrames(fs, CellSize * D4.Width(b), CellSize * |b|)
    decreases D4.PaperCount(b)
  {
    SimStepCount(b);
    SimStepSub(b);
    if D4.Part1(b) == 0 then []
    else
      var next := SimStep(b);
      var step := StepFrames(b, next, Min(D4.Part1(b), U16_MAX) / DelayScale);
      var rest := Movie(next);
      assert forall i :: 0 <= i < |step + rest| ==> (step + rest)[i] == if i < |step| then step[i] else rest[i - |step|];
      step + rest
  }

  /** The number of steps that remove something. */
  function Steps(b: D4.Board): nat
    requires D4.IsGrid(b)
    decreases D4.PaperCount(b)
  {
    SimStepCount(b);
    SimStepSub(b);
    if D4.Part1(b) == 0 then 0 else 1 + Steps(SimStep(b))
  }

  /** The centre pixel of a cell's block shows the cell's colour, or 0 when it is not painted. */
  lemma CentrePixel(oldB: D4.Board, newB: D4.Board, col: nat, x: nat, y: nat)
    requires StepBoards(oldB, newB) && col < ColGrades && y < |oldB| && x < D4.Width(oldB)
    ensures CellSize * y + 2 < CellSize * |oldB| && CellSize * x + 2 < CellSize * D4.Width(oldB)
    ensures BoardFrame(oldB, newB, col)[CellSize * y + 2][CellSize * x + 2] ==
      match CellColour(oldB[y][x], newB[y][x], col) case None => 0 case Some(c) => c
  {
    BlockOf(x, y, CellSize * x + 2, CellSize * y + 2);
  }

  /** Some roll is accessible whenever `part1` counts one. */
  lemma SomeAccessible(b: D4.Board) returns (x: nat, y: nat)
    requires D4.IsGrid(b) && D4.Part1(b) > 0
    ensures y < |b| && x < D4.Width(b) && D4.Accessible(b, x, y)
  {
    D4.Part1Bounds(b);
    x, y :| 0 <= y < |b| && 0 <= x < D4.Width(b) && D4.Accessible(b, x, y);
  }

  /** Consecutive frames of the sequence differ. */
  predicate Changing(fs: seq<(G.FrameData, U16)>)
  {
    forall i :: 0 < i < |fs| ==> fs[i - 1].0 != fs[i].0
  }

  lemma ChangingConcat(a: seq<(G.FrameData, U16)>, c: seq<(G.FrameData, U16)>)
    requires Changing(a) && Changing(c) && (a != [] && c != [] ==> a[|a| - 1].0 != c[0].0)
    ensures Changing(a + c)
  {
    var all := a + c;
    forall i | 0 < i < |all| ensures all[i - 1].0 != all[i].0 {
      if i < |a| {
        assert all[i - 1] == a[i - 1] && all[i] == a[i];
      } else if i == |a| {
        assert all[i - 1] == a[|a| - 1] && all[i] == c[0];
      } else {
        assert all[i - 1] == c[i - 1 - |a|] && all[i] == c[i - |a|];
      }
    }
  }

  /** Within a step that removes the roll at `(x, y)`, each shade's frame differs from the one before. */
  lemma StepFramesChange(oldB: D4.Board, newB: D4.Board, delay: U16, x: nat, y: nat)
    requires StepBoards(oldB, newB) && y < |oldB| && x < D4.Width(oldB)
    requires oldB[y][x] == D4.Paper && newB[y][x] == D4.Empty
    ensures Changing(StepFrames(oldB, newB, delay))
  {
    var step := StepFrames(oldB, newB, delay);
    forall k | 0 < k < ColGrades ensures step[k - 1].0 != step[k].0 {
      CentrePixel(oldB, newB, ColGrades - k, x, y);
      CentrePixel(oldB, newB, ColGrades - 1 - k, x, y);
    }
  }

  /**
   * The last frame of a step that removed the roll at `(x, y)` shows it in
   * shade 2; the first frame of the next step leaves it unpainted.
   */
  lemma StepBoundaryChanges(b0: D4.Board, b1: D4.Board, b2: D4.Board, d1: U16, d2: U16, x: nat, y: nat)
    requires StepBoards(b0, b1) && StepBoards(b1, b2) && y < |b0| && x < D4.Width(b0)
    requires b0[y][x] == D4.Paper && b1[y][x] == D4.Empty
    ensures StepFrames(b0, b1, d1)[ColGrades - 1].0 != StepFrames(b1, b2, d2)[0].0
  {
    CentrePixel(b0, b1, 0, x, y);
    CentrePixel(b1, b2, ColGrades - 1, x, y);
  }

  /**
   * The frames of the animation are `8` per step, and each differs from the
   * one before it: within a step a removed roll changes shade, and the
   * first frame of a step no longer shows the rolls the step before removed.
   */
  lemma {:induction false} MovieFramesDiffer(b: D4.Board)
    requires D4.IsGrid(b)
    ensures |Movie(b)| == ColGrades * Steps(b)
    ensures Changing(Movie(b))
    decreases D4.PaperCount(b)
  {
    SimStepCount(b);
    SimStepSub(b);
    if D4.Part1(b) > 0 {
      var next := SimStep(b);
      var step := StepFrames(b, next, Min(D4.Part1(b), U16_MAX) / DelayScale);
      var rest := Movie(next);
      MovieFramesDiffer(next);
      MovieStep(b);
      var x, y := SomeAccessible(b);
      StepFramesChange(b, next, Min(D4.Part1(b), U16_MAX) / DelayScale, x, y);
      if rest != [] {
        MovieStep(next);
        StepBoundaryChanges(b, next, SimStep(next), Min(D4.Part1(b), U16_MAX) / DelayScale,
          Min(D4.Part1(next), U16_MAX) / DelayScale, x, y);
      }
      ChangingConcat(step, rest);
    }
  }

  /**
   * Every `draw_frame` of the animation writes a record: the encoder
   * receives exactly 8 frames per step.
   */
  lemma EveryFrameWritten(b: D4.Board, width: U16, height: U16)
    requires D4.IsGrid(b) && width == CellSize * D4.Width(b) && height == CellSize * |b| && width >= 1
    ensures |G.DrawAll(None, Movie(b), width, height, 1, 1).1| == ColGrades * Steps(b)
  {
    MovieFramesDiffer(b);
    G.DrawAllDistinct(None, Movie(b), width, height, 1, 1);
  }

  /**
   * The loop of `part2`: a simultaneous step, stopping when it removes
   * nothing, else drawing it and moving on to the new board. A step
   * removing more than 65535 rolls overflows the `u16` counter and panics,
   * shown as failure.
   */
  method Animate(gif: G.Gif, input: D4.Board) returns (ok: bool, ghost final: D4.Board)
    requires D4.IsGrid(input) && CanvasFor(gif, D4.Width(input), |input|)
    requires gif.lastFrame == None && gif.Emitted == []
    modifies gif`lastFrame, gif`Emitted
    ensures CanvasFor(gif, D4.Width(input), |input|)
    ensures ok ==> final == SimErode(input)
    ensures ok ==> var r := G.DrawAll(None, Movie(input), gif.width, gif.height, 1, 1);
      gif.lastFrame == r.0 && gif.Emitted == r.1
  {
    var board := input;
    ghost var shown: seq<(G.FrameData, U16)> := [];
    final := board;
    ok := true;
    assert shown + Movie(board) == Movie(board);
    while true
      invariant D4.IsGrid(board) && D4.SameShape(board, input)
      invariant SimErode(board) == SimErode(input)
      invariant shown + Movie(board) == Movie(input)
      invariant G.AllFrames(shown, gif.width, gif.height)
      invariant var r := G.DrawAll(None, shown, gif.width, gif.height, 1, 1);
        gif.lastFrame == r.0 && gif.Emitted == r.1
      decreases D4.PaperCount(board)
    {
      var next, thisRemoved := Step(board);
      SimStepCount(board);
      SimStepSub(board);
      if thisRemoved == 0 {
        break;
      }
      if thisRemoved > U16_MAX {
        ok := false;
        return;
      }
      var delay := thisRemoved / DelayScale;
      ok := DrawBoard(gif, board, next, delay);
      if !ok {
        return;
      }
      ghost var step := StepFrames(board, next, delay);
      G.DrawAllAppend(None, shown, step, gif.width, gif.height, 1, 1);
      MovieStep(board);
      ConcatAssoc(shown, step, Movie(next));
      shown := shown + step;
      board := next;
    }
    assert shown + [] == shown;
    final := board;
  }

  /**
   * `part2` of the animation: the palette, a GIF of 5 pixels per cell,
   * the steps, then a final delay of one second. When nothing fails, the
   * encoder received the frames of the whole animation and the delay
   * record, and the board reached has no accessible roll left.
   */
  method Part2(input: D4.Board) returns (ok: bool, gif: G.Gif, ghost final: D4.Board)
    requires D4.IsGrid(input) && D4.Width(input) >= 1
    requires CellSize * D4.Width(input) <= U16_MAX && CellSize * |input| <= U16_MAX
    ensures CanvasFor(gif, D4.Width(input), |input|)
    ensures ok ==> final == SimErode(input)
    ensures ok ==>
      gif.Emitted == G.DrawAll(None, Movie(input), gif.width, gif.height, 1, 1).1 + [G.DelayRecord(100)]
  {
    var w := |input[0]|;
    var h := |input|;
    var palette := BuildPalette();
    gif := new G.Gif.New(palette, w * CellSize, h * CellSize, 1, 1);
    ok, final := Animate(gif, input);
    if ok {
      ok := gif.Delay(100);
    }
  }
}
