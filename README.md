# aoc2025 in Dafny

A model of the Advent of Code 2025 solutions in the `aoc2025` repository, with proofs about it. It has three parts:

- **The delta-frame GIF writer** of `aoc/src/gif`. `GifRegion.Region` is the inclusive `u16` rectangle; its `max_init`/`max_add` pair accumulates a bounding box. `GifWriter.Gif` compares each drawn frame with the last one written and hands the encoder only the upscaled bounding box of the cells that changed. It writes a 1×1 transparent delay frame when nothing changed. The `gif` crate's encoder is a foreign sink, modelled as the ghost sequence `Emitted` of the frame records it accepted; any write may fail.
- **`Input::lines`** (`InputLines`). It splits the content at `\n`, strips one trailing `\r` from each piece and drops empty pieces.
- **The puzzle solvers of days 1 to 12** (`Day01` … `Day12`), with the animated variant of day 4 (`Day04Vis`) and the integer variant of day 9 (`Day09Vis`). Each day's `input_transform` is a function returning `None` where the Rust code panics (an `unwrap` of a failed parse, an unknown character, an index past the end). The loops of the source become methods proved against specification functions. Where the source's own code is wrong (see "## Findings"), the solver follows the code as written (`Day03.Part2` picks with the window fold as written, `Day09Vis.Part2` searches with the rectangle test as written), and a corrected member stands beside it (`Day03.PickAllFixed`, `Day09Vis.Part2Fixed`). The shared string functions of Rust's `str` are modelled once, in `Common`.

Integers are unbounded. A `u8`, `u16` or `u64` bound matters in three cases: where the source would overflow and panic (in a debug build), where it parses into that type, or where it shifts bits. There the bound is written out, as a `None` result or as a precondition.

## Model

| member | source | states |
|---|---|---|
| GifRegion.AddPoint | aoc/src/gif/region.rs:66-71 | the bounds after one `max_add` contain the added point and are no smaller on any side than before |
| GifRegion.AccumulateSnoc | aoc/src/gif/region.rs:66-71 | one more `max_add` call is one more step of the accumulated fold |
| GifRegion.AccumulateIsBoundingBox | aoc/src/gif/region.rs:56-71 | after `max_init` and `max_add` of a non-empty list of points, every point lies inside the region and each of the four bounds is attained by some point |
| GifRegion.BoundingBoxUnique | aoc/src/gif/region.rs:56-71 | a point set has only one such bounding box |
| GifRegion.AccumulateDependsOnSetOnly | aoc/src/gif/region.rs:56-71 | the order and repetition of the `max_add` calls make no difference: two point lists with the same members give the same region |
| GifRegion.AccumulateValidIff | aoc/src/gif/region.rs:56-76 | `max_valid` holds after the adds exactly when some added point has `y < u16::MAX`, so it is false when nothing was added |
| GifRegion.Region.New | aoc/src/gif/region.rs:16-23 | the new region holds exactly the given bounds |
| GifRegion.Region.MaxInit | aoc/src/gif/region.rs:56-63 | the accumulator starts at top and left `u16::MAX`, bottom and right 0, and is not valid |
| GifRegion.Region.Width | aoc/src/gif/region.rs:36-38 | the width is at least 1 and is the number of columns `x_range` yields |
| GifRegion.Region.Height | aoc/src/gif/region.rs:41-43 | the height is at least 1 and is the number of rows `contains_y` accepts |
| GifRegion.Region.XRange | aoc/src/gif/region.rs:51-53 | the range holds exactly the columns `left..=right`, in increasing order |
| GifRegion.Region.MaxAdd | aoc/src/gif/region.rs:66-71 | the new bounds are the old ones widened by the point, and nothing else changes |
| GifWriter.FlattenPaletteLayout | aoc/src/gif/mod.rs:34 | the flattened palette has three bytes per colour, and colour `i` occupies bytes `3i`, `3i+1` and `3i+2` in R, G, B order |
| GifWriter.ClampDelay | aoc/src/gif/mod.rs:118 | the encoded delay is the given one, raised to 2 when it is smaller |
| GifWriter.RowDiffsMembers | aoc/src/gif/mod.rs:178-185 | the cells visited on one row are exactly those left of `n` where the two rows differ |
| GifWriter.FrameDiffsMembers | aoc/src/gif/mod.rs:176-186 | the cells visited over the first `n` rows are exactly those where the two frames differ |
| GifWriter.DifferenceIsChangedBox | aoc/src/gif/mod.rs:171-192 | with a previous frame, the answer is None exactly when the two frames are equal; otherwise it is the tight bounding box of the changed cells, inside the frame |
| GifWriter.Repeat | aoc/src/gif/mod.rs:100 | `vec![pix; x_scale]` holds `n` copies of the value |
| GifWriter.DifferenceInFrame | aoc/src/gif/mod.rs:171-197 | any region `frame_difference` returns lies inside the frame, with first frame covering `0..height` by `0..width` |
| GifWriter.ExpandLineLength | aoc/src/gif/mod.rs:98-101 | an expanded row is `x_scale` times as long as the row |
| GifWriter.ExpandLineAt | aoc/src/gif/mod.rs:98-101 | output pixel `c` of an expanded row is source pixel `c / x_scale` |
| GifWriter.RepeatLineLength | aoc/src/gif/mod.rs:103-105 | writing a line `k` times writes `k` times its length |
| GifWriter.RepeatLineAt | aoc/src/gif/mod.rs:103-105 | position `j` of the repeated line is pixel `j % len` of the line |
| GifWriter.UpscaleLength | aoc/src/gif/mod.rs:95-109 | the upscaled buffer of `n` rows of `w` pixels holds `(n * y_scale) * (w * x_scale)` pixels |
| GifWriter.UpscaleAt | aoc/src/gif/mod.rs:95-109 | output pixel `p`, read row-major, is source pixel `((p % wx) / x_scale, (p / wx) / y_scale)` |
| GifWriter.UpscaleLastAt | aoc/src/gif/mod.rs:97-107 | inside the block written for the last row, position `j` is pixel `(j % wx) / x_scale` of that row, and in the whole output it falls in that row's band |
| GifWriter.UpscaleSnoc | aoc/src/gif/mod.rs:95-109 | folding one more row appends that row's expanded, repeated block |
| GifWriter.UpscaleSectionNext | aoc/src/gif/mod.rs:85-109 | visiting row `y` appends its scaled slice when `contains_y(y)` holds and appends nothing otherwise |
| GifWriter.SectionRowsLayout | aoc/src/gif/mod.rs:85-94 | the `filter_map` keeps exactly the rows `top..=bottom`, each cut to the columns `left..=right` |
| GifWriter.SectionPixel | aoc/src/gif/mod.rs:85-109 | output pixel `p` of the scaled section is the frame cell `(left + (p % wx) / x_scale, top + (p / wx) / y_scale)` |
| GifWriter.ContentRecordPixels | aoc/src/gif/mod.rs:85-120 | every pixel of the written frame comes from the matching cell of the changed box of the new frame |
| GifWriter.ContentRecordSize | aoc/src/gif/mod.rs:85-120 | the frame's buffer holds exactly `width * height` pixels, with height the kept rows times `y_scale` |
| GifWriter.ContentRecordFits | aoc/src/gif/mod.rs:112-120 | the scaled frame lies inside the `gif_width` by `gif_height` canvas |
| GifWriter.ContentRecordLayout | aoc/src/gif/mod.rs:83-120 | the written frame sits at the scaled corner with the scaled size, shows the box pixel for pixel, fits the canvas, is not transparent and has the clamped delay |
| GifWriter.FirstFrameCoversCanvas | aoc/src/gif/mod.rs:193-196 | with no previous frame, the whole frame is written at the origin, covering the whole canvas |
| GifWriter.IdenticalFrameRecord | aoc/src/gif/mod.rs:76-82 | a frame equal to the last one writes nothing under `Ignore` and exactly the 1×1 transparent delay frame under `Delay` |
| GifWriter.ChangedFrameRecord | aoc/src/gif/mod.rs:83-127 | a frame that differs from the last one writes the scaled bounding box of the changed cells, with its pixels from the new frame |
| GifWriter.AllFramesPrefix | aoc/src/gif/mod.rs:71-72 | a prefix of well-sized frames is well-sized |
| GifWriter.DrawAll | aoc/src/gif/mod.rs:55-61 | after drawing a sequence of frames, the last frame, if any, has the canvas size |
| GifWriter.DrawOne | aoc/src/gif/mod.rs:64-131 | after one successful draw, the last frame, if any, has the canvas size |
| GifWriter.DrawAllSnoc | aoc/src/gif/mod.rs:55-61 | drawing one more frame continues from the state the earlier frames left |
| GifWriter.DrawPrefix | aoc/src/gif/mod.rs:55-61 | drawing the first `k + 1` frames is drawing the first `k`, then frame `k` |
| GifWriter.DrawAllAppend | aoc/src/gif/mod.rs:55-61 | drawing `a` and then `b` gives the same last frame and records as drawing `a + b` |
| GifWriter.DrawAllDistinct | aoc/src/gif/mod.rs:64-131 | when each frame differs from the one before, every draw writes a record and the last frame drawn becomes the last frame |
| GifWriter.AddRowDifferences | aoc/src/gif/mod.rs:178-185 | after the inner loop, the region is the accumulator advanced by `max_add` of every differing cell of the row, left to right |
| GifWriter.ScaleRows | aoc/src/gif/mod.rs:85-109 | the buffer built row by row equals the upscaled section of the box |
| GifWriter.AppendCopies | aoc/src/gif/mod.rs:103-105 | the loop appends exactly `k` copies of the expanded line |
| GifWriter.DiffRegion | aoc/src/gif/mod.rs:173-186 | a fresh region holding `max_init` followed by `max_add` of every changed cell in row-major order |
| GifWriter.Gif.New | aoc/src/gif/mod.rs:22-52 | the new writer has no last frame, has emitted nothing, stores the size and scales with `gif_width = width * x_scale` and `gif_height = height * y_scale`, and hands over the flattened palette |
| GifWriter.Gif.WriteFrame | aoc/src/gif/mod.rs:123 | the encoder either appends the frame or fails and leaves its output unchanged |
| GifWriter.Gif.Delay | aoc/src/gif/mod.rs:134-149 | on success, exactly the 1×1 transparent colour-0 frame with the clamped delay is appended |
| GifWriter.Gif.Dimensions | aoc/src/gif/mod.rs:153-158 | dividing the scaled canvas by the scales gives back the unscaled width and height |
| GifWriter.Gif.EmptyFrame | aoc/src/gif/mod.rs:162-166 | the empty frame has the unscaled size and every cell 0 |
| GifWriter.Gif.FrameDifference | aoc/src/gif/mod.rs:171-197 | the answer is None exactly when the reference says nothing changed, and otherwise a fresh region with the reference bounds |
| GifWriter.Gif.ScaleSection | aoc/src/gif/mod.rs:85-109 | the buffer is the upscaled section of the region |
| GifWriter.Gif.ContentFrame | aoc/src/gif/mod.rs:112-120 | the frame built is the content record: scaled top, left, width and height, the clamped delay and the upscaled buffer |
| GifWriter.Gif.DrawFrame | aoc/src/gif/mod.rs:55-61 | `draw_frame` is the identical check with `Ignore` |
| GifWriter.Gif.DrawFrameIdenticalCheck | aoc/src/gif/mod.rs:64-131 | exactly the record the reference prescribes is appended when the write succeeds; the frame becomes the last frame only after a successful content write |
| InputLines.Lines | aoc/src/input/mmap.rs:19-34 | `lines()`: the `\n`-separated pieces, stripped and filtered; `LinesWellFormed` states every line is non-empty and `\n`-free, and `LinesOfJoin`, `LinesOfJoinCrLf` and `JoinLines` are its round trips in both directions |
| InputLines.KeepLines | aoc/src/input/mmap.rs:23-24 | no more lines than pieces, and every kept line is non-empty and is some piece with one trailing `\r` removed |
| InputLines.KeepLinesAppend | aoc/src/input/mmap.rs:23-24 | the strip and the filter work piece by piece: the lines of two runs of pieces are the lines of each, in order |
| InputLines.KeepLinesOne | aoc/src/input/mmap.rs:23-24 | one piece yields itself without one trailing `\r`, or nothing exactly when it is empty or a lone `\r`; with `KeepLinesAppend` this pins down every piece's line |
| InputLines.CrPiecesAt | aoc/src/input/mmap.rs:22 | the pieces of a `\r\n` join, split at `\n`: each line but the last with its `\r`, the last as it is |
| InputLines.KeepLinesCons | aoc/src/input/mmap.rs:23-24 | a piece that yields one line, put before pieces that yield some lines, yields that line first and then those lines |
| InputLines.LastPieceKept | aoc/src/input/mmap.rs:23-24 | a non-empty piece without a trailing `\r` passes the strip and the filter as it is |
| InputLines.JoinCrLf | aoc/src/input/mmap.rs:22 | lines joined with `\r\n` are the same text as the lines, all but the last with a `\r` kept, joined with `\n` |
| InputLines.KeepLinesCr | aoc/src/input/mmap.rs:23-24 | pieces that keep their `\r` lose it again in the strip, and non-empty lines come back in order |
| InputLines.LinesOfJoinCrLf | aoc/src/input/mmap.rs:19-34 | round trip with Windows line ends: non-empty lines without `\n` or a trailing `\r`, joined with `\r\n`, are read back as the same lines |
| InputLines.Segments | aoc/src/input/mmap.rs:22 | splitting at `\n` always yields at least one piece |
| InputLines.SegmentsAreMaximal | aoc/src/input/mmap.rs:22 | no piece contains `\n`, and the pieces joined with `\n` give back the content |
| InputLines.SegmentsUnique | aoc/src/input/mmap.rs:22 | any way of writing the content as `\n`-free pieces joined by `\n` is exactly its split |
| InputLines.StripCrKeepsNoNewline | aoc/src/input/mmap.rs:23 | removing the trailing `\r` neither adds a `\n` nor lengthens the piece |
| InputLines.LinesWellFormed | aoc/src/input/mmap.rs:19-34 | every line `lines()` yields is non-empty and free of `\n` |
| InputLines.KeepLinesOfLines | aoc/src/input/mmap.rs:23-24 | non-empty pieces that do not end in `\r` pass through the strip and the filter unchanged |
| InputLines.LinesOfJoin | aoc/src/input/mmap.rs:19-34 | round trip: non-empty lines without `\n` or a trailing `\r`, joined with `\n`, are read back as the same lines |
| InputLines.EmptyPieceShows | aoc/src/input/mmap.rs:22-24 | an empty piece among two or more shows in the content as a leading or trailing `\n` or a `\n\n` |
| InputLines.JoinLines | aoc/src/input/mmap.rs:19-34 | round trip the other way: content without `\r`, without a leading or trailing `\n` and without `\n\n` is the yielded lines joined with `\n` |
| InputLines.JoinHolds | aoc/src/input/mmap.rs:22 | every character of a piece occurs in the joined content |
| Day01.InputTransform | day01/src/main.rs:74-84 | a line is accepted only when it starts with `L` or `R` followed by a `u16` that `parse` accepts, and the result carries that direction and amount |
| Day01.InputTransformFormat | day01/src/main.rs:74-84 | round trip: every rotation written as `L<n>` or `R<n>` is read back as itself |
| Day01.InputTransformBadDirection | day01/src/main.rs:79-83 | any other first character is rejected, where the source panics |
| Day01.Turn | day01/src/main.rs:22-23 | `rem_euclid(100)` keeps the dial in `0..100` |
| Day01.Position | day01/src/main.rs:17-24 | the dial position after any sequence of rotations is in `0..100` |
| Day01.Part1 | day01/src/main.rs:16-32 | the password is the number of rotations after which the dial reads 0 |
| Day01.ZerosSeenBound | day01/src/main.rs:16-32 | part 1 counts at most one per rotation |
| Day01.Part2 | day01/src/main.rs:34-62 | the password is the number of single clicks, over all rotations, that land on 0 |
| Day01.Rotate | day01/src/main.rs:39-58 | after the inner loop the dial is at `(start + count) mod 100`, as part 1 puts it, and the hits are the clicks that land on 0 |
| Day01.ClickStep | day01/src/main.rs:47-53 | one click with the `-1 => 99`, `100 => 0` wrap is one step round the dial modulo 100 |
| Day01.ZeroHitsClosedForm | day01/src/main.rs:46-58 | turning `n` clicks passes 0 once per full 100 clicks counted from the distance to 0 in the direction turned |
| Day01.HitAt | day01/src/main.rs:55-57 | click `n` lands on 0 exactly when the distance to 0 plus `n` is a multiple of 100 |
| Day01.ModNegate | day01/src/main.rs:40 | turning left: `x` and `c - x` are multiples of 100 together when `c` is 0 or 100 |
| Day01.DivStep | day01/src/main.rs:55-57 | the closed form grows by one exactly at the multiples of 100 |
| Day01.Part1AtMostPart2 | day01/src/main.rs:16-62 | when no rotation is of zero clicks, part 1 never exceeds part 2 |
| Day01.SingleRotationFromStart | day01/src/tests.rs:24-34 | from 50, one rotation of `n` clicks gives `(50 + n) / 100`, so `R1000` gives 10 and `R1050` gives 11 |
| Day02.InputTransform | day02/src/main.rs:85-96 | the line split at `,`, one range per piece; `InputTransformRoundTrip` reads written `u64` ranges back as given, and `ParseSpanNeedsDash` rejects a piece without `-`, where the source panics |
| Day02.ParseSpan | day02/src/main.rs:88-94 | a piece that parses gives a range whose two ends are `u64` values |
| Day02.ParseSpans | day02/src/main.rs:87-95 | when every piece parses, there is one range per piece, each with `u64` ends |
| Day02.FormatSpans | day02/src/main.rs:85-96 | the written form has one `a-b` piece per range |
| Day02.DigitsHaveNoPunctuation | day02/src/main.rs:87-89 | a decimal number holds neither of the separators `,` and `-` |
| Day02.ParseFormatSpan | day02/src/main.rs:88-94 | round trip for one range: `a-b` written in decimal is read back as the same range |
| Day02.ParseFormatSpans | day02/src/main.rs:87-95 | round trip for the pieces: the written pieces are read back as the same ranges |
| Day02.InputTransformRoundTrip | day02/src/main.rs:85-96 | round trip for the line: `u64` ranges written as `a-b,c-d,…` are read back as the same ranges |
| Day02.ParseSpanNeedsDash | day02/src/main.rs:89-93 | a piece without `-` is rejected, where the source panics |
| Day02.Chunks | day02/src/main.rs:62 | every piece `chunks_exact` yields has the chunk length |
| Day02.Rep | day02/src/main.rs:56-74 | `k` copies of a chunk are `k` times as long |
| Day02.AllChunksAre | day02/src/main.rs:62-68 | when the chunk length divides the length, all chunks equal `t` exactly when the string is `t` repeated |
| Day02.RepeatedIsRep | day02/src/main.rs:56-74 | the part 2 test holds exactly when the number's digits are some chunk of length 1 to half the digit count repeated a whole number of times |
| Day02.MirroredIsRepeated | day02/src/main.rs:27-35 | a number with two equal halves passes the part 2 test too |
| Day02.SpanSumMonotone | day02/src/main.rs:22-37 | a weaker test never gives a smaller sum over a range |
| Day02.TotalSumMonotone | day02/src/main.rs:21-39 | a weaker test never gives a smaller sum over all ranges |
| Day02.SpanSumStep | day02/src/main.rs:22 | the next number of the range is added exactly when it passes the test |
| Day02.SpanSumSingle | day02/src/main.rs:22 | both ends of a range are included: `n..=n` adds exactly `n` when it passes |
| Day02.Part1AtMostPart2 | day02/src/main.rs:18-79 | part 1 never exceeds part 2 on the same input |
| Day02.Part1 | day02/src/main.rs:18-42 | the result is the sum, over every range, of the numbers whose decimal form is two equal halves |
| Day02.RangeSum1 | day02/src/main.rs:22-38 | the inner loop adds exactly the numbers of the range that pass the part 1 test |
| Day02.AllChunksEqual | day02/src/main.rs:62-68 | the answer is true exactly when every chunk equals the first |
| Day02.ChunksAfterFirst | day02/src/main.rs:62-68 | the chunks all equal `t` exactly when the first does and the chunks after it do |
| Day02.HasRepeatedChunk | day02/src/main.rs:56-74 | the chunk-length loop succeeds exactly when the part 2 test holds |
| Day02.Part2 | day02/src/main.rs:44-79 | the result is the sum, over every range, of the numbers whose decimal form is one chunk repeated at least twice |
| Day02.RangeSum2 | day02/src/main.rs:48-75 | the inner loop adds exactly the numbers of the range that pass the part 2 test |
| Day03.InputTransform | day03/src/main.rs:90-92 | one value per character, each the character's low byte minus `'0'`; rejected exactly when some character's byte is below `'0'`, where the `u8` subtraction panics |
| Day03.InputTransformDigits | day03/src/main.rs:90-92 | a line of decimal digits becomes the digits' values, each at most 9 |
| Day03.FoldMax | day03/src/main.rs:28-33 | the fold's value bounds every digit of the window; when it is non-zero the position is the first place it occurs in the window; an all-zero window gives position 0 |
| Day03.SeqMax | day03/src/main.rs:36 | `max` returns an element of the sequence that no element exceeds |
| Day03.Joltage1 | day03/src/main.rs:20-40 | one bank's part 1 joltage, None where the source panics; `Joltage1IsBestPair` states it is the largest two-digit pair in order, at most 99, and `Joltage1Digits` the digits it is made of |
| Day03.Part1 | day03/src/main.rs:16-42 | the joltages added up; `Part1Panics` and `Part1Bound` state when it panics and its bound |
| Day03.Part1Panics | day03/src/main.rs:16-42 | part 1 panics exactly when the joltage of some bank does |
| Day03.Part1Bound | day03/src/main.rs:16-42 | on banks of at least two decimal digits part 1 does not panic and is at most 99 per bank |
| Day03.Joltage1IsBestPair | day03/src/main.rs:16-42 | on a bank of at least two decimal digits the greedy joltage is defined, is formed by two digits in order, is at least every such pair and is at most 99 |
| Day03.Joltage1Digits | day03/src/main.rs:22-39 | on decimal digits the first digit comes before the last position, both digits are at most 9 and the joltage is `d1 * 10 + d2` without overflow |
| Day03.FirstDigit | day03/src/main.rs:22-33 | the first digit is found among all but the last position and is the digit stored there |
| Day03.LaterDigit | day03/src/main.rs:36 | the largest digit after the first pick is a decimal digit |
| Day03.GreedyPairBound | day03/src/main.rs:22-39 | a first-largest leading digit followed by the largest later digit is at least every two-digit pair in order |
| Day03.PickAll | day03/src/main.rs:48-73 | after `k` picks there are `k` digits and `k` positions |
| Day03.Pow10 | day03/src/main.rs:80 | every power of ten is at least 1 |
| Day03.PowerSumIsDecimal | day03/src/main.rs:76-81 | summing `digit * 10^i` over the digits from the end is the digits read as a decimal number |
| Day03.PowerSumShift | day03/src/main.rs:76-81 | dropping the last digit divides the weight of every other digit by ten |
| Day03.PickDigits | day03/src/main.rs:48-73 | the loop over the 12 picks yields exactly the as-written picks |
| Day03.Joltage2 | day03/src/main.rs:47-82 | one bank's part 2 value is the power sum of its 12 picked digits |
| Day03.Part2 | day03/src/main.rs:44-84 | the result is the sum over the banks of their 12 picked digits read as decimal numbers |
| Day03.PicksAreOrdered | day03/src/main.rs:48-73 | on at least 12 digits from 1 to 9, the picked positions strictly increase, each lies inside its window, and each picked digit is the bank's digit at that position |
| Day03.PicksLeaveRoom | day03/src/main.rs:53-60 | pick `k` leaves at least `11 - k` digits after it |
| Day03.ZeroWindowFirstPicks | day03/src/main.rs:61-69 | on `0 9 0 0 0 0 0 0 0 0 0 0 0` the second pick falls back to position 0 |
| Day03.AllZeroWindowRestarts | day03/src/main.rs:61-69 | on that bank the third pick returns to position 1: the positions are not in order |
| Day03.WindowMax | day03/src/main.rs:61-66 | the corrected fold returns a position inside the window holding the window's largest digit, the first such position |
| Day03.PickAllFixed | day03/src/main.rs:48-73 | the corrected picks have strictly increasing positions inside their windows, and each digit is the bank's digit at its position |
| Day03.PickAllAgrees | day03/src/main.rs:48-73 | on banks of at least 12 digits from 1 to 9 the as-written and corrected picks are the same |
| Day03.PickAgreesNext | day03/src/main.rs:61-69 | when both picks agree so far and the next window starts with a non-zero digit, they agree on one more pick |
| Day03.FoldMaxIsWindowMax | day03/src/main.rs:61-66 | on a window starting with a non-zero digit both folds give the same position and digit |
| Day04.InputTransform | day04/src/main.rs:99-107 | one cell per character, paper exactly where the character is `@`; rejected exactly when some character is neither `.` nor `@`, where the source panics |
| Day04.InputTransformFormat | day04/src/main.rs:99-107 | round trip: a row written as `.` and `@` is read back as the same row |
| Day04.CandidateAt | day04/src/main.rs:78-79 | the nine candidates run row by row over the three by three block around the cell |
| Day04.NeighboursUpToMembers | day04/src/main.rs:78-84 | the positions kept from the first `n` candidates are exactly those candidates inside the grid and not the cell itself |
| Day04.NeighboursUpToLength | day04/src/main.rs:78-84 | the cell itself is never kept, so at most `n - 1` of `n >= 5` candidates are |
| Day04.NeighboursMembers | day04/src/main.rs:72-87 | the neighbours are exactly the grid cells at Chebyshev distance 1 from the cell, and there are at most 8 |
| Day04.AdjacentCoords | day04/src/main.rs:72-87 | the nested loops push exactly the kept candidates, in order |
| Day04.PaperAmong | day04/src/main.rs:63-67 | no more positions hold paper than there are positions |
| Day04.AdjacentCount | day04/src/main.rs:60-70 | a cell has at most 8 neighbouring rolls |
| Day04.Adjacent | day04/src/main.rs:60-70 | the loop counts exactly the neighbours holding paper |
| Day04.RowPaper | day04/src/main.rs:41-48 | the rolls among the first `n` cells of a row are at most `n` |
| Day04.CountRowBound | day04/src/main.rs:21-27 | the accessible rolls of a row are among the row's rolls, and none are counted exactly when none is accessible |
| Day04.CountRowsBound | day04/src/main.rs:16-30 | the same over the first `m` rows |
| Day04.Part1 | day04/src/main.rs:16-30 | the accessible rolls counted row by row; `Part1Bounds` states it is at most the rolls on the board and 0 exactly when no roll is accessible |
| Day04.Part1Bounds | day04/src/main.rs:16-30 | part 1 is at most the rolls on the board, and is 0 exactly when no roll is accessible |
| Day04.StepCell | day04/src/main.rs:43-46 | a step keeps the board's shape |
| Day04.SweepRow | day04/src/main.rs:42-47 | sweeping part of a row keeps the board's shape |
| Day04.SweepRows | day04/src/main.rs:41-48 | sweeping the first rows keeps the board's shape |
| Day04.Sweep | day04/src/main.rs:41-48 | a sweep keeps the board's shape |
| Day04.Erode | day04/src/main.rs:38-55 | repeated sweeping keeps the board's shape |
| Day04.RowRemoveOne | day04/src/main.rs:44 | emptying a roll lowers a row's count by one when it lies in the counted part |
| Day04.RowsReplace | day04/src/main.rs:44 | replacing one row changes the board's count by the difference of that row's counts |
| Day04.StepCellCount | day04/src/main.rs:43-46 | a step only takes rolls away, and takes exactly one exactly when the roll is accessible on the board it sees |
| Day04.RowSubCount | day04/src/main.rs:41-48 | a row with some rolls taken away has fewer rolls, the same count only when nothing was taken |
| Day04.RowsSubCount | day04/src/main.rs:41-48 | the same over the first `m` rows |
| Day04.SubCount | day04/src/main.rs:38-55 | a board with some rolls taken away has fewer rolls, and the same count only when it is the same board |
| Day04.SweepRowMono | day04/src/main.rs:42-47 | later cells of a row only take more rolls away |
| Day04.SweepRowsMono | day04/src/main.rs:41-48 | later rows only take more rolls away |
| Day04.SweepSub | day04/src/main.rs:41-48 | a sweep only turns rolls into empty cells |
| Day04.StableSweepUnchanged | day04/src/main.rs:41-52 | a sweep of a board with no accessible roll changes nothing |
| Day04.StableRowsUnchanged | day04/src/main.rs:41-48 | on such a board the first `m` rows sweep to the same board |
| Day04.StableRowUnchanged | day04/src/main.rs:42-47 | on such a board part of one row sweeps to the same board |
| Day04.SweepUnchangedStable | day04/src/main.rs:41-52 | a sweep that removes nothing leaves no roll of the board accessible |
| Day04.CellUnchanged | day04/src/main.rs:43 | when the sweep changes nothing, every cell saw the unchanged board and is not accessible |
| Day04.SweepFixpoint | day04/src/main.rs:38-55 | a sweep removes nothing exactly when no roll of the board is accessible |
| Day04.ErodeStable | day04/src/main.rs:38-55 | the final board has only rolls of the input, none of them accessible, so part 1 of it is 0 |
| Day04.StableErodesToItself | day04/src/main.rs:38-55 | on a board with no accessible roll, part 2 removes nothing |
| Day04.SweepBoard | day04/src/main.rs:39-48 | one sweep in place gives the specified sweep, and its count is the rolls it took away |
| Day04.Part2 | day04/src/main.rs:32-58 | the result is the rolls on the input less the rolls on the final board |
| Day04Vis.Shade | day04vis/src/main.rs:31-32 | shade `i` is `255 * (i + 1) / 8`, a byte |
| Day04Vis.BuildPalette | day04vis/src/main.rs:26-35 | the palette is black, white, then the eight shades `[b, 0, b / 2]` in order |
| Day04Vis.ShadesRise | day04vis/src/main.rs:31-35 | the shades grow strictly brighter, from 31 up to 255 |
| Day04Vis.SimStepSub | day04vis/src/main.rs:45-55 | a step keeps the grid and only turns rolls into empty cells |
| Day04Vis.SimRowCount | day04vis/src/main.rs:49-54 | within a row a step removes exactly the accessible rolls |
| Day04Vis.SimRowsCount | day04vis/src/main.rs:48-55 | over the first `m` rows a step removes exactly the accessible rolls |
| Day04Vis.SimStepCount | day04vis/src/main.rs:45-55 | a step removes exactly as many rolls as day 4's part 1 counts |
| Day04Vis.SimStepFixpoint | day04vis/src/main.rs:57-59 | a step leaves the board as it is exactly when no roll is accessible |
| Day04Vis.SimErode | day04vis/src/main.rs:44-65 | the board the loop ends with is a grid of the input's shape |
| Day04Vis.SimErodeStable | day04vis/src/main.rs:44-65 | the board the loop ends with only lost rolls and has no accessible roll left |
| Day04Vis.MovieStep | day04vis/src/main.rs:44-65 | a step that removes something contributes its eight frames, then the animation of the new board |
| Day04Vis.Step | day04vis/src/main.rs:45-55 | the loop over a copy of the board gives the simultaneous step and counts the rolls day 4's part 1 counts |
| Day04Vis.CellColour | day04vis/src/main.rs:92-97 | an empty cell is not painted, a roll that stays is colour 1, a roll being removed is a shade colour from 2 to 9 |
| Day04Vis.BoardFrame | day04vis/src/main.rs:86-110 | a frame has 5 rows of pixels per cell row and 5 pixels per cell |
| Day04Vis.FramePixels | day04vis/src/main.rs:99-108 | every pixel is a palette index below 10, and a non-zero pixel lies on the sprite in the block of a cell that held a roll |
| Day04Vis.BlockOf | day04vis/src/main.rs:99-105 | a pixel in the block of cell `(x, y)` divides down to that cell |
| Day04Vis.PaintCell | day04vis/src/main.rs:102-108 | the sprite loops paint the colour exactly where the sprite is 1 in the cell's block and leave every other pixel |
| Day04Vis.PaintBoard | day04vis/src/main.rs:88-110 | painting every cell over an empty frame gives the frame of that shade |
| Day04Vis.PaintedCell | day04vis/src/main.rs:90-110 | painting one more cell extends the painted part of the frame by that cell |
| Day04Vis.StepFrames | day04vis/src/main.rs:86-114 | a step draws eight frames of the canvas size |
| Day04Vis.DrawBoard | day04vis/src/main.rs:80-117 | when every draw succeeds, the encoder received the eight frames of the step in turn |
| Day04Vis.StepFrameAt | day04vis/src/main.rs:86 | frame `k` of a step has shade `7 - k` |
| Day04Vis.DrawShade | day04vis/src/main.rs:86-114 | one pass paints the frame of its shade and hands it to the encoder |
| Day04Vis.Movie | day04vis/src/main.rs:44-65 | every frame of the animation has the canvas size |
| Day04Vis.CentrePixel | day04vis/src/main.rs:72-78 | the centre pixel of a cell's block shows the cell's colour, or 0 when the cell is empty |
| Day04Vis.SomeAccessible | day04vis/src/main.rs:50 | when a step removes something, some roll is accessible |
| Day04Vis.ChangingConcat | day04vis/src/main.rs:44-65 | joining two frame sequences whose frames each differ from the one before, with different frames at the join, gives the same property |
| Day04Vis.StepFramesChange | day04vis/src/main.rs:86-114 | within a step that removes a roll, each frame differs from the one before |
| Day04Vis.StepBoundaryChanges | day04vis/src/main.rs:61-64 | the last frame of a step differs from the first frame of the next |
| Day04Vis.MovieFramesDiffer | day04vis/src/main.rs:44-65 | the animation has 8 frames per step, and each frame differs from the one before it |
| Day04Vis.EveryFrameWritten | day04vis/src/main.rs:61 | since consecutive frames differ, every frame drawn is written: 8 records per step |
| Day04Vis.Animate | day04vis/src/main.rs:44-65 | when nothing fails, the board reached is the end of the steps and the encoder received the frames of the whole animation |
| Day04Vis.Part2 | day04vis/src/main.rs:19-70 | when nothing fails, the encoder received the whole animation and the one-second delay record, and the board reached has no accessible roll left |
| Day05.Members | day05/src/main.rs:20 | the ids a range holds are exactly those `contains` accepts |
| Day05.Combine | day05/src/main.rs:80-100 | a combined range holds exactly the ids of the two ranges, and is well-formed when both are |
| Day05.CombineIffShare | day05/src/main.rs:85-99 | two well-formed ranges combine exactly when they have an id in common |
| Day05.AdjacentNotCombined | day05/src/main.rs:85-99 | ranges that only touch end to end, such as `3-5` and `6-8`, are not combined, in either order |
| Day05.UnionIsAny | day05/src/main.rs:20 | an id is in the union of the ranges exactly when `any` range contains it |
| Day05.UnionUpdate | day05/src/main.rs:45-47 | replacing one range by a range holding its ids and more adds exactly those ids to the union |
| Day05.CombineInto | day05/src/main.rs:45-48 | combining a range into an output range adds exactly its ids, and keeps the ranges well-formed |
| Day05.UnionSnoc | day05/src/main.rs:59 | pushing a range adds exactly its ids |
| Day05.DisjointUnionSize | day05/src/main.rs:26-28 | well-formed ranges sharing no id cover as many ids as their sizes add up to |
| Day05.SettledSnoc | day05/src/main.rs:54-60 | pushing a range that combines with none of the output keeps the output free of combinable pairs |
| Day05.SettledDisjoint | day05/src/main.rs:63-67 | well-formed ranges of which no two combine share no id |
| Day05.Normalise | day05/src/main.rs:31-78 | the output covers the same ids as the input, no two of its ranges combine, it keeps the ranges well-formed and has no more ranges than the input |
| Day05.Pass | day05/src/main.rs:36-61 | a pass keeps the ids covered; one that combines shortens the list; one that combines nothing returns its input, in which no two ranges combine |
| Day05.PassStep | day05/src/main.rs:39-60 | moving one more input range into the output keeps what the pass has built so far: same ids, no more ranges, and the input itself while nothing has combined |
| Day05.Absorb | day05/src/main.rs:40-60 | the first output range that combines is replaced by the combination; when none combines the range is pushed; either way the ids added are the range's |
| Day05.Part1 | day05/src/main.rs:16-22 | the count is at most the number of ingredients |
| Day05.Part1ByUnion | day05/src/main.rs:16-22 | part 1 depends only on the ids the ranges cover, so normalising the ranges does not change it |
| Day05.Part1All | day05/src/main.rs:16-22 | part 1 counts every ingredient exactly when each lies in some range |
| Day05.TotalSize | day05/src/main.rs:26-28 | the sum succeeds exactly when every range is well-formed and the total fits `u64`, and is then the sizes added up |
| Day05.Part2 | day05/src/main.rs:24-29 | when part 2 succeeds it is the number of distinct ids the ranges cover; for well-formed ranges it fails exactly when that number is beyond `u64` |
| Day05.InputTransform | day05/src/main.rs:106-123 | the file split at its first blank line into range lines and id lines; `InputTransformRoundTrip` reads the puzzle layout back as given, and `InputTransformNeedsBlankLine` rejects a file without a blank line, where the source panics |
| Day05.ParseSpans | day05/src/main.rs:109-115 | one range per line |
| Day05.ParseIds | day05/src/main.rs:117-120 | one id per line |
| Day05.FormatSpans | day05/src/main.rs:109-115 | one `a-b` line per range |
| Day05.FormatIds | day05/src/main.rs:117-120 | one decimal line per id |
| Day05.DigitsArePlain | day05/src/main.rs:112 | a decimal number holds no `-` and no line break |
| Day05.ParseFormatSpans | day05/src/main.rs:109-115 | round trip for the range lines |
| Day05.ParseFormatSpan | day05/src/main.rs:112-113 | round trip for one `a-b` range |
| Day05.ParseFormatIds | day05/src/main.rs:117-120 | round trip for the id lines |
| Day05.InputTransformRoundTrip | day05/src/main.rs:106-123 | the ranges and ids written in the puzzle's layout are read back as given |
| Day05.InputTransformNeedsBlankLine | day05/src/main.rs:107 | a file without a blank line is rejected, where the source panics |
| Day06.FoldChecked | day06/src/main.rs:27-28 | when the `u64` fold succeeds it is the operator's unbounded result over the values, and fits `u64` |
| Day06.ReducePrefix | day06/src/main.rs:27-28 | a sum, or a product of values that are all at least 1, over a prefix is at most the whole result |
| Day06.FoldCheckedFits | day06/src/main.rs:27-28 | when partial results only grow, the `u64` fold fails exactly when the true result does not fit |
| Day06.SumAtLeastTerm | day06/src/main.rs:31 | a sum is at least each of its terms |
| Day06.Results | day06/src/main.rs:26-30 | column `i`'s result is column `i`'s operator over its values |
| Day06.Folds | day06/src/main.rs:26-30 | column `i`'s `u64` fold is column `i`'s operator folded over its values |
| Day06.Solve | day06/src/main.rs:23-31 | a total that succeeds came from valid operators and readable columns, and is the sum of the column results |
| Day06.SolveFits | day06/src/main.rs:23-31 | with valid operators, readable columns and no zero under a `*`, the total fails exactly when it does not fit `u64` |
| Day06.SolveOfFolds | day06/src/main.rs:31 | with the column results in hand, the total is their checked sum |
| Day06.FoldsFit | day06/src/main.rs:26-30 | the columns' folds all succeed exactly when every result fits, and then they are the results |
| Day06.ColumnOf | day06/src/main.rs:27-28 | column `idx` holds entry `idx` of each row, top to bottom |
| Day06.Columns | day06/src/main.rs:26-28 | the first `n` columns, in order |
| Day06.ColumnReads | day06/src/main.rs:26-28 | the reads of the first `n` columns, in order |
| Day06.ColumnsCollect | day06/src/main.rs:27-28 | every column reads exactly when every row has an entry for each column, and then the reads are the columns |
| Day06.Part1 | day06/src/main.rs:21-32 | each column's operator folded down the column, the results added up; `Part1Meaning` states when it succeeds and what it sums |
| Day06.Part1Meaning | day06/src/main.rs:21-32 | part 1 succeeds only on valid operators and full rows, and is then the sum over the columns of each column's sum or product; with no zero, it fails only when that total overflows `u64` |
| Day06.Stack | day06/src/main.rs:52-55 | one character per row |
| Day06.OperandReadsDown | day06/src/main.rs:52-58 | an operand is the number whose digits stand in that character position top to bottom, blanks above and below ignored |
| Day06.BlankOperandFails | day06/src/main.rs:52-58 | a position that is blank in every row is no number, where the source panics |
| Day06.TrimBlank | day06/src/main.rs:56 | trimming blanks leaves nothing |
| Day06.Operands | day06/src/main.rs:41-58 | the operands of a column are one per character of the first row's cell, each read down its position |
| Day06.OperandColumns | day06/src/main.rs:39-58 | the operands of the first `n` columns, in order |
| Day06.Part2 | day06/src/main.rs:34-69 | part 2 succeeds only on valid operators and readable columns, and is then the sum over the columns of each column's operator over its operands |
| Day06.ParseOperators | day06/src/main.rs:81-88 | one operator per token, each `+` or `*` |
| Day06.ParseRow | day06/src/main.rs:92-96 | one number per token |
| Day06.InputTransform1 | day06/src/main.rs:73-102 | the loop over the lines builds exactly the number rows and the last operator line |
| Day06.Transform1Fails | day06/src/main.rs:77-99 | once a line fails to parse, the whole input fails |
| Day06.FormatRows | day06/src/main.rs:92-96 | each row on a line of its own |
| Day06.RowTokens | day06/src/main.rs:93 | the tokens of a written row are its numbers in decimal |
| Day06.RowRoundTrip | day06/src/main.rs:78-96 | a written row is a number line and reads back as the row |
| Day06.JoinPlain | day06/src/main.rs:77 | decimal numbers joined by blanks hold no line break |
| Day06.OperatorsRoundTrip | day06/src/main.rs:78-88 | a written operator line is an operator line and reads back as the operators |
| Day06.OperatorsPlain | day06/src/main.rs:77 | operators joined by blanks hold no line break |
| Day06.Transform1RoundTrip | day06/src/main.rs:73-102 | a worksheet written one row per line with its operator line last reads back as the same rows and operators |
| Day06.Transform1Snoc | day06/src/main.rs:77-99 | one more line either replaces the operators or pushes its row |
| Day06.FormatRowsRead | day06/src/main.rs:90-97 | written rows are number lines reading back as the rows |
| Day06.RowsRoundTrip | day06/src/main.rs:77-99 | number lines alone give their rows and no operators |
| Day06.Transform1Row | day06/src/main.rs:90-97 | a number line after number lines pushes its row |
| Day06.OperatorLine | day06/src/main.rs:108-116 | the line found is one of the lines and is an operator line |
| Day06.Positions | day06/src/main.rs:119-129 | the positions are in increasing order and are exactly the indices of the line's operator characters |
| Day06.Cells | day06/src/main.rs:143-155 | one cell per operator position |
| Day06.CellsJoin | day06/src/main.rs:143-155 | on a line laid out under the operators, the cells joined again by single blanks give the line back |
| Day06.JoinAtBlank | day06/src/main.rs:150 | the piece before a blank, the blank and the piece after make up the line |
| Day06.Transform2 | day06/src/main.rs:104-163 | the operators are valid and one per operator position; every number line has one cell per operator |
| Day06.NumberLines | day06/src/main.rs:138-160 | no line kept is an operator line, and there are no more of them than lines |
| Day07.InputTransform | day07/src/main.rs:118-127 | one cell per character; accepted exactly when every character is `.`, `^` or `S` |
| Day07.InputTransformFormat | day07/src/main.rs:118-127 | round trip: a written row is read back as the same row |
| Day07.FirstStart | day07/src/main.rs:92-101 | the index found holds Start and no earlier cell of the row does; none is found exactly when the row has no Start |
| Day07.FindStart | day07/src/main.rs:87-105 | the cell found holds Start and is the first in row-major order; none is found exactly when the grid has no Start, where the source panics |
| Day07.Step1 | day07/src/main.rs:33-45 | a column of the next row has a beam exactly when an Empty cell above it had one, or a splitter beside it had one |
| Day07.ConvergingBeams | day07/src/main.rs:36-37 | beams converging on one column are one beam: two splitters two apart send a single beam between them, and count two splits |
| Day07.Step1Add | day07/src/main.rs:34-44 | adding one beam adds its targets to the next row and, at a splitter, one split |
| Day07.Enter | day07/src/main.rs:34-44 | one beam entering the row: its targets join the next beams, and a splitter counts one split |
| Day07.Row1 | day07/src/main.rs:31-45 | the loop succeeds exactly when every beam can enter the row, and then gives the next row's beams and the number of beams that hit a splitter |
| Day07.Run1Next | day07/src/main.rs:30-49 | processing row `y` either fails or moves the run on to row `y + 1` |
| Day07.Part1 | day07/src/main.rs:19-52 | without a Start the source panics; otherwise the result is the splits of the run over the rows below the start |
| Day07.Step2 | day07/src/main.rs:67-78 | the columns holding timelines in the next row are exactly part 1's beams |
| Day07.Step2Add | day07/src/main.rs:68-77 | adding a beam of `c` timelines adds `c` at each of its targets |
| Day07.Step2AddEmpty | day07/src/main.rs:73-75 | at an Empty cell `c` timelines go straight down |
| Day07.Step2AddSplitter | day07/src/main.rs:69-72 | at a splitter `c` timelines go to each side |
| Day07.Step2AddAt | day07/src/main.rs:68-77 | a column's count after one more beam is its old count plus what that beam sends it |
| Day07.InflowAdd | day07/src/main.rs:68-77 | the timelines reaching a column grow by what the added beam sends it |
| Day07.TotalAdd | day07/src/main.rs:70-74 | adding `c` at one column adds `c` to the total |
| Day07.TotalSame | day07/src/main.rs:84 | maps agreeing below the bound have the same total |
| Day07.TotalEmpty | day07/src/main.rs:84 | no beams, no timelines |
| Day07.SplitMassAdd | day07/src/main.rs:69-72 | one more beam adds its timelines to the split ones exactly when it hits a splitter |
| Day07.Step2Total | day07/src/main.rs:64-82 | a row adds to the number of timelines exactly the timelines that hit a splitter |
| Day07.Step2TotalStep | day07/src/main.rs:67-78 | one more beam keeps the total equal to the old total plus the split timelines |
| Day07.Step2AddTotal | day07/src/main.rs:67-78 | one more beam of `c` timelines adds `c` to the next total, and `c` more at a splitter |
| Day07.TotalAfterAdd | day07/src/main.rs:70-74 | a beam of `c` timelines sent to one column, or split to the two around it, adds `c` per target |
| Day07.Step2Empty | day07/src/main.rs:65 | no beams give no beams |
| Day07.PartedMove | day07/src/main.rs:67 | feeding one more beam of the map moves it from the columns still to feed to those fed |
| Day07.PartedDone | day07/src/main.rs:67 | when no column is left to feed, every beam has been fed |
| Day07.Feed | day07/src/main.rs:68-77 | an Empty cell adds the count below it, a splitter adds it on both sides |
| Day07.Row2 | day07/src/main.rs:65-78 | the loop succeeds exactly when every beam can enter the row, and then gives the next row's counts |
| Day07.Run2Next | day07/src/main.rs:64-82 | processing row `y` either fails or moves the run on to row `y + 1` |
| Day07.RunsAgree | day07/src/main.rs:19-85 | at every row the columns holding timelines in part 2 are the beams of part 1, and the two fail on the same rows |
| Day07.Width | day07/src/main.rs:84 | the width bounds every row |
| Day07.Step2Below | day07/src/main.rs:70-74 | no beam leaves the columns `0..=w` of rows at most `w` wide |
| Day07.Part2 | day07/src/main.rs:54-85 | without a Start the source panics; otherwise the result is the sum of the counts after the last row, starting from one timeline at the start |
| Day07.Rows2 | day07/src/main.rs:64-82 | the loop processes the rows in order |
| Day07.RunBelow | day07/src/main.rs:64-84 | every column holding timelines stays below the bound, so the total adds up all of them |
| Day08.Find | day08/src/main.rs:31-37 | the circuit found holds the junction and no earlier one does; none is found exactly when no circuit holds it |
| Day08.FindUnique | day08/src/main.rs:31-37 | in a partition the circuit holding a junction is the one found |
| Day08.Singletons | day08/src/main.rs:21-23 | one circuit per junction |
| Day08.SingletonsPartition | day08/src/main.rs:21-23 | the starting circuits partition the junctions |
| Day08.SwapRemove | day08/src/main.rs:46 | one element fewer; position `i` gets the last element and every other position is kept |
| Day08.Merge | day08/src/main.rs:26-48 | one join along an edge; `MergeCircuits` states the joined circuit and the kept ones, `MergePartition` that the circuits stay a partition, `MergeCount` that their number drops by one exactly when the two junctions were apart |
| Day08.MergePartition | day08/src/main.rs:26-49 | joining along an edge between existing junctions keeps the circuits a partition |
| Day08.PartsDisjoint | day08/src/main.rs:45-48 | two different circuits of a partition share no junction |
| Day08.MergeShape | day08/src/main.rs:42-48 | joining two different circuits: the earlier one gains the later one's junctions, the later one's place gets the last circuit, and there is one circuit fewer |
| Day08.MergeCount | day08/src/main.rs:42-48 | the number of circuits drops by one exactly when the junctions were in different circuits |
| Day08.MergeCircuits | day08/src/main.rs:42-48 | afterwards both junctions are in one circuit, the union of their two circuits; every other circuit is kept, and nothing else appears |
| Day08.MergeJoins | day08/src/main.rs:42-48 | afterwards both junctions are in one circuit, the union of their two circuits |
| Day08.MergeKeeps | day08/src/main.rs:45-48 | every circuit holding neither junction is kept |
| Day08.MergeAddsNothing | day08/src/main.rs:45-48 | every circuit afterwards is the joined one or an old one |
| Day08.ConnectedPartition | day08/src/main.rs:26-49 | joining along edges between existing junctions keeps a partition, and each edge removes at most one circuit |
| Day08.SingleCircuit | day08/src/main.rs:97 | one circuit left means every junction is in it |
| Day08.PositionsOfPartition | day08/src/main.rs:28-39 | in a partition the positions found are the circuit of `j1` and that of `j2`, ascending, once each |
| Day08.PositionsPrefix | day08/src/main.rs:28-39 | scanning the first `m` circuits finds those of the two among them, ascending |
| Day08.Connect | day08/src/main.rs:28-48 | the body of the edge loop gives the specified join |
| Day08.ConnectNext | day08/src/main.rs:26-49 | joining along the next edge continues the run of joins |
| Day08.Insert | day08/src/main.rs:52 | inserting into a list sorted by descending size keeps it sorted and adds exactly the one size |
| Day08.HeadLargest | day08/src/main.rs:52 | the head of a descending list is at least everything after the insertion |
| Day08.SortDesc | day08/src/main.rs:52 | the sizes sorted largest first: sorted, and a permutation of the input |
| Day08.Sizes | day08/src/main.rs:58 | one size per circuit |
| Day08.Largest3 | day08/src/main.rs:55-58 | up to three sizes, largest first |
| Day08.Largest3AreLargest | day08/src/main.rs:52-58 | no size left out beats one of the three picked, and every picked size is a circuit's size |
| Day08.ProductPositive | day08/src/main.rs:59 | a product of sizes of non-empty circuits is at least 1 |
| Day08.Part1 | day08/src/main.rs:19-60 | the result is the product of the three largest circuit sizes after joining along the first `join_count` edges, and is at least 1 |
| Day08.Counts | day08/src/main.rs:72-103 | one count per edge |
| Day08.FirstSingle | day08/src/main.rs:97 | the index found is in range and has a single circuit |
| Day08.FirstJoining | day08/src/main.rs:72-103 | the edge found leaves a single circuit |
| Day08.FirstSingleFirst | day08/src/main.rs:97-101 | no earlier index has a single circuit, and none at all when none is found |
| Day08.FirstJoiningFirst | day08/src/main.rs:97-101 | no earlier edge leaves a single circuit, and none at all when none is found |
| Day08.MulU64 | day08/src/main.rs:99 | the product succeeds exactly when it fits `u64` |
| Day08.Part2 | day08/src/main.rs:62-106 | the result is the product of the x coordinates of the first edge that leaves a single circuit, or 0 when there is none |
| Day08.FirstSingleIs | day08/src/main.rs:97-101 | the first index with a single circuit is the one found |
| Day08.FirstSingleNone | day08/src/main.rs:97-105 | with no index holding a single circuit, none is found |
| Day08.FirstJoiningConnectsAll | day08/src/main.rs:96-102 | when part 2 stops, every junction is in the one circuit |
| Day08.FirstJoiningLate | day08/src/main.rs:72-103 | part 2 needs at least `n - 1` edges before a single circuit remains |
| Day08.InputTransform | day08/src/main.rs:146-150 | one coordinate per comma-separated piece |
| Day08.InputTransformRoundTrip | day08/src/main.rs:146-150 | round trip: coordinates written comma-separated are read back as given |
| Day09.Area | day09/src/main.rs:19 | every rectangle has at least one tile |
| Day09.FoldRow | day09/src/main.rs:18-20 | the inner fold never lowers the accumulator |
| Day09.FoldRowLargest | day09/src/main.rs:18-20 | the inner fold is at least every area it runs over, and is the accumulator or one of those areas |
| Day09.FoldAll | day09/src/main.rs:17-21 | the outer fold never lowers the accumulator |
| Day09.FoldAllLargest | day09/src/main.rs:17-21 | the outer fold is at least the area of every pair from row `i` on, and is the accumulator or one of those areas |
| Day09.Part1 | day09/src/main.rs:16-22 | the fold over all pairs; `Part1IsLargest` states it is the largest pair area, the area of some pair, and 0 exactly when there are fewer than two points |
| Day09.Part1IsLargest | day09/src/main.rs:16-22 | part 1 is at least the area of every pair of points and is the area of some pair; it is 0 exactly when there are fewer than two points |
| Day09.Pairs | day09/src/main.rs:25-35 | the candidates are exactly the pairs `i < j` with their areas, listed in order of `i` then `j` |
| Day09.PairRow | day09/src/main.rs:29-33 | the candidates of row `i` are exactly the pairs `(i, j)` with `j > i`, in order of `j` |
| Day09.PairsFrom | day09/src/main.rs:28-34 | the candidates from row `i` on are exactly those pairs, listed in order |
| Day09.Insert | day09/src/main.rs:37 | inserting a candidate listed after all others keeps the descending-area, stable order and adds exactly that candidate |
| Day09.HeadBefore | day09/src/main.rs:37 | the head of a sorted list goes before everything the insertion gives |
| Day09.LastAfterAll | day09/src/main.rs:37 | the last listed candidate comes after every other one |
| Day09.SortByArea | day09/src/main.rs:37 | the stable sort by descending area is sorted and a permutation of its input |
| Day09.Sorted | day09/src/main.rs:25-37 | the candidates in the order part 2 tries them: sorted by descending area, ties in listed order, and exactly the pairs with their areas |
| Day09.CutFree | day09/src/main.rs:53-62 | no edge from `k` on cuts the rectangle exactly when every test from `k` on says so |
| Day09.CutTotal | day09/src/main.rs:53-62 | a test that never panics gives a verdict on every rectangle |
| Day09.Scan | day09/src/main.rs:53-62 | the search with its moving `t1` tries the edges in order, the first one from the last point to the first |
| Day09.FirstUncutArea | day09/src/main.rs:39-66 | the first uncut candidate's area is non-zero, at most part 1, and at least the area of every uncut candidate |
| Day09.NoneUncut | day09/src/main.rs:39-69 | when no sorted candidate is uncut, no candidate at all is |
| Day09.FirstUncutIsBest | day09/src/main.rs:37-66 | the first uncut candidate comes before every other uncut candidate: a larger area, or the same area listed earlier |
| Day09.Part2 | day09/src/main.rs:24-70 | the result is the largest area of a rectangle no edge cuts, 0 exactly when every rectangle is cut, and at most part 1 |
| Day09.FirstUncut | day09/src/main.rs:39-67 | the loop stops at the first candidate whose rectangle no edge cuts, having passed only cut ones |
| Day09.InputTransform | day09/src/main.rs:80-87 | a point read has `i64` coordinates |
| Day09.InputTransformRoundTrip | day09/src/main.rs:80-87 | round trip: a point written `x,y` is read back as given |
| Day09Vis.IntersectsPanics | day09vis/src/main.rs:97-135 | both tests panic exactly on an edge that is neither horizontal nor vertical |
| Day09Vis.IntersectsSymmetric | day09vis/src/main.rs:97-135 | the direction of the edge does not change either test's answer |
| Day09Vis.IntersectsBoundary | day09vis/src/main.rs:98-129 | an edge along one of the rectangle's sides never cuts it, in either test |
| Day09Vis.CrossesMeansInside | day09vis/src/main.rs:80-81 | for a rectangle with an inside, an axis-aligned edge cuts it in the corrected test exactly when some point of the edge lies strictly inside it |
| Day09Vis.IntersectsIsSound | day09vis/src/main.rs:97-135 | what the test as written reports is a real cut |
| Day09Vis.IntersectsMissesSpanningEdge | day09vis/src/main.rs:101-112 | the edge `(0, 5)`–`(10, 5)` runs through the inside of the rectangle `(0, 0)`–`(10, 10)`, yet the test as written reports no cut |
| Day09Vis.VisRow | day09vis/src/main.rs:31-42 | after the inner fold, no area of the row beats the state, and its pair is the first with that area |
| Day09Vis.GoodNextPair | day09vis/src/main.rs:35-41 | folding in one pair keeps the state good up to the next pair: a strictly larger area replaces the pair |
| Day09Vis.VisAll | day09vis/src/main.rs:27-43 | after the outer fold no pair's area beats the state, and its pair is the first with that area |
| Day09Vis.GoodNextRow | day09vis/src/main.rs:30-34 | having seen all of row `i` is having seen everything before row `i + 1` |
| Day09Vis.Part1Pair | day09vis/src/main.rs:26-46 | with two points or more, the pair found has the largest area, part 1 of day 9, and no earlier pair has it; with fewer the source panics |
| Day09Vis.FoldResult | day09vis/src/main.rs:27-45 | the final fold state holds a pair exactly when there are two points, and its area is the largest |
| Day09Vis.Part1 | day09vis/src/main.rs:26-46 | with two points or more the corners returned span a rectangle of the largest area |
| Day09Vis.TestsPanicOnlyOnSlant | day09vis/src/main.rs:97-135 | `line_segment_intersects_rect` and the corrected test both panic only on an edge that is neither horizontal nor vertical |
| Day09Vis.CutAligned | day09vis/src/main.rs:77-86 | for a test that panics only on slanted edges, `line_segment_intersects_rect` among them, the edge scan of a polygon whose edges are all horizontal or vertical never panics |
| Day09Vis.FirstUncutBest | day09vis/src/main.rs:61-91 | for any rectangle test, the first candidate in the sorted order that no edge cuts beats every other uncut candidate, by a larger area or the same area and an earlier place |
| Day09Vis.Part2 | day09vis/src/main.rs:48-94 | with `line_segment_intersects_rect` as written, the corners returned are those of the best rectangle that test finds no cut in; with axis-aligned edges nothing is returned only when that test cuts every rectangle, where the source panics |
| Day09Vis.Part2Fixed | day09vis/src/main.rs:48-94 | the same search with the corrected test of the comment at line 80: the corners of the best rectangle no edge passes through |
| Day09Vis.Part2With | day09vis/src/main.rs:48-94 | for a test that panics only on slanted edges, the corners returned are those of the best uncut rectangle, and an axis-aligned polygon gets nothing only when every rectangle is cut |
| Day09Vis.Search | day09vis/src/main.rs:63-91 | the loop stops at the first candidate the test finds no cut in, having passed only cut ones; a panic means some edge is not axis-aligned |
| Day10.XorMember | day10/src/main.rs:52 | a light is on after `^` exactly when it was on in one operand but not both |
| Day10.XorCancel | day10/src/main.rs:52 | pressing the same button twice undoes it |
| Day10.Target | day10/src/main.rs:24-28 | the target has exactly the lit indicators' bits; it fails exactly when a lit indicator sits at bit 64 or beyond, where the shift panics |
| Day10.ButtonMask | day10/src/main.rs:33 | a button's mask has exactly the listed lights; it fails exactly when a listed light is 64 or beyond |
| Day10.Buttons | day10/src/main.rs:30-34 | the masks succeed exactly when every button's does, one mask per button, in order |
| Day10.ReachNone | day10/src/main.rs:45-46 | zero presses reach only the all-off state |
| Day10.ReachStep | day10/src/main.rs:51-52 | one more press of any button reaches the toggled state |
| Day10.ReachBack | day10/src/main.rs:48-62 | a state reached in `k + 1` presses is one press from a state reached in `k` |
| Day10.StatesPush | day10/src/main.rs:60 | pushing an entry adds its state to the queued states |
| Day10.StatesOut | day10/src/main.rs:58 | a state no entry carries is not queued |
| Day10.Union | day10/src/main.rs:51-62 | every button's lights lie within the union |
| Day10.SubsetCard | day10/src/main.rs:58-61 | a subset is no larger, and a proper subset is smaller |
| Day10.NewSeen | day10/src/main.rs:58-61 | seeing a new state adds one to the states seen |
| Day10.Advance | day10/src/main.rs:48-63 | once the queue holds only states past level `d`, every state at level `d` has been expanded |
| Day10.ExpandedAll | day10/src/main.rs:48-65 | with an empty queue every reachable state has been expanded |
| Day10.NotSooner | day10/src/main.rs:54-56 | a target no expanded state reaches in one press is out of reach in `d` presses or fewer |
| Day10.NewIsDist | day10/src/main.rs:58-61 | a state first seen one press past level `d` is at distance `d + 1` |
| Day10.OuterPop | day10/src/main.rs:48-49 | the state popped is at the distance its entry carries |
| Day10.InnerSkip | day10/src/main.rs:58 | skipping a state already seen keeps the search state |
| Day10.InnerPush | day10/src/main.rs:58-61 | queueing a new state keeps the search state, with the state at the next distance |
| Day10.InnerDone | day10/src/main.rs:51-62 | after all buttons the state counts as expanded, and the level moves on when its states are used up |
| Day10.Expand | day10/src/main.rs:51-62 | a press landing on the target means the fewest presses is one more than the level; otherwise every neighbour is seen and each new one queued once |
| Day10.FewestPresses | day10/src/main.rs:41-66 | an answer is the fewest positive number of presses reaching the target; none is found, where the source panics, exactly when no positive number of presses reaches it |
| Day10.Presses | day10/src/main.rs:23-36 | a machine's answer is its fewest presses; none when its masks or its search panic |
| Day10.AnswersSnoc | day10/src/main.rs:21-38 | one more machine answered extends the answers in order |
| Day10.AnsweredNoPanic | day10/src/main.rs:20-39 | a machine with a fewest press count is not one on which `part1` panics |
| Day10.Part1 | day10/src/main.rs:20-39 | the result is the sum of each machine's fewest presses, and it panics exactly when some machine has no answer (a button index past bit 63 or an unreachable target) |
| Day10.Indicators | day10/src/main.rs:95-104 | no more lights than characters |
| Day10.TrimMatches | day10/src/main.rs:109 | the trimmed token neither starts nor ends with a delimiter, and is no longer |
| Day10.TrimStart | day10/src/main.rs:109 | trimming the start leaves a suffix not starting with a delimiter |
| Day10.TrimEnd | day10/src/main.rs:109 | trimming the end leaves a prefix not ending with a delimiter |
| Day10.Numbers | day10/src/main.rs:110-112 | one number per comma-separated piece |
| Day10.InputTransform | day10/src/main.rs:92-128 | fewer than two tokens are rejected, where the source panics; otherwise the first token gives the indicators and every middle token one button |
| Day10.FromTokens | day10/src/main.rs:93-127 | fewer than two tokens are rejected; otherwise the first token gives the indicators and the others but the last one button each |
| Day10.Schematics | day10/src/main.rs:114-121 | one button per token |
| Day10.WordsShape | day10/src/main.rs:93 | a written machine has the indicator word, one word per button and the joltage word |
| Day10.IndicatorsAppend | day10/src/main.rs:98-104 | reading indicators distributes over concatenation |
| Day10.IndicatorsOfLamps | day10/src/main.rs:98-104 | written lights read back as the same lights |
| Day10.LampsChars | day10/src/main.rs:99-103 | written lights are only `#` and `.` |
| Day10.JoinListChars | day10/src/main.rs:110 | numbers joined by commas hold only digits and commas |
| Day10.Digits | day10/src/main.rs:110-111 | one decimal piece per number, without commas |
| Day10.NumberListRoundTrip | day10/src/main.rs:110-112 | a written non-empty list of numbers is one token and reads back |
| Day10.NumbersOfDigits | day10/src/main.rs:110-112 | decimal pieces joined by commas read back as the numbers |
| Day10.TrimWrapped | day10/src/main.rs:109 | trimming the delimiters around a token gives the token back |
| Day10.WrappedNumbers | day10/src/main.rs:106-119 | a non-empty list inside its delimiters reads back |
| Day10.FirstWord | day10/src/main.rs:95-104 | the written indicator word is one token and reads back as the lights |
| Day10.WordsTokens | day10/src/main.rs:93 | the written machine splits into the words it was written from |
| Day10.WordsPlain | day10/src/main.rs:93 | every word is non-empty and free of spaces |
| Day10.SchematicWords | day10/src/main.rs:114-121 | each button's word reads back as that button |
| Day10.InputTransformRoundTrip | day10/src/main.rs:92-128 | round trip: a machine whose buttons and joltages each list a number reads back from its written form |
| Day10.FromWords | day10/src/main.rs:93-127 | tokens that each read back as their part give the machine |
| Day10.SchematicsOf | day10/src/main.rs:114-121 | tokens that each read back as a button give the buttons |
| Day11.Walk1 | day11/src/main.rs:23-58 | the memoised walk returns the number of routes from the device to `out`, and every count it records is that device's route count |
| Day11.Part1 | day11/src/main.rs:17-21 | part 1 is the number of routes from `you` to `out` |
| Day11.Enter | day11/src/main.rs:74-78 | entering `fft` or `dac` sets its flag and keeps the other |
| Day11.Walk2 | day11/src/main.rs:66-113 | the memoised walk returns the number of routes to `out` that have passed both `fft` and `dac`, and every count it records, keyed by device and flags, is the right one |
| Day11.Via2Next | day11/src/main.rs:83-109 | one more output adds the routes counted through it |
| Day11.Part2 | day11/src/main.rs:60-64 | part 2 is the number of routes from `svr` to `out` through both `fft` and `dac` |
| Day11.BothPassed | day11/src/main.rs:86-88 | once both devices are passed every route counts: part 2's count equals part 1's |
| Day11.BothPassedVia | day11/src/main.rs:83-109 | the same through a list of outputs |
| Day11.FewerRoutes | day11/src/main.rs:17-113 | part 2 counts some of the routes part 1 counts, never more |
| Day11.FewerRoutesVia | day11/src/main.rs:83-109 | the same through a list of outputs |
| Day11.TrimColons | day11/src/main.rs:125 | trimming leaves a prefix not ending in `:`, and only colons are cut |
| Day11.InputTransform | day11/src/main.rs:122-130 | a blank line is rejected, where the source panics; otherwise the first token without its colons names the device and the other tokens are its outputs |
| Day11.InputTransformRoundTrip | day11/src/main.rs:122-130 | round trip: a device and its outputs written `name: a b c` read back as given |
| Day11.CreateMap | day11/src/main.rs:132-140 | the map has exactly the devices named on some line, each with the outputs of the last line naming it |
| Day11.Example1Ranked | day11/src/tests.rs:5-16 | the first example has no cycles: a ranking exists |
| Day11.ViaSnoc | day11/src/main.rs:27-53 | one more output adds one route for `out`, the output's own routes otherwise |
| Day11.PathsOut | day11/src/main.rs:30-32 | a device sending only to `out` has one route |
| Day11.PathsOne | day11/src/main.rs:27-53 | a device with one output has that output's routes |
| Day11.PathsTwo | day11/src/main.rs:27-53 | a device with two outputs has the routes of both |
| Day11.PathsThree | day11/src/main.rs:27-53 | a device with three outputs has the routes of all three |
| Day11.Example1Leaves | day11/src/tests.rs:10-12 | in the first example `ddd`, `eee` and `fff` have one route each |
| Day11.Example1Middle | day11/src/tests.rs:8-9 | in the first example `bbb` has 2 routes and `ccc` has 3 |
| Day11.Example1Routes | day11/src/tests.rs:34-38 | the first example has 5 routes from `you` |
| Day11.Example2Ranked | day11/src/tests.rs:18-32 | the second example has no cycles: a ranking exists |
| Day11.Paths2One | day11/src/main.rs:83-109 | a device with one output has that output's counted routes, with the flags after the device |
| Day11.Paths2Two | day11/src/main.rs:83-109 | a device with two outputs has the counted routes of both |
| Day11.Paths2Ends | day11/src/main.rs:86-88 | two outputs each sending only to `out` give 2 routes when both flags are set, none otherwise |
| Day11.Example2Tail | day11/src/tests.rs:29-31 | in the second example `fff` has 2 counted routes exactly when both flags are set |
| Day11.Example2Branches | day11/src/tests.rs:24-27 | `eee` counts 2 routes when `fft` was passed, `ddd` none without `dac` |
| Day11.Example2Middle | day11/src/tests.rs:24 | `ccc` counts 2 routes when `fft` was passed |
| Day11.Example2Upper | day11/src/tests.rs:19-23 | from `aaa` 2 routes are counted, from `bbb` none |
| Day11.Example2Routes | day11/src/tests.rs:40-42 | the second example has 2 routes from `svr` through both `fft` and `dac` |
| Day12.Cell | day12/src/main.rs:201-221 | the cell of the input grid that feeds row `r`, bit `b` of orientation `o` lies inside the 3 by 3 grid |
| Day12.Target | day12/src/main.rs:201-221 | the row and bit that grid cell `(y, x)` sets in orientation `o` lie inside the 3 by 3 mask |
| Day12.TargetOnly | day12/src/main.rs:201-221 | each orientation is a bijection of the nine cells: the cell that feeds a bit is the one whose target it is |
| Day12.OrientRow | day12/src/main.rs:201-221 | a row of an orientation holds exactly the bits below 3 whose source cell is `#` |
| Day12.Orientation | day12/src/main.rs:201-221 | an orientation is a mask of three rows |
| Day12.PartialMask | day12/src/main.rs:201-221 | the mask after visiting the cells before `(x, y)` has three rows |
| Day12.PartialBit | day12/src/main.rs:201-221 | after visiting the cells before `(x, y)` a bit is set exactly when it is fed by a visited `#` cell |
| Day12.NextColumn | day12/src/main.rs:201-202 | finishing a column and starting the next one leave the mask as it was |
| Day12.NextCell | day12/src/main.rs:203-219 | the set-bit characterisation survives visiting one more cell |
| Day12.MarkBit | day12/src/main.rs:205-217 | setting a cell's target bit sets that bit and no other |
| Day12.PartialEnds | day12/src/main.rs:201-221 | before the visit the masks are empty, and after all nine cells each is the full orientation |
| Day12.CheckUnique | day12/src/main.rs:237-245 | the mask is appended exactly when no equal mask is already in the list, which is otherwise unchanged |
| Day12.Unique | day12/src/main.rs:225-232 | the masks kept from an offered list have no repeats, are the same set as the list and start with its first mask |
| Day12.Orientations | day12/src/main.rs:225-232 | the eight orientations are offered in `build_shape`'s fixed order |
| Day12.FirstOrientations | day12/src/main.rs:225-232 | the first `n` orientations in that order |
| Day12.ShapeOf | day12/src/main.rs:188-235 | a shape is built exactly when the grid holds three rows of at least three cells, otherwise the indexing panics |
| Day12.UniqueStep | day12/src/main.rs:237-245 | offering one more mask keeps the list when the mask is there and appends it otherwise |
| Day12.Orient | day12/src/main.rs:188-221 | the column-by-column visit builds the eight orientations of the grid |
| Day12.OrientationsListed | day12/src/main.rs:225-232 | the orientation list is the eight orientations spelled out |
| Day12.VisitColumn | day12/src/main.rs:201-221 | visiting one column brings all eight masks to their state after that column |
| Day12.VisitCell | day12/src/main.rs:203-219 | visiting one cell brings all eight masks to their state after that cell |
| Day12.BuildShape | day12/src/main.rs:188-235 | `build_shape` returns the distinct orientations of the grid and its count of `#` cells |
| Day12.RowBits | day12/src/main.rs:201-221 | an orientation row only uses bits 0 to 2 |
| Day12.HashCountNine | day12/src/main.rs:203-219 | the area is the number of `#` among the nine cells |
| Day12.ColumnCount | day12/src/main.rs:201-221 | counting one more column adds its three cells |
| Day12.OrientationBits | day12/src/main.rs:201-221 | every bit of an orientation is below 3 and it sets as many bits as the grid has `#` cells |
| Day12.OrientationRows | day12/src/main.rs:201-221 | every bit of every row of an orientation is below 3 |
| Day12.OrientationArea | day12/src/main.rs:188-235 | every orientation sets as many bits as the grid has `#` cells |
| Day12.CellSum | day12/src/main.rs:201-221 | the nine cells an orientation reads are the nine cells of the grid |
| Day12.ShapeMasks | day12/src/main.rs:188-235 | a built shape has one to eight distinct masks, the first the grid as read, exactly the grid's orientations, each of three rows of bits 0 to 2 with as many bits as the shape's area |
| Day12.AsRead | day12/src/main.rs:203-219 | the first orientation is the grid as read: bit `x` of row `y` is set exactly when cell `(y, x)` is `#` |
| Day12.ShapeArea | day12/src/main.rs:19-28 | the `u16` sum of count times area, None exactly when a count has no shape or the sum overflows |
| Day12.PassingSnoc | day12/src/main.rs:15-59 | the boards passing the area test grow by the last board exactly when it passes |
| Day12.PassingCount | day12/src/main.rs:55-58 | the count of passing boards grows by one exactly when the last board passes |
| Day12.PanicSnoc | day12/src/main.rs:19-28 | some board panics exactly when an earlier one or the last one does |
| Day12.Part1 | day12/src/main.rs:15-59 | without `prove`, the count of boards whose presents' area fits, None exactly when some board panics |
| Day12.ShiftRow | day12/src/main.rs:86-96 | a shifted row stays inside the 64 bits of a board line |
| Day12.Place | day12/src/main.rs:105-112 | placing a present keeps the board's height |
| Day12.Kinds | day12/src/main.rs:98-112 | the shapes the placements use, one per placement |
| Day12.SwapRemove | day12/src/main.rs:98-103 | removing one entry leaves the other entries as a multiset, one fewer |
| Day12.PackFirst | day12/src/main.rs:105-122 | an allowed placement of one available present followed by a packing of the rest packs them all |
| Day12.PacksCons | day12/src/main.rs:105-122 | an allowed placement followed by a packing of the board it leaves is a packing |
| Day12.KindsCons | day12/src/main.rs:98-122 | the placed present and the rest's kinds make up the available presents |
| Day12.TriedNext | day12/src/main.rs:76-80 | marking one more present at a position keeps `shapes_tried` to the positions visited |
| Day12.SkipTried | day12/src/main.rs:76-80 | a position already tried for the present hides no fresh placement of it |
| Day12.NoConfig | day12/src/main.rs:86-96 | a position where no orientation fits hides no fresh placement |
| Day12.NextLine | day12/src/main.rs:70-74 | finishing a board line moves the search to the next one with nothing missed |
| Day12.NoFreshFit | day12/src/main.rs:70-131 | after the whole search nothing fresh was missed, so no fresh placement exists |
| Day12.NoneFitsNext | day12/src/main.rs:86-96 | one more orientation that does not fit extends the orientations ruled out |
| Day12.NoneAllowed | day12/src/main.rs:86-96 | when no orientation fits at a position, no placement of the present there is allowed |
| Day12.SomeAllowed | day12/src/main.rs:86-96 | a fitting orientation is an allowed placement at that position |
| Day12.RemainingShapes | day12/src/main.rs:98-103 | after `swap_remove` every remaining present still names a shape |
| Day12.PlaceNext | day12/src/main.rs:98-122 | a success after placing one present and recursing is a packing of all available presents |
| Day12.TryConfigs | day12/src/main.rs:86-122 | a success at one position is a packing of all available presents |
| Day12.FoundFresh | day12/src/main.rs:86-96 | a fitting orientation at an untried position is a fresh placement |
| Day12.FitBoard | day12/src/main.rs:61-131 | a success is an order of allowed placements that uses each available present once; with one present it succeeds exactly when a fresh placement exists; with none it fails |
| Day12.Repeat | day12/src/main.rs:31-37 | `n` copies of one present index |
| Day12.Available | day12/src/main.rs:31-37 | the presents of a board each name one of its counted shapes |
| Day12.RepeatCount | day12/src/main.rs:31-37 | `n` copies hold the index `n` times and nothing else |
| Day12.AvailableCounts | day12/src/main.rs:31-37 | the presents hold each shape index as often as the board counts it |
| Day12.EmptyLines | day12/src/main.rs:38 | the starting board is `height` empty lines |
| Day12.PackedBy | day12/src/main.rs:29-53 | a packing that uses each present once shows the board can be packed |
| Day12.FreshIsAllowed | day12/src/main.rs:29-53 | with nothing tried, a fresh placement of a present is just an allowed one |
| Day12.ProveBoard | day12/src/main.rs:29-53 | a board counted by the packer can be packed with all its presents; a board with one present is counted exactly when it fits somewhere |
| Day12.JudgeBoard | day12/src/main.rs:17-53 | one board: the area verdict, then the packer's for a board that passes it |
| Day12.SettledNext | day12/src/main.rs:15-59 | judging one more board keeps every verdict so far right |
| Day12.SettledAll | day12/src/main.rs:15-59 | the boards counted with `prove` are among those passing the area test, so the count is at most part 1's |
| Day12.Part1Proved | day12/src/main.rs:15-59 | with `prove`, the count of boards the packer packs, panicking exactly when part 1 does, never above the area count, each counted board packable, a one-present board counted exactly when it fits |
| Day12.ParseCounts | day12/src/main.rs:172-179 | the counts parse exactly when every piece is a `usize`, one count per piece |
| Day12.ParseBoard | day12/src/main.rs:164-180 | a parsed board line had a `:` and lists at least one count |
| Day12.Decimals | day12/src/main.rs:172-179 | the decimal text of each count |
| Day12.JoinDigits | day12/src/main.rs:172-179 | counts written with single spaces start and end with a digit |
| Day12.CountsRoundTrip | day12/src/main.rs:172-179 | the counts written after a `:` read back as the same counts |
| Day12.CountsPieces | day12/src/main.rs:172-179 | trimming and splitting the written counts gives back their pieces |
| Day12.ParseDecimals | day12/src/main.rs:172-179 | each count's decimal text reads back as the count |
| Day12.BoardLineSplits | day12/src/main.rs:164-171 | a written board line splits at its `:` and its `x` into the width, height and count texts |
| Day12.BoardRoundTrip | day12/src/main.rs:164-180 | a board written as `WxH: c0 c1 ...` reads back as the same board |
| Day12.MapBoards | day12/src/main.rs:162-181 | every line of a boards section parsed in turn |
| Day12.ParseSection | day12/src/main.rs:150-181 | a parsed section has lines, and a boards section has one board per line |
| Day12.LastBoardsSnoc | day12/src/main.rs:150-184 | a shape section after the last boards section keeps those boards the last |
| Day12.Sections | day12/src/main.rs:146-186 | the sections fold to None exactly when one panics; the shapes are the shape sections' and the boards are the last boards section's, or none |
| Day12.InputTransform | day12/src/main.rs:146-186 | every mask of every parsed shape has three rows; its sections read back by `ShapeSectionRoundTrip` (shapes) and `BoardsSectionRoundTrip` (boards) |
| Day12.SectionShapes | day12/src/main.rs:150-159 | every shape section's masks have three rows |
| Day12.FormatBoards | day12/src/main.rs:162-181 | one written line per board |
| Day12.BoardLinePlain | day12/src/main.rs:150-151 | a written board line has no line break and does not end with `:`, so it is not taken for a shape header |
| Day12.BoardsSectionRoundTrip | day12/src/main.rs:150-181 | the written lines of some boards read back as a boards section of those boards |
| Day12.BoardLines | day12/src/main.rs:150-180 | every written board line is plain, does not end with `:` and reads back as its board |
| Day12.BoardLinesPlain | day12/src/main.rs:150-151 | every written board line has no line break and does not end with `:` |
| Day12.BoardLinesParse | day12/src/main.rs:164-180 | every written board line reads back as its board |
| Day12.SectionOfBoards | day12/src/main.rs:150-181 | a section whose first line does not end with `:` and whose lines each parse as a board is that boards section |
| Day12.CollectBoards | day12/src/main.rs:162-181 | collecting the parsed written lines gives the boards back |
| Day12.BoardsSection | day12/src/main.rs:150-181 | a section whose first line does not end with `:` and whose parsed lines collect to boards is that boards section |
| Day12.ShapeSectionRoundTrip | day12/src/main.rs:150-159 | a shape section written as its `i:` header and three rows of `#` and `.` reads back as the shape `build_shape` makes of that grid |
| Common.DecimalString | day12/src/main.rs:176-177 | the decimal text of a number is non-empty and all digits |
| Common.ParseUnsigned | day05/src/main.rs:112-119 | an unsigned parse into a type whose largest value is `max` never yields more than `max` |
| Common.ParseSigned | day09/src/main.rs:81-86 | a signed parse never yields a value outside the type's range |
| Common.ParseUnsignedRoundTrip | day05/src/main.rs:112-119 | a number within the type's range written in decimal parses back to itself |
| Common.ParseUnsignedOverflow | day05/src/main.rs:112-119 | a number above the type's range written in decimal fails to parse, which panics at the `unwrap` |
| Common.ParseSignedRoundTrip | day09/src/main.rs:81-86 | a signed number within the type's range written in decimal parses back to itself |
| Common.Split | day02/src/main.rs:87 | `str::split` always yields at least one piece |
| Common.SplitFirstPrefix | day02/src/main.rs:87 | the first piece is a prefix of the string |
| Common.SplitPiecesFree | day12/src/main.rs:150 | no piece contains the pattern |
| Common.JoinSplit | day12/src/main.rs:150 | joining the pieces with the pattern gives back the string |
| Common.JoinSplitAtPattern | day12/src/main.rs:150 | the round trip holds when the string starts with the pattern |
| Common.JoinSplitAtChar | day12/src/main.rs:150 | the round trip holds when the string does not start with the pattern |
| Common.SplitJoin | day08/src/main.rs:148 | pieces free of a one-character separator, joined with it, split back into the same pieces |
| Common.SplitNoSep | day08/src/main.rs:148 | a string without the separator is a single piece |
| Common.SplitOnce | day09/src/main.rs:81 | `split_once` splits the string into the part before the pattern, the pattern and the part after |
| Common.SplitOnceEarliest | day05/src/main.rs:107 | the split is at the first occurrence of the pattern |
| Common.SplitOnceFirst | day12/src/main.rs:165-167 | a string whose first part has no separator character splits after that part |
| Common.SplitOnceAt | day05/src/main.rs:107 | a string whose first part holds no occurrence of the pattern splits after that part |
| Common.Tokens | day06/src/main.rs:78-94 | `split_ascii_whitespace` of text that starts with a non-space yields a first token that is a prefix of the text |
| Common.TokensPlain | day06/src/main.rs:78-94 | every token is non-empty and has no ASCII space |
| Common.TokensOfJoin | day06/src/main.rs:78-94 | words without spaces joined by single spaces split back into the same words |
| Common.TokensOfWord | day06/src/main.rs:78-94 | a word followed by a space-led tail is the first token |
| Common.Trim | day12/src/main.rs:170 | the trimmed text neither starts nor ends with whitespace in the sense of `char::is_whitespace`, Unicode's White_Space property, the vertical tab included |
| Common.TrimPadded | day12/src/main.rs:170 | text padded with whitespace trims back to the text |
| Common.StrLinesOfJoin | day06/src/main.rs:77 | `str::lines` of plain lines joined by `\n`, with or without a final `\n`, gives back the lines |
| Common.JoinHasNoBlankLine | day05/src/main.rs:107 | plain lines joined by `\n` contain no blank line and do not end with `\n` |
| Common.SplitAtBlankLine | day05/src/main.rs:107 | plain lines followed by a blank line split at that blank line |
| Common.Collect | day12/src/main.rs:172-174 | collecting the results of a closure that may panic succeeds exactly when every one succeeds, keeping their order |
| Common.Interval | day05/src/main.rs:113 | a `RangeInclusive` holds exactly the values from its start to its end |
| Common.Range | aoc/src/gif/region.rs:52 | the values from `lo` to `hi` in order, as many as the range holds |

## Left out

- Files and the encoder: `File::create`, the `gif` crate's `Encoder`, `set_repeat` and `write_frame` (aoc/src/gif/mod.rs:37-40, 123, 146). The encoder is the abstract `Emitted` sequence, and a write either appends its record or fails.
- GifWriter.Gif.New: the writer cannot fail to be created. The `u16` products `width * x_scale` and `height * y_scale` are a precondition rather than an overflow.
- `last_frame` follows the code rather than the written description of the writer. It is replaced only in the changed branch and only after `write_frame` succeeds (aoc/src/gif/mod.rs:123-126); a failed write leaves it as it was.
- The memory map, the file-path fallback and the UTF-8 check of aoc/src/input/mmap.rs are not modelled. The content is taken as a string, and aoc/src/input/mod.rs, which only glues files to the transforms, is not part of this model.
- Every `main` and every `println!` (for example day12/src/main.rs:41 and day04vis/src/main.rs:33): console output only.
- The example answers of the tests of days 1 to 10 and 12 (for example 357 and 3121910778619 for day 3) are not evaluated as lemmas. Checking them would mean unfolding the solvers over the whole example input in the prover. Day 11's examples are proved (`Day11.Example1Routes`, `Day11.Example2Routes`).
- Release-build wrap-around: where an operation overflows, the model follows the debug build, which panics. Examples are day 3's `u8` joltage (`None` from `Day03.Part1`), day 6's `u64` folds, day 12's `u16` area and day 4vis's `u16` removal counter.
- Sums that the source keeps in a `u64` and that the model leaves unbounded:
  - day 2's `result`;
  - day 3's totals (`Day03.Part2`);
  - day 7's split count and timeline total;
  - day 8's product of circuit sizes (`Day08.Part1`);
  - day 10's sum of presses;
  - day 11's route counts.
- Day09.Part1: pair areas are unbounded. Day09.Part2, Day09Vis.Part2 and Day09Vis.Part2Fixed require `AreasFit`, that every area fits a `u64`, because they sort a `u64` vector.
- Day09Vis.Part1 and Day09Vis.Part1Pair: pair areas are unbounded too, where `(abs_diff + 1) * (abs_diff + 1)` (day09vis/src/main.rs:35) is a `u64` product that panics on overflow in a debug build.
- Floating point:
  - Day 8's `distance_to` and the `partial_cmp` sort of `build_edges` (day08/src/main.rs:108-143): the sorted edge list is an input to `Day08.Part1` and `Day08.Part2`.
  - Day 9's floating-point `line_segment_intersects_rect` (day09/src/main.rs:91-151) is the parameter `cuts` of `Day09.Part2`.
  - The SVG drawing of day 9vis (day09vis/src/main.rs:137-208).
- The day 10 part 2 stub `fewest_presses2` (day10/src/main.rs:68-81), which returns 0, and the template crate.
- Day01.InputTransform and the cutters of day 6 slice strings by character, where Rust slices by byte. They agree on ASCII input; a split inside a multi-byte character, which panics in Rust, is not modelled.
- `HashSet` and `HashMap` are Dafny sets and maps. Their iteration order is not modelled: the sums and unions of days 7, 8, 10 and 11 do not depend on it.
- Day04.Part1, Day04.AdjacentCoords, Day04.Adjacent, Day04.AdjacentCount, Day04.Part2 and Day04Vis.Part2 require a rectangular grid (`IsGrid`), as the source's indexing `board[y][x]` with the first row's width assumes. On a ragged board `part1` (day04/src/main.rs:16-30) still answers when no neighbour index falls past a shorter row, for example 3 on `["@", "@@"]`, and panics otherwise; ragged boards are outside the model.
- Day04Vis.Part2 requires that the 5× canvas fits `u16` (`CellSize * width` and `CellSize * height`), where the source's `as u16` casts would truncate.
- Day07.Part2: its result adds up the timeline counts of columns `0..=width` (`Total` with that bound), where the source sums the map's values. `Day07.Step2Below` shows that no beam leaves those columns.
- Day10 light states are sets of bit positions rather than `u64` values. A button index of 64 or more, where `1 << i` panics, gives `None`.
- Day11.Part1 and Day11.Part2 require a ranking that shows the device graph has no cycle reachable from the start. On a cycle the source recurses without end and overflows its stack; that case is not modelled.
- Day12.FitBoard and Day12.Part1Proved require `FitDefined` for every board that passes the area test: a height of at least 2, a width of at least 2 when the height is above 2, and a width of at most 66. A height below 2 underflows `height - 2` (day12/src/main.rs:70). A width below 2 underflows `width - 2` once the row loop runs (line 71). A width above 66 makes the first shift `width - x - 3` (line 72) pass bit 63, and `<<` panics. `width - x - 3` itself never underflows, since `x < width - 2`.
- Day12.FitDefined over-requires a width of at most 66 in two cases where the source does not panic: a board of height 2, whose row loop never runs, and a call that never reaches `<<` at a wide shift: no presents left, every present already tried at those positions, or shapes without configurations. Those boards are outside the model.
- Day12.FitBoard: the boards are values, which matches the source's clone-per-placement. `shapes_tried` is a set. Its contract states two things. Soundness: a success is a packing of every present. Completeness for a single present. Completeness for several presents is not claimed: each deeper call inherits the positions its callers tried and skips them, so the search is not exhaustive.
- Day12.Part1Proved: a board with no presents is never counted in prove mode, because `fit_board` with nothing available returns false.
- Day08.Merge is total: when a junction is in no circuit it leaves the circuits unchanged (a catch-all case). Under the partition invariant that case cannot arise, so the source's `unwrap` never panics.
- Day03.Part2: that the 12 greedy picks are the largest 12-digit subsequence is not proved. Its contract states the picks and their decimal value, and `Day03.PicksAreOrdered` states their order on digits 1 to 9.
- Day02.ParseSpans: states only the number of spans and the `u64` bounds of each, not that span `i` is parsed from piece `i`. The round trip `Day02.ParseFormatSpans` covers spans written in decimal.

## Findings

| source | as written | input that shows it | evidently intended | confidence | as-written member | corrected member |
|---|---|---|---|---|---|---|
| day03/src/main.rs:61-69 | the window fold starts at `(0, 0)` and keeps the first strictly larger digit, so a window of zeros answers absolute position 0, before the window | the bank `0 9 0 0 0 0 0 0 0 0 0 0 0`: the first three picks are at positions 1, 0, 1, so the picked digits are not a subsequence of the bank | a window of zeros answers its own first position | not executed | Day03.AllZeroWindowRestarts | Day03.PickAllFixed |
| day09vis/src/main.rs:101-112 | a horizontal edge cuts the rectangle only when one end lies strictly inside its x-span or the edge straddles a side; an edge whose ends lie on both sides misses all three, and `part2` searches with this test | the edge `(0, 5)`–`(10, 5)` against the rectangle `(0, 0)`–`(10, 10)` runs through its inside, yet the test answers no | the edge's x-span overlaps the rectangle's open x-span, so that an edge cuts exactly when it passes through the inside | not executed | Day09Vis.IntersectsMissesSpanningEdge, Day09Vis.Part2 | Day09Vis.CrossesMeansInside, Day09Vis.Part2Fixed |
