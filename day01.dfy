/**
 * Day 1 of aoc2025 (day01/src/main.rs): a dial numbered 0 to 99 starts at
 * 50 and is turned left or right by the given number of clicks. Part 1
 * counts the turns that leave the dial at 0; part 2 counts every single
 * click that lands on 0.
 */
module Day01 {
  import opened Common

  /** One line of input: a direction and a `u16` number of clicks. */
  datatype Rotation = Left(amount: U16) | Right(amount: U16)

  /** The position the dial starts at. */
  const Start: int := 50

  /** `input_transform`: `L<n>` or `R<n>`; None where the source panics. */
  function InputTransform(line: string): (r: Option<Rotation>)
    ensures r.Some? ==> |line| >= 2 && (line[0] == 'L' || line[0] == 'R')
    ensures r.Some? ==> (r.value.Left? <==> line[0] == 'L')
    ensures r.Some? ==> ParseUnsigned(line[1..], U16_MAX) == Some(r.value.amount as nat)
  {
    if line == [] then None
    else
      match ParseUnsigned(line[1..], U16_MAX)
      case None => None
      case Some(n) =>
        if line[0] == 'L' then Some(Left(n))
        else if line[0] == 'R' then Some(Right(n))
        else None
  }

  /** The line a rotation is written as. */
  function Format(r: Rotation): string
  {
    match r
    case Left(n) => "L" + DecimalString(n)
    case Right(n) => "R" + DecimalString(n)
  }

  /** `input_transform` reads every rotation back from its written form. */
  lemma InputTransformFormat(r: Rotation)
    ensures InputTransform(Format(r)) == Some(r)
  {
    var s := Format(r);
    assert s[1..] == DecimalString(r.amount);
    ParseUnsignedRoundTrip(r.amount, U16_MAX);
  }

  /** A line starting with anything other than `L` or `R` is rejected. */
  lemma InputTransformBadDirection(line: string)
    requires line != [] && line[0] != 'L' && line[0] != 'R'
    ensures InputTransform(line) == None
  {
  }

  /** The signed number of clicks of a rotation. */
  function Count(r: Rotation): int
  {
    match r
    case Left(n) => -(n as int)
    case Right(n) => n as int
  }

  /** The position after a rotation: `(pos ± amount).rem_euclid(100)`. */
  function Turn(pos: int, r: Rotation): (p: int)
    ensures 0 <= p < 100
  {
    (pos + Count(r)) % 100
  }

  /** The dial position after all the rotations, starting from 50. */
  function Position(moves: seq<Rotation>): (p: int)
    ensures 0 <= p < 100
  {
    if moves == [] then Start else Turn(Position(moves[..|moves| - 1]), moves[|moves| - 1])
  }

  /** The number of rotations after which the dial reads 0. */
  function ZerosSeen(moves: seq<Rotation>): nat
  {
    if moves == [] then 0
    else ZerosSeen(moves[..|moves| - 1]) + (if Position(moves) == 0 then 1 else 0)
  }

  /** `part1`: counts the rotations that leave the dial at 0. */
  method Part1(input: seq<Rotation>) returns (password: nat)
    ensures password == ZerosSeen(input)
  {
    var curPos := Start;
    password := 0;
    for i := 0 to |input|
      invariant curPos == Position(input[..i])
      invariant password == ZerosSeen(input[..i])
    {
      assert input[..i + 1][..i] == input[..i];
      match input[i] {
        case Left(amount) => curPos := (curPos - amount) % 100;
        case Right(amount) => curPos := (curPos + amount) % 100;
      }
      assert curPos == Position(input[..i + 1]);
      if curPos == 0 {
        password := password + 1;
      }
    }
    assert input[..|input|] == input;
  }

  /** No more rotations end at 0 than there are rotations. */
  lemma {:induction false} ZerosSeenBound(moves: seq<Rotation>)
    ensures ZerosSeen(moves) <= |moves|
  {
    if moves != [] {
      ZerosSeenBound(moves[..|moves| - 1]);
    }
  }

  /**
   * The number of the first `n` single clicks from `pos`, each by `add`,
   * after which the dial reads 0.
   */
  function ZeroHits(pos: int, add: int, n: nat): nat
  {
    if n == 0 then 0
    else ZeroHits(pos, add, n - 1) + (if (pos + add * n) % 100 == 0 then 1 else 0)
  }

  /** The clicks of all the rotations that land on 0, starting from 50. */
  function ClicksOnZero(moves: seq<Rotation>): nat
  {
    if moves == [] then 0
    else
      var front := moves[..|moves| - 1];
      var m := moves[|moves| - 1];
      ClicksOnZero(front) + ZeroHits(Position(front), if Count(m) < 0 then -1 else 1, m.amount)
  }

  /**
   * `part2`: turns the dial one click at a time, wrapping -1 to 99 and
   * 100 to 0, and counts the clicks that land on 0. After each rotation
   * the dial is where `part1` puts it.
   */
  method Part2(input: seq<Rotation>) returns (password: nat)
    ensures password == ClicksOnZero(input)
  {
    var curPos := Start;
    password := 0;
    for i := 0 to |input|
      invariant curPos == Position(input[..i])
      invariant password == ClicksOnZero(input[..i])
    {
      assert input[..i + 1][..i] == input[..i];
      var pos, hits := Rotate(curPos, Count(input[i]));
      assert Count(input[i]) < 0 ==> -Count(input[i]) == input[i].amount;
      curPos := pos;
      password := password + hits;
    }
    assert input[..|input|] == input;
  }

  /**
   * The inner `for _ in 0..count.abs()` loop of `part2`: one click at a
   * time from `start`, counting the clicks that land on 0.
   */
  method Rotate(start: int, count: int) returns (pos: int, hits: nat)
    requires 0 <= start < 100
    ensures pos == (start + count) % 100
    ensures hits == ZeroHits(start, if count < 0 then -1 else 1, if count < 0 then -count else count)
  {
    var add := if count < 0 then -1 else if count > 0 then 1 else 0;
    var dir := if count < 0 then -1 else 1;
    var steps := if count < 0 then -count else count;
    pos, hits := start, 0;
    for k := 0 to steps
      invariant pos == (start + dir * k) % 100
      invariant hits == ZeroHits(start, dir, k)
    {
      ClickStep(pos, dir, start + dir * k);
      assert start + dir * k + dir == start + dir * (k + 1);
      pos := pos + add;
      if pos == -1 {
        pos := 99;
      } else if pos == 100 {
        pos := 0;
      }
      if pos == 0 {
        hits := hits + 1;
      }
    }
    assert dir * steps == count;
  }

  /** One click from `p`, wrapping -1 to 99 and 100 to 0, is one step further round the dial. */
  lemma ClickStep(p: int, dir: int, q: int)
    requires 0 <= p < 100 && (dir == 1 || dir == -1) && p == q % 100
    ensures var c := p + dir; (if c == -1 then 99 else if c == 100 then 0 else c) == (q + dir) % 100
  {
  }

  /** Where the clicks that land on 0 are counted from: the distance to 0 going in the direction turned. */
  function Offset(pos: int, add: int): int
  {
    if add == 1 then pos else (100 - pos) % 100
  }

  /**
   * Closed form of the click count: turning `n` clicks from `pos` passes 0
   * once per full 100 clicks counted from the distance to 0.
   */
  lemma {:induction false} ZeroHitsClosedForm(pos: int, add: int, n: nat)
    requires 0 <= pos < 100 && (add == 1 || add == -1)
    ensures ZeroHits(pos, add, n) == (Offset(pos, add) + n) / 100
  {
    if n > 0 {
      ZeroHitsClosedForm(pos, add, n - 1);
      HitAt(pos, add, n);
      DivStep(Offset(pos, add) + n);
    }
  }

  /** Click `n` lands on 0 exactly when the distance to 0 plus `n` is a multiple of 100. */
  lemma HitAt(pos: int, add: int, n: nat)
    requires 0 <= pos < 100 && (add == 1 || add == -1)
    ensures (pos + add * n) % 100 == 0 <==> (Offset(pos, add) + n) % 100 == 0
  {
    if add == -1 {
      var c := if pos == 0 then 0 else 100;
      assert add * n + n == 0;
      assert Offset(pos, add) + n == c - (pos - n);
      ModNegate(pos - n, c);
    }
  }

  /** `x` and `c - x` are multiples of 100 together when `c` is 0 or 100. */
  lemma ModNegate(x: int, c: int)
    requires c == 0 || c == 100
    ensures x % 100 == 0 <==> (c - x) % 100 == 0
  {
    var q, r := x / 100, x % 100;
    assert x == 100 * q + r;
    if r == 0 {
      assert c - x == 100 * (c / 100 - q);
    } else {
      assert c - x == 100 * (c / 100 - q - 1) + (100 - r);
    }
  }

  /** Counting one more: `x / 100` grows by one exactly at the multiples of 100. */
  lemma DivStep(x: int)
    requires x >= 1
    ensures x / 100 == (x - 1) / 100 + (if x % 100 == 0 then 1 else 0)
  {
  }

  /**
   * Every rotation that ends on 0 has its last click land on 0, so when no
   * rotation is of zero clicks `part1` counts no more than `part2`.
   */
  lemma {:induction false} Part1AtMostPart2(moves: seq<Rotation>)
    requires forall i :: 0 <= i < |moves| ==> moves[i].amount >= 1
    ensures ZerosSeen(moves) <= ClicksOnZero(moves)
  {
    if moves != [] {
      var front := moves[..|moves| - 1];
      var m := moves[|moves| - 1];
      Part1AtMostPart2(front);
      var add := if Count(m) < 0 then -1 else 1;
      if Position(moves) == 0 {
        assert (Position(front) + add * m.amount) % 100 == 0;
        assert ZeroHits(Position(front), add, m.amount) >= 1;
      }
    }
  }

  /**
   * From the start position 50, one rotation of `n` clicks either way
   * lands on 0 once per 100 clicks counted from 50 (so `R1000` gives 10 and
   * `R1050` gives 11).
   */
  lemma {:induction false} SingleRotationFromStart(r: Rotation)
    ensures ClicksOnZero([r]) == (50 + r.amount) / 100
  {
    assert [r][..0] == [];
    ZeroHitsClosedForm(50, if Count(r) < 0 then -1 else 1, r.amount);
  }
}
