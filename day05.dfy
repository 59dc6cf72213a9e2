/**
 * Day 5 of aoc2025 (day05/src/main.rs): a list of inclusive ranges of
 * fresh ingredient ids and a list of ingredient ids. Part 1 counts the
 * ingredients that lie in some range; part 2 merges overlapping ranges
 * until none overlap and counts the ids they cover.
 */
module Day05 {
  import opened Common

  /** `RangeInclusive<u64>`: `start..=end`, holding nothing when `start > end`. */
  datatype Span = Span(start: U64, end: U64)

  predicate WellFormed(r: Span) { r.start <= r.end }

  predicate AllWellFormed(rs: seq<Span>) { forall i :: 0 <= i < |rs| ==> WellFormed(rs[i]) }

  /** `range.contains(x)` */
  predicate Contains(r: Span, x: int) { r.start <= x <= r.end }

  /** The ids a range holds. */
  function Members(r: Span): (m: set<int>)
    ensures forall x :: x in m <==> Contains(r, x)
  {
    Interval(r.start, r.end)
  }

  /** The two ranges have an id in common. */
  ghost predicate Share(r1: Span, r2: Span) { exists x :: Contains(r1, x) && Contains(r2, x) }

  // ---------------------------------------------------------------------------
  // combine_ranges

  /**
   * `combine_ranges`: the single range covering both when they overlap;
   * None otherwise. Whatever the ranges, a combined range holds exactly
   * the ids of the two.
   */
  function Combine(r1: Span, r2: Span): (r: Option<Span>)
    ensures r.Some? ==> forall x :: Contains(r.value, x) <==> Contains(r1, x) || Contains(r2, x)
    ensures r.Some? && WellFormed(r1) && WellFormed(r2) ==> WellFormed(r.value)
  {
    if r1.start < r2.start && r1.end >= r2.start then Some(Span(r1.start, Max(r1.end, r2.end)))
    else if r1.start <= r2.end && r1.end >= r2.end then Some(Span(Min(r1.start, r2.start), r1.end))
    else if r1.start >= r2.start && r1.end <= r2.end then Some(r2)
    else if r2.start >= r1.start && r2.end <= r1.end then Some(r1)
    else None
  }

  /** Two well-formed ranges combine exactly when they have an id in common. */
  lemma CombineIffShare(r1: Span, r2: Span)
    requires WellFormed(r1) && WellFormed(r2)
    ensures Combine(r1, r2).Some? <==> Share(r1, r2)
  {
    if Combine(r1, r2).Some? {
      var x := Max(r1.start, r2.start);
      assert Contains(r1, x) && Contains(r2, x);
    }
  }

  /** Ranges that only touch end to end (`3-5` and `6-8`) are not combined. */
  lemma AdjacentNotCombined(a: U64, b: U64, c: U64)
    requires a <= b && b + 1 <= c
    ensures Combine(Span(a, b), Span(b + 1, c)) == None
    ensures Combine(Span(b + 1, c), Span(a, b)) == None
  {
  }

  // ---------------------------------------------------------------------------
  // The ids a list of ranges covers

  /** The ids held by any of the ranges. */
  function Union(rs: seq<Span>): set<int>
  {
    if rs == [] then {} else Union(rs[..|rs| - 1]) + Members(rs[|rs| - 1])
  }

  /** `ranges.iter().any(|range| range.contains(x))` */
  predicate AnyContains(rs: seq<Span>, x: int)
  {
    exists i :: 0 <= i < |rs| && Contains(rs[i], x)
  }

  /** An id is in the union exactly when some range contains it. */
  lemma {:induction false} UnionIsAny(rs: seq<Span>, x: int)
    ensures x in Union(rs) <==> AnyContains(rs, x)
  {
    if rs != [] {
      var front := rs[..|rs| - 1];
      UnionIsAny(front, x);
      if AnyContains(front, x) {
        var i :| 0 <= i < |front| && Contains(front[i], x);
        assert Contains(rs[i], x);
      }
      if AnyContains(rs, x) && !Contains(rs[|rs| - 1], x) {
        var i :| 0 <= i < |rs| && Contains(rs[i], x);
        assert Contains(front[i], x);
      }
    }
  }

  /** Replacing one range by one holding its ids and `m` adds `m` to the union. */
  lemma UnionUpdate(rs: seq<Span>, j: nat, c: Span, m: set<int>)
    requires j < |rs| && Members(c) == Members(rs[j]) + m
    ensures Union(rs[j := c]) == Union(rs) + m
  {
    var updated := rs[j := c];
    forall x ensures x in Union(updated) <==> x in Union(rs) || x in m {
      UnionIsAny(updated, x);
      UnionIsAny(rs, x);
      if AnyContains(updated, x) {
        var i :| 0 <= i < |updated| && Contains(updated[i], x);
        if i != j {
          assert Contains(rs[i], x);
        }
      }
      if AnyContains(rs, x) {
        var i :| 0 <= i < |rs| && Contains(rs[i], x);
        if i != j {
          assert Contains(updated[i], x);
        } else {
          assert Contains(updated[j], x);
        }
      }
      if x in m {
        assert Contains(updated[j], x);
      }
    }
  }

  /** Combining a range into the one at `j` adds its ids and keeps the ranges well-formed. */
  lemma CombineInto(rs: seq<Span>, j: nat, r: Span)
    requires j < |rs| && Combine(r, rs[j]).Some?
    ensures Union(rs[j := Combine(r, rs[j]).value]) == Union(rs) + Members(r)
    ensures AllWellFormed(rs) && WellFormed(r) ==> AllWellFormed(rs[j := Combine(r, rs[j]).value])
  {
    var c := Combine(r, rs[j]).value;
    assert Members(c) == Members(rs[j]) + Members(r);
    UnionUpdate(rs, j, c, Members(r));
  }

  lemma UnionSnoc(rs: seq<Span>, r: Span)
    ensures Union(rs + [r]) == Union(rs) + Members(r)
  {
    assert (rs + [r])[..|rs|] == rs;
  }

  /** The number of ids of each range, added up. */
  function SizeSum(rs: seq<Span>): int
  {
    if rs == [] then 0 else SizeSum(rs[..|rs| - 1]) + (rs[|rs| - 1].end - rs[|rs| - 1].start + 1)
  }

  /** No two of the ranges have an id in common. */
  ghost predicate Disjoint(rs: seq<Span>)
  {
    forall a, b :: 0 <= a < b < |rs| ==> !Share(rs[a], rs[b])
  }

  /** Well-formed ranges that share no id cover as many ids as their sizes add up to. */
  lemma {:induction false} DisjointUnionSize(rs: seq<Span>)
    requires AllWellFormed(rs) && Disjoint(rs)
    ensures |Union(rs)| == SizeSum(rs)
  {
    if rs != [] {
      var front, last := rs[..|rs| - 1], rs[|rs| - 1];
      DisjointUnionSize(front);
      forall x | x in Union(front) ensures x !in Members(last) {
        UnionIsAny(front, x);
        var i :| 0 <= i < |front| && Contains(front[i], x);
        assert !Share(rs[i], rs[|rs| - 1]);
      }
      assert Union(front) * Members(last) == {};
    }
  }

  // ---------------------------------------------------------------------------
  // normalise_ranges

  /** No later range combines with an earlier one: how `normalise_ranges` leaves its output. */
  predicate Settled(rs: seq<Span>)
  {
    forall a, b :: 0 <= a < b < |rs| ==> Combine(rs[b], rs[a]).None?
  }

  /** Appending a range that combines with none of the settled ranges keeps them settled. */
  lemma SettledSnoc(rs: seq<Span>, r: Span)
    requires Settled(rs)
    requires forall k :: 0 <= k < |rs| ==> Combine(r, rs[k]).None?
    ensures Settled(rs + [r])
  {
    var t := rs + [r];
    forall a, b | 0 <= a < b < |t| ensures Combine(t[b], t[a]).None? {
      assert t[a] == rs[a];
      if b < |rs| {
        assert t[b] == rs[b];
      }
    }
  }

  /** Well-formed settled ranges share no id. */
  lemma SettledDisjoint(rs: seq<Span>)
    requires AllWellFormed(rs) && Settled(rs)
    ensures Disjoint(rs)
  {
    forall a, b | 0 <= a < b < |rs| ensures !Share(rs[a], rs[b]) {
      CombineIffShare(rs[b], rs[a]);
    }
  }

  /**
   * `normalise_ranges`: each pass moves every input range into the output,
   * combined into the first output range it overlaps or appended; passes
   * repeat until one combines nothing. The output covers the same ids,
   * no two of its ranges combine, and it keeps the ranges well-formed.
   */
  method Normalise(ranges: seq<Span>) returns (out: seq<Span>)
    ensures Union(out) == Union(ranges)
    ensures Settled(out)
    ensures AllWellFormed(ranges) ==> AllWellFormed(out)
    ensures |out| <= |ranges|
  {
    var rangesIn := ranges;
    while true
      invariant Union(rangesIn) == Union(ranges)
      invariant AllWellFormed(ranges) ==> AllWellFormed(rangesIn)
      invariant |rangesIn| <= |ranges|
      decreases |rangesIn|
    {
      var rangesOut, someCombined := Pass(rangesIn);
      if !someCombined {
        return rangesOut;
      }
      rangesIn := rangesOut;
    }
  }

  /**
   * One pass of `normalise_ranges` over `ranges_in`. A pass that combines
   * nothing gives back its input, which is then settled; one that combines
   * gives fewer ranges.
   */
  method Pass(rangesIn: seq<Span>) returns (rangesOut: seq<Span>, someCombined: bool)
    ensures Union(rangesOut) == Union(rangesIn)
    ensures AllWellFormed(rangesIn) ==> AllWellFormed(rangesOut)
    ensures someCombined ==> |rangesOut| < |rangesIn|
    ensures !someCombined ==> rangesOut == rangesIn && Settled(rangesOut)
  {
    rangesOut := [];
    someCombined := false;
    for i := 0 to |rangesIn|
      invariant PassState(rangesIn, i, rangesOut, someCombined)
    {
      rangesOut, someCombined := PassStep(rangesIn, i, rangesOut, someCombined);
    }
    assert rangesIn[..|rangesIn|] == rangesIn;
  }

  /**
   * What a pass has built after the first `i` input ranges: the same ids,
   * no more ranges, fewer once something combined, and otherwise the
   * settled input itself.
   */
  predicate PassState(rangesIn: seq<Span>, i: nat, rangesOut: seq<Span>, someCombined: bool)
  {
    && i <= |rangesIn|
    && Union(rangesOut) == Union(rangesIn[..i])
    && (AllWellFormed(rangesIn) ==> AllWellFormed(rangesOut))
    && |rangesOut| <= i && (someCombined ==> |rangesOut| < i)
    && (!someCombined ==> rangesOut == rangesIn[..i] && Settled(rangesOut))
  }

  /** One turn of a pass: `inRange`, the range after `seen`, moves into the output. */
  method PassStep(rangesIn: seq<Span>, i: nat, rangesOut: seq<Span>, someCombined: bool)
      returns (next: seq<Span>, nowCombined: bool)
    requires i < |rangesIn| && PassState(rangesIn, i, rangesOut, someCombined)
    ensures PassState(rangesIn, i + 1, next, nowCombined)
  {
    var inRange := rangesIn[i];
    TakeSnoc(rangesIn, i);
    UnionSnoc(rangesIn[..i], inRange);
    var combined;
    next, combined := Absorb(rangesOut, inRange);
    nowCombined := someCombined || combined;
    if !nowCombined {
      SettledSnoc(rangesOut, inRange);
    }
  }

  /**
   * The inner loop of `normalise_ranges`: the first output range that
   * combines with `inRange` is replaced by the combination; when none
   * does, `inRange` is appended.
   */
  method Absorb(rangesOut: seq<Span>, inRange: Span) returns (next: seq<Span>, combined: bool)
    ensures Union(next) == Union(rangesOut) + Members(inRange)
    ensures AllWellFormed(rangesOut) && WellFormed(inRange) ==> AllWellFormed(next)
    ensures combined ==> |next| == |rangesOut|
    ensures !combined ==> next == rangesOut + [inRange]
    ensures !combined ==> forall k :: 0 <= k < |rangesOut| ==> Combine(inRange, rangesOut[k]).None?
  {
    for j := 0 to |rangesOut|
      invariant forall k :: 0 <= k < j ==> Combine(inRange, rangesOut[k]).None?
    {
      var c := Combine(inRange, rangesOut[j]);
      if c.Some? {
        CombineInto(rangesOut, j, inRange);
        return rangesOut[j := c.value], true;
      }
    }
    UnionSnoc(rangesOut, inRange);
    return rangesOut + [inRange], false;
  }

  // ---------------------------------------------------------------------------
  // The two parts

  /** `part1`: the number of ingredients, counted with repeats, lying in some range. */
  function Part1(ranges: seq<Span>, ingredients: seq<U64>): (count: nat)
    ensures count <= |ingredients|
  {
    if ingredients == [] then 0
    else
      Part1(ranges, ingredients[..|ingredients| - 1])
        + (if AnyContains(ranges, ingredients[|ingredients| - 1]) then 1 else 0)
  }

  /** `part1` depends only on the ids the ranges cover, so it is the same after normalising. */
  lemma {:induction false} Part1ByUnion(r1: seq<Span>, r2: seq<Span>, ingredients: seq<U64>)
    requires Union(r1) == Union(r2)
    ensures Part1(r1, ingredients) == Part1(r2, ingredients)
  {
    if ingredients != [] {
      var x := ingredients[|ingredients| - 1];
      UnionIsAny(r1, x);
      UnionIsAny(r2, x);
      Part1ByUnion(r1, r2, ingredients[..|ingredients| - 1]);
    }
  }

  /** Every ingredient lies in a range exactly when `part1` counts all of them. */
  lemma {:induction false} Part1All(ranges: seq<Span>, ingredients: seq<U64>)
    ensures Part1(ranges, ingredients) == |ingredients| <==>
      forall i :: 0 <= i < |ingredients| ==> AnyContains(ranges, ingredients[i])
  {
    if ingredients != [] {
      var front := ingredients[..|ingredients| - 1];
      Part1All(ranges, front);
      if forall i :: 0 <= i < |ingredients| ==> AnyContains(ranges, ingredients[i]) {
        assert forall i :: 0 <= i < |front| ==> AnyContains(ranges, front[i]) by {
          forall i | 0 <= i < |front| ensures AnyContains(ranges, front[i]) {
            assert front[i] == ingredients[i];
          }
        }
      }
    }
  }

  /**
   * `.map(|range| range.end() - range.start() + 1).sum::<u64>()`: None where
   * a subtraction underflows (an empty range) or a sum leaves `u64`.
   */
  function TotalSize(rs: seq<Span>): (r: Option<nat>)
    ensures r.Some? <==> AllWellFormed(rs) && SizeSum(rs) <= U64_MAX
    ensures r.Some? ==> r.value == SizeSum(rs)
  {
    if rs == [] then Some(0)
    else
      var front, last := rs[..|rs| - 1], rs[|rs| - 1];
      assert AllWellFormed(rs) ==> AllWellFormed(front);
      assert AllWellFormed(rs) ==> SizeSum(front) <= SizeSum(rs);
      match TotalSize(front)
      case None => None
      case Some(t) =>
        if last.end < last.start then None
        else
          var size := last.end - last.start + 1;
          if size > U64_MAX || t + size > U64_MAX then None else Some(t + size)
  }

  /**
   * `part2`: the size of the normalised ranges, added up. Whenever it
   * succeeds, that is the number of distinct ids the ranges cover; for
   * well-formed ranges it fails only when that number is beyond `u64`.
   */
  method Part2(ranges: seq<Span>) returns (r: Option<nat>)
    ensures r.Some? ==> r.value == |Union(ranges)|
    ensures AllWellFormed(ranges) ==> (r.Some? <==> |Union(ranges)| <= U64_MAX)
  {
    var out := Normalise(ranges);
    if AllWellFormed(out) {
      SettledDisjoint(out);
      DisjointUnionSize(out);
    }
    r := TotalSize(out);
  }

  // ---------------------------------------------------------------------------
  // Input

  /** One `a-b` line: split at the first `-`, both sides parsed as `u64`. */
  function ParseSpan(line: string): (r: Option<Span>)
  {
    match SplitOnce(line, "-")
    case None => None
    case Some((a, b)) =>
      match (ParseUnsigned(a, U64_MAX), ParseUnsigned(b, U64_MAX))
      case (Some(lo), Some(hi)) => Some(Span(lo, hi))
      case _ => None
  }

  function ParseSpans(lines: seq<string>): (r: Option<seq<Span>>)
    ensures r.Some? ==> |r.value| == |lines|
  {
    if lines == [] then Some([])
    else
      match (ParseSpan(lines[0]), ParseSpans(lines[1..]))
      case (Some(s), Some(rest)) => Some([s] + rest)
      case _ => None
  }

  function ParseIds(lines: seq<string>): (r: Option<seq<U64>>)
    ensures r.Some? ==> |r.value| == |lines|
  {
    if lines == [] then Some([])
    else
      match (ParseUnsigned(lines[0], U64_MAX), ParseIds(lines[1..]))
      case (Some(n), Some(rest)) => Some([n as U64] + rest)
      case _ => None
  }

  /**
   * `input_transform`: the file split at its first blank line; the ranges
   * one per line before it, the ingredient ids one per line after it.
   * None where the source panics.
   */
  function InputTransform(file: string): Option<(seq<Span>, seq<U64>)>
  {
    match SplitOnce(file, "\n\n")
    case None => None
    case Some((a, b)) =>
      match (ParseSpans(StrLines(a)), ParseIds(StrLines(b)))
      case (Some(rs), Some(ids)) => Some((rs, ids))
      case _ => None
  }

  function FormatSpan(s: Span): string
  {
    DecimalString(s.start) + "-" + DecimalString(s.end)
  }

  function FormatSpans(rs: seq<Span>): (r: seq<string>)
    ensures |r| == |rs| && forall i :: 0 <= i < |r| ==> r[i] == FormatSpan(rs[i])
  {
    if rs == [] then [] else [FormatSpan(rs[0])] + FormatSpans(rs[1..])
  }

  function FormatIds(ids: seq<U64>): (r: seq<string>)
    ensures |r| == |ids| && forall i :: 0 <= i < |r| ==> r[i] == DecimalString(ids[i])
  {
    if ids == [] then [] else [DecimalString(ids[0])] + FormatIds(ids[1..])
  }

  /** The puzzle file: the ranges, a blank line, then the ids, each line ending in `\n`. */
  function FormatInput(rs: seq<Span>, ids: seq<U64>): string
  {
    Join(FormatSpans(rs), "\n") + "\n\n" + Join(FormatIds(ids) + [[]], "\n")
  }

  lemma DigitsArePlain(s: string)
    requires AllDigits(s) && s != []
    ensures PlainLine(s) && '-' !in s
  {
  }

  lemma {:induction false} ParseFormatSpans(rs: seq<Span>)
    ensures ParseSpans(FormatSpans(rs)) == Some(rs)
  {
    if rs != [] {
      var s := rs[0];
      ParseFormatSpan(s);
      ParseFormatSpans(rs[1..]);
      assert FormatSpans(rs)[1..] == FormatSpans(rs[1..]);
      assert [s] + rs[1..] == rs;
    }
  }

  /** Reading back one written range gives it back. */
  lemma ParseFormatSpan(s: Span)
    ensures ParseSpan(FormatSpan(s)) == Some(s)
  {
    DigitsArePlain(DecimalString(s.start));
    SplitOnceFirst(DecimalString(s.start), DecimalString(s.end), '-');
    ParseUnsignedRoundTrip(s.start, U64_MAX);
    ParseUnsignedRoundTrip(s.end, U64_MAX);
  }

  lemma {:induction false} ParseFormatIds(ids: seq<U64>)
    ensures ParseIds(FormatIds(ids)) == Some(ids)
  {
    if ids != [] {
      ParseUnsignedRoundTrip(ids[0], U64_MAX);
      ParseFormatIds(ids[1..]);
      assert FormatIds(ids)[1..] == FormatIds(ids[1..]);
      assert [ids[0]] + ids[1..] == ids;
    }
  }

  /** `input_transform` reads back the ranges and ids it is given in the puzzle's layout. */
  lemma InputTransformRoundTrip(rs: seq<Span>, ids: seq<U64>)
    ensures InputTransform(FormatInput(rs, ids)) == Some((rs, ids))
  {
    var spanLines, idLines := FormatSpans(rs), FormatIds(ids);
    forall i | 0 <= i < |spanLines| ensures PlainLine(spanLines[i]) {
      var s := rs[i];
      DigitsArePlain(DecimalString(s.start));
      DigitsArePlain(DecimalString(s.end));
      assert spanLines[i][|spanLines[i]| - 1] == DecimalString(s.end)[|DecimalString(s.end)| - 1];
    }
    forall i | 0 <= i < |idLines| ensures PlainLine(idLines[i]) {
      DigitsArePlain(DecimalString(ids[i]));
    }
    SplitAtBlankLine(spanLines, Join(idLines + [[]], "\n"));
    StrLinesOfJoin(spanLines);
    StrLinesOfJoin(idLines);
    ParseFormatSpans(rs);
    ParseFormatIds(ids);
  }

  /** A file with no blank line makes `input_transform` fail. */
  lemma InputTransformNeedsBlankLine(file: string)
    requires !Occurs(file, "\n\n")
    ensures InputTransform(file) == None
  {
  }
}
