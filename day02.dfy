/**
 * Day 2 of aoc2025 (day02/src/main.rs): sums the numbers in inclusive
 * ranges whose decimal form is made of repeated digit groups: exactly two
 * equal halves for part 1, any chunk repeated at least twice for part 2.
 */
module Day02 {
  import opened Common

  /** An inclusive range `lo..=hi` of `u64` values; empty when `lo > hi`. */
  datatype Span = Span(lo: nat, hi: nat)

  predicate IsU64Span(s: Span) { s.lo <= U64_MAX && s.hi <= U64_MAX }

  // ---------------------------------------------------------------------------
  // Input

  /** One `a-b` piece: split at the first `-`, both sides parsed as `u64`. */
  function ParseSpan(piece: string): (r: Option<Span>)
    ensures r.Some? ==> IsU64Span(r.value)
  {
    match SplitOnce(piece, "-")
    case None => None
    case Some((a, b)) =>
      match (ParseUnsigned(a, U64_MAX), ParseUnsigned(b, U64_MAX))
      case (Some(lo), Some(hi)) => Some(Span(lo, hi))
      case _ => None
  }

  /** Parses each piece in order; None as soon as one does not parse. */
  function ParseSpans(pieces: seq<string>): (r: Option<seq<Span>>)
    ensures r.Some? ==> |r.value| == |pieces|
    ensures r.Some? ==> forall i :: 0 <= i < |r.value| ==> IsU64Span(r.value[i])
  {
    if pieces == [] then Some([])
    else
      var head, tail := ParseSpan(pieces[0]), ParseSpans(pieces[1..]);
      if head.None? || tail.None? then None
      else Some([head.value] + tail.value)
  }

  /** `input_transform`: the line split at `,`, each piece an `a-b` range; None where the source panics. */
  function InputTransform(line: string): Option<seq<Span>>
  {
    ParseSpans(Split(line, ","))
  }

  function FormatSpan(s: Span): string
  {
    DecimalString(s.lo) + "-" + DecimalString(s.hi)
  }

  function FormatSpans(spans: seq<Span>): (r: seq<string>)
    ensures |r| == |spans| && forall i :: 0 <= i < |r| ==> r[i] == FormatSpan(spans[i])
  {
    if spans == [] then [] else [FormatSpan(spans[0])] + FormatSpans(spans[1..])
  }

  /** A string of digits holds no `-` and no `,`. */
  lemma DigitsHaveNoPunctuation(s: string)
    requires AllDigits(s)
    ensures '-' !in s && ',' !in s
  {
  }

  /** Reading back the written ranges gives them back. */
  lemma {:induction false} ParseFormatSpans(spans: seq<Span>)
    requires forall i :: 0 <= i < |spans| ==> IsU64Span(spans[i])
    ensures ParseSpans(FormatSpans(spans)) == Some(spans)
  {
    if spans != [] {
      var s := spans[0];
      ParseFormatSpan(s);
      ParseFormatSpans(spans[1..]);
      assert FormatSpans(spans)[1..] == FormatSpans(spans[1..]);
      assert [s] + spans[1..] == spans;
    }
  }

  /** Reading back one written range gives it back. */
  lemma ParseFormatSpan(s: Span)
    requires IsU64Span(s)
    ensures ParseSpan(FormatSpan(s)) == Some(s)
  {
    DigitsHaveNoPunctuation(DecimalString(s.lo));
    SplitOnceFirst(DecimalString(s.lo), DecimalString(s.hi), '-');
    ParseUnsignedRoundTrip(s.lo, U64_MAX);
    ParseUnsignedRoundTrip(s.hi, U64_MAX);
  }

  /** `input_transform` reads back any non-empty list of `u64` ranges written as `a-b,c-d,…`. */
  lemma InputTransformRoundTrip(spans: seq<Span>)
    requires |spans| >= 1 && forall i :: 0 <= i < |spans| ==> IsU64Span(spans[i])
    ensures InputTransform(Join(FormatSpans(spans), ",")) == Some(spans)
  {
    var pieces := FormatSpans(spans);
    forall i | 0 <= i < |pieces| ensures ',' !in pieces[i] {
      DigitsHaveNoPunctuation(DecimalString(spans[i].lo));
      DigitsHaveNoPunctuation(DecimalString(spans[i].hi));
    }
    SplitJoin(pieces, ',');
    ParseFormatSpans(spans);
  }

  /** A piece without `-` makes `input_transform` fail. */
  lemma ParseSpanNeedsDash(piece: string)
    requires '-' !in piece
    ensures ParseSpan(piece) == None
  {
  }

  // ---------------------------------------------------------------------------
  // The two tests on a number's decimal form

  /** Part 1: an even number of digits whose first half equals its second half. */
  predicate Mirrored(s: string)
  {
    |s| % 2 == 0 && s[..|s| / 2] == s[|s| / 2..]
  }

  /** `chunks_exact(c)`: the consecutive `c`-long pieces of `s`, dropping a shorter remainder. */
  function Chunks(s: string, c: nat): (r: seq<string>)
    requires 1 <= c
    ensures forall i :: 0 <= i < |r| ==> |r[i]| == c
    decreases |s|
  {
    if |s| < c then [] else [s[..c]] + Chunks(s[c..], c)
  }

  /** Every piece of `xs` is `t`. */
  predicate AllAre(xs: seq<string>, t: string)
  {
    forall i :: 0 <= i < |xs| ==> xs[i] == t
  }

  /** Every chunk equals the first one. */
  predicate ChunksEqual(s: string, c: nat)
    requires 1 <= c
  {
    |s| < c || AllAre(Chunks(s, c), s[..c])
  }

  /** Part 2: some chunk length from 1 to half the length that divides the length gives equal chunks. */
  predicate Repeated(s: string)
  {
    exists c :: 1 <= c <= |s| / 2 && |s| % c == 0 && ChunksEqual(s, c)
  }

  /** `k` copies of `t`, one after another. */
  function Rep(t: string, k: nat): (r: string)
    ensures |r| == k * |t|
  {
    if k == 0 then [] else t + Rep(t, k - 1)
  }

  /**
   * When `c` divides the length, the chunks all equal `t` exactly when `s`
   * is `t` repeated `|s| / c` times.
   */
  lemma {:induction false} AllChunksAre(s: string, t: string, c: nat)
    requires 1 <= c && |t| == c && |s| % c == 0
    ensures AllAre(Chunks(s, c), t) <==> s == Rep(t, |s| / c)
    decreases |s|
  {
    if s == [] {
      assert |s| / c == 0;
    } else {
      assert |s| >= c;
      var k := |s| / c;
      DivModOfBlock(k - 1, 0, c);
      DivModOfBlock(k, 0, c);
      assert |s| == k * c;
      assert k != 0;
      Distrib(k - 1, 1, c);
      assert |s[c..]| == (k - 1) * c;
      AllChunksAre(s[c..], t, c);
      ChunksAfterFirst(s, c);
      assert Rep(t, k) == t + Rep(t, k - 1);
      assert s == s[..c] + s[c..];
    }
  }

  /** The part 2 test: `s` is a chunk of length 1 to `|s| / 2` repeated a whole number of times. */
  lemma RepeatedIsRep(s: string)
    ensures Repeated(s) <==> exists c :: 1 <= c <= |s| / 2 && |s| % c == 0 && s == Rep(s[..c], |s| / c)
  {
    forall c | 1 <= c <= |s| / 2 && |s| % c == 0
      ensures ChunksEqual(s, c) <==> s == Rep(s[..c], |s| / c)
    {
      AllChunksAre(s, s[..c], c);
    }
  }

  /** A number with two equal halves is a chunk repeated twice, so part 1's numbers are part 2's. */
  lemma MirroredIsRepeated(s: string)
    requires |s| >= 1 && Mirrored(s)
    ensures Repeated(s)
  {
    var c := |s| / 2;
    ChunksAfterFirst(s, c);
    var back := s[c..];
    ChunksAfterFirst(back, c);
    assert back[c..] == [];
    assert |s| % c == 0;
    assert ChunksEqual(s, c);
  }

  predicate Invalid1(n: nat) { Mirrored(DecimalString(n)) }
  predicate Invalid2(n: nat) { Repeated(DecimalString(n)) }

  // ---------------------------------------------------------------------------
  // Sums over the ranges

  /** The sum of the numbers `lo..=hi` satisfying `p`. */
  function SpanSum(lo: nat, hi: int, p: nat -> bool): nat
    decreases hi - lo
  {
    if hi < lo then 0 else SpanSum(lo, hi - 1, p) + (if p(hi) then hi else 0)
  }

  /** The sum over all ranges of the numbers satisfying `p`. */
  function TotalSum(spans: seq<Span>, p: nat -> bool): nat
  {
    if spans == [] then 0
    else TotalSum(spans[..|spans| - 1], p) + SpanSum(spans[|spans| - 1].lo, spans[|spans| - 1].hi, p)
  }

  /** A weaker test never gives a smaller sum. */
  lemma {:induction false} SpanSumMonotone(lo: nat, hi: int, p: nat -> bool, q: nat -> bool)
    requires forall n: nat :: p(n) ==> q(n)
    ensures SpanSum(lo, hi, p) <= SpanSum(lo, hi, q)
    decreases hi - lo
  {
    if hi >= lo {
      SpanSumMonotone(lo, hi - 1, p, q);
    }
  }

  lemma {:induction false} TotalSumMonotone(spans: seq<Span>, p: nat -> bool, q: nat -> bool)
    requires forall n: nat :: p(n) ==> q(n)
    ensures TotalSum(spans, p) <= TotalSum(spans, q)
  {
    if spans != [] {
      TotalSumMonotone(spans[..|spans| - 1], p, q);
      var s := spans[|spans| - 1];
      SpanSumMonotone(s.lo, s.hi, p, q);
    }
  }

  /** Extending the range by `n` adds `n` exactly when it satisfies `p`. */
  lemma SpanSumStep(lo: nat, n: nat, p: nat -> bool)
    requires lo <= n
    ensures SpanSum(lo, n, p) == SpanSum(lo, n - 1, p) + (if p(n) then n else 0)
  {
  }

  /** Both ends of a range are examined: a range `n..=n` holding a matching number adds exactly it. */
  lemma SpanSumSingle(n: nat, p: nat -> bool)
    ensures SpanSum(n, n, p) == if p(n) then n else 0
  {
    assert SpanSum(n, n - 1, p) == 0;
  }

  /** Part 1 never exceeds part 2 on the same input. */
  lemma Part1AtMostPart2(spans: seq<Span>)
    ensures TotalSum(spans, Invalid1) <= TotalSum(spans, Invalid2)
  {
    forall n: nat | Invalid1(n) ensures Invalid2(n) {
      MirroredIsRepeated(DecimalString(n));
    }
    TotalSumMonotone(spans, Invalid1, Invalid2);
  }

  // ---------------------------------------------------------------------------
  // The two parts

  /** `part1`: the sum of the numbers whose decimal form is two equal halves. */
  method Part1(input: seq<Span>) returns (result: nat)
    ensures result == TotalSum(input, Invalid1)
  {
    result := 0;
    for r := 0 to |input|
      invariant result == TotalSum(input[..r], Invalid1)
    {
      assert input[..r + 1][..r] == input[..r] && input[..r + 1][r] == input[r];
      var sum := RangeSum1(input[r]);
      result := result + sum;
    }
    assert input[..|input|] == input;
  }

  /** The inner loop of `part1`: the numbers of one range whose decimal form is two equal halves. */
  method RangeSum1(range: Span) returns (result: nat)
    ensures result == SpanSum(range.lo, range.hi, Invalid1)
  {
    result := 0;
    var num := range.lo;
    while num <= range.hi
      invariant range.lo <= num <= Max(range.lo, range.hi + 1)
      invariant result == SpanSum(range.lo, num - 1, Invalid1)
      decreases range.hi - num
    {
      var numstr := DecimalString(num);
      if |numstr| % 2 != 0 {
        num := num + 1;
        continue;
      }
      var checklen := |numstr| / 2;
      if numstr[0..checklen] == numstr[checklen..] {
        result := result + num;
      }
      num := num + 1;
    }
  }

  /** `!chunks.any(|chunk| chunk != first)`: the chunks after the first are compared with it in order. */
  method AllChunksEqual(numbytes: string, checklen: nat) returns (same: bool)
    requires 1 <= checklen <= |numbytes|
    ensures same <==> ChunksEqual(numbytes, checklen)
  {
    var first := numbytes[..checklen];
    var rest := numbytes[checklen..];
    ChunksAfterFirst(numbytes, checklen);
    while |rest| >= checklen
      invariant ChunksEqual(numbytes, checklen) <==> AllAre(Chunks(rest, checklen), first)
      decreases |rest|
    {
      ChunksAfterFirst(rest, checklen);
      if rest[..checklen] != first {
        return false;
      }
      rest := rest[checklen..];
    }
    same := true;
  }

  /** The chunks are all `t` when the first one is and the ones after it are. */
  lemma ChunksAfterFirst(s: string, c: nat)
    requires 1 <= c <= |s|
    ensures forall t :: AllAre(Chunks(s, c), t) <==> s[..c] == t && AllAre(Chunks(s[c..], c), t)
  {
    var tail := Chunks(s[c..], c);
    assert Chunks(s, c) == [s[..c]] + tail;
    forall t ensures AllAre(Chunks(s, c), t) <==> s[..c] == t && AllAre(tail, t) {
      if s[..c] == t && AllAre(tail, t) {
        forall i | 0 <= i < |tail| + 1 ensures ([s[..c]] + tail)[i] == t {
          if i > 0 {
            assert ([s[..c]] + tail)[i] == tail[i - 1];
          }
        }
      }
      if AllAre(Chunks(s, c), t) {
        assert ([s[..c]] + tail)[0] == s[..c];
        forall i | 0 <= i < |tail| ensures tail[i] == t {
          assert ([s[..c]] + tail)[i + 1] == tail[i];
        }
      }
    }
  }

  /**
   * The loop over chunk lengths for one number: true when some length from
   * 1 to half the digit count divides it and gives equal chunks.
   */
  method HasRepeatedChunk(numbytes: string) returns (found: bool)
    ensures found <==> Repeated(numbytes)
  {
    found := false;
    var checklen := 1;
    while checklen <= |numbytes| / 2
      invariant 1 <= checklen <= |numbytes| / 2 + 1
      invariant forall c :: 1 <= c < checklen ==> !(|numbytes| % c == 0 && ChunksEqual(numbytes, c))
    {
      if |numbytes| % checklen != 0 {
        checklen := checklen + 1;
        continue;
      }
      var same := AllChunksEqual(numbytes, checklen);
      if same {
        return true;
      }
      checklen := checklen + 1;
    }
  }

  /** `part2`: the sum of the numbers whose decimal form is one chunk repeated at least twice. */
  method Part2(input: seq<Span>) returns (result: nat)
    ensures result == TotalSum(input, Invalid2)
  {
    result := 0;
    for r := 0 to |input|
      invariant result == TotalSum(input[..r], Invalid2)
    {
      assert input[..r + 1][..r] == input[..r] && input[..r + 1][r] == input[r];
      var sum := RangeSum2(input[r]);
      result := result + sum;
    }
    assert input[..|input|] == input;
  }

  /** The inner loop of `part2`: the numbers of one range whose decimal form is one chunk repeated. */
  method RangeSum2(range: Span) returns (result: nat)
    ensures result == SpanSum(range.lo, range.hi, Invalid2)
  {
    result := 0;
    var num := range.lo;
    while num <= range.hi
      invariant range.lo <= num <= Max(range.lo, range.hi + 1)
      invariant result == SpanSum(range.lo, num - 1, Invalid2)
      decreases range.hi - num
    {
      var found := HasRepeatedChunk(DecimalString(num));
      SpanSumStep(range.lo, num, Invalid2);
      assert found == Invalid2(num);
      if found {
        result := result + num;
      }
      num := num + 1;
    }
  }
}
