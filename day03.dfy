/**
 * Day 3 of aoc2025 (day03/src/main.rs): each bank is a row of digits; the
 * joltage of a bank is the largest number formed by picking 2 (part 1) or
 * 12 (part 2) of its digits in order, found greedily.
 */
module Day03 {
  import opened Common

  type Bank = seq<Byte>

  /** `input_transform`: each character `c` becomes `c as u8 - b'0'`; None where that subtraction underflows. */
  function InputTransform(line: string): (r: Option<Bank>)
    ensures r.Some? ==> |r.value| == |line|
    ensures r.Some? ==> forall i :: 0 <= i < |line| ==> r.value[i] == (line[i] as int) % 256 - '0' as int
    ensures r.None? <==> exists i :: 0 <= i < |line| && (line[i] as int) % 256 < '0' as int
  {
    if line == [] then Some([])
    else
      var b := (line[0] as int) % 256;
      match InputTransform(line[1..])
      case None => None
      case Some(rest) =>
        if b < '0' as int then None
        else
          assert forall i :: 1 <= i < |line| ==> line[i] == line[1..][i - 1];
          Some([b - '0' as int] + rest)
  }

  /** A line of decimal digits becomes the digits' values. */
  lemma {:induction false} InputTransformDigits(line: string)
    requires AllDigits(line)
    ensures InputTransform(line).Some?
    ensures forall i :: 0 <= i < |line| ==> InputTransform(line).value[i] == line[i] as int - '0' as int <= 9
  {
    if line != [] {
      var rest := line[1..];
      assert forall i :: 0 <= i < |rest| ==> rest[i] == line[i + 1];
      InputTransformDigits(rest);
      assert (line[0] as int) % 256 == line[0] as int;
    }
  }

  /** Every digit of the bank is a decimal digit from 0 to 9. */
  predicate IsDigits(bank: Bank) { forall i :: 0 <= i < |bank| ==> bank[i] <= 9 }

  /** Every digit of the bank is from 1 to 9, as in the puzzle input. */
  predicate IsNonZeroDigits(bank: Bank) { forall i :: 0 <= i < |bank| ==> 1 <= bank[i] <= 9 }

  /**
   * The fold `(0, 0)`, `if v > mv { (i, v) } else { (mi, mv) }` over the
   * positions `lo..hi`: the earliest position of the largest value, except
   * that a window holding only zeros (or nothing) gives `(0, 0)`.
   */
  function FoldMax(bank: Bank, lo: nat, hi: int): (r: (nat, nat))
    requires hi <= |bank|
    ensures forall i :: lo <= i < hi ==> bank[i] <= r.1
    ensures r.1 > 0 ==> lo <= r.0 < hi && bank[r.0] == r.1 && forall i :: lo <= i < r.0 ==> bank[i] < r.1
    ensures r.1 == 0 ==> r.0 == 0
    decreases hi - lo
  {
    if hi <= lo then (0, 0)
    else
      var (mi, mv) := FoldMax(bank, lo, hi - 1);
      if bank[hi - 1] > mv then (hi - 1, bank[hi - 1]) else (mi, mv)
  }

  /** The largest value of a non-empty sequence (`iter().max()`). */
  function SeqMax(s: seq<Byte>): (m: nat)
    requires |s| >= 1
    ensures m in s && forall i :: 0 <= i < |s| ==> s[i] <= m
  {
    if |s| == 1 then s[0]
    else
      var m := SeqMax(s[..|s| - 1]);
      assert m in s[..|s| - 1];
      if s[|s| - 1] > m then s[|s| - 1] else m
  }

  // ---------------------------------------------------------------------------
  // Part 1

  /**
   * The part 1 joltage of one bank: the first largest digit among all but
   * the last, then the largest digit after it. None where the source
   * panics: a bank of fewer than 2 digits (`unwrap` of an empty `max`), or
   * `d1 * 10 + d2` overflowing a `u8`.
   */
  function Joltage1(bank: Bank): Option<nat>
  {
    if |bank| < 2 then None
    else
      var first := FoldMax(bank, 0, |bank| - 1);
      var d2 := SeqMax(bank[first.0 + 1..]);
      if first.1 * 10 + d2 > U8_MAX then None else Some(first.1 * 10 + d2)
  }

  /** `part1`: the sum of the banks' joltages; None when one bank's computation panics. */
  function Part1(input: seq<Bank>): Option<nat>
  {
    if input == [] then Some(0)
    else
      match (Part1(input[..|input| - 1]), Joltage1(input[|input| - 1]))
      case (Some(s), Some(j)) => Some(s + j)
      case _ => None
  }

  /** Part 1 panics exactly when the joltage of some bank does. */
  lemma {:induction false} Part1Panics(input: seq<Bank>)
    ensures Part1(input).None? <==> exists i :: 0 <= i < |input| && Joltage1(input[i]).None?
  {
    if input != [] {
      var n := |input| - 1;
      Part1Panics(input[..n]);
      if Part1(input[..n]).None? {
        var i :| 0 <= i < n && Joltage1(input[..n][i]).None?;
        assert input[..n][i] == input[i];
      } else if Joltage1(input[n]).Some? {
        forall i | 0 <= i < |input| ensures Joltage1(input[i]).Some? {
          if i < n {
            assert input[..n][i] == input[i];
          }
        }
      }
    }
  }

  /**
   * On banks of at least two decimal digits part 1 does not panic and is
   * at most 99 per bank, each bank adding its best pair.
   */
  lemma {:induction false} Part1Bound(input: seq<Bank>)
    requires forall i :: 0 <= i < |input| ==> |input[i]| >= 2 && IsDigits(input[i])
    ensures Part1(input).Some? && Part1(input).value <= 99 * |input|
  {
    if input != [] {
      var n := |input| - 1;
      assert forall i :: 0 <= i < n ==> input[..n][i] == input[i];
      Part1Bound(input[..n]);
      Joltage1IsBestPair(input[n]);
    }
  }

  /** The two-digit number formed by the digits at positions `i < j`. */
  function PairValue(bank: Bank, i: nat, j: nat): nat
    requires i < j < |bank|
  {
    10 * (bank[i] as nat) + bank[j] as nat
  }

  /**
   * For a bank of at least two decimal digits, the greedy choice is the
   * largest two-digit number formed by two digits in order.
   */
  lemma Joltage1IsBestPair(bank: Bank)
    requires |bank| >= 2 && IsDigits(bank)
    ensures Joltage1(bank).Some?
    ensures exists i, j :: 0 <= i < j < |bank| && Joltage1(bank).value == PairValue(bank, i, j)
    ensures forall i, j :: 0 <= i < j < |bank| ==> PairValue(bank, i, j) <= Joltage1(bank).value
    ensures Joltage1(bank).value <= 99
  {
    var n := |bank|;
    var first := FoldMax(bank, 0, n - 1);
    var p1, d1 := first.0, first.1;
    var rest := bank[p1 + 1..];
    var d2 := SeqMax(rest);
    Joltage1Digits(bank);
    var k :| 0 <= k < |rest| && rest[k] == d2;
    assert PairValue(bank, p1, p1 + 1 + k) == d1 * 10 + d2;
    assert forall j :: p1 < j < n ==> bank[j] <= d2 by {
      forall j | p1 < j < n ensures bank[j] <= d2 {
        assert rest[j - p1 - 1] == bank[j];
      }
    }
    GreedyPairBound(bank, p1, d1, d2);
  }

  /** On decimal digits the greedy pair never overflows: it is `d1 * 10 + d2`, with `d1` found at `p1`. */
  lemma Joltage1Digits(bank: Bank)
    requires |bank| >= 2 && IsDigits(bank)
    ensures var first := FoldMax(bank, 0, |bank| - 1);
      && first.0 < |bank| - 1 && bank[first.0] == first.1 <= 9
      && SeqMax(bank[first.0 + 1..]) <= 9
      && Joltage1(bank) == Some(first.1 * 10 + SeqMax(bank[first.0 + 1..]))
  {
    var first := FoldMax(bank, 0, |bank| - 1);
    FirstDigit(bank);
    LaterDigit(bank, first.0);
  }

  /** The first largest of all but the last digit is found where it is, and is a decimal digit. */
  lemma FirstDigit(bank: Bank)
    requires |bank| >= 2 && IsDigits(bank)
    ensures var first := FoldMax(bank, 0, |bank| - 1);
      first.0 < |bank| - 1 && bank[first.0] == first.1 <= 9
  {
    var first := FoldMax(bank, 0, |bank| - 1);
    if first.1 == 0 {
      assert first.0 == 0 && bank[0] <= 0;
    }
    assert bank[first.0] <= 9;
  }

  /** The largest digit after position `p` is a decimal digit. */
  lemma LaterDigit(bank: Bank, p: nat)
    requires p < |bank| - 1 && IsDigits(bank)
    ensures SeqMax(bank[p + 1..]) <= 9
  {
    var rest := bank[p + 1..];
    var k :| 0 <= k < |rest| && rest[k] == SeqMax(rest);
    assert rest[k] == bank[p + 1 + k];
  }

  /**
   * A first largest digit `d1` at `p1` among all but the last, followed only
   * by digits up to `d2`, makes `d1 d2` at least every pair in order.
   */
  lemma GreedyPairBound(bank: Bank, p1: nat, d1: nat, d2: nat)
    requires IsDigits(bank) && p1 < |bank| - 1 && bank[p1] == d1
    requires forall i :: 0 <= i < |bank| - 1 ==> bank[i] <= d1
    requires forall i :: 0 <= i < p1 ==> bank[i] < d1
    requires forall j :: p1 < j < |bank| ==> bank[j] <= d2
    ensures forall i, j :: 0 <= i < j < |bank| ==> PairValue(bank, i, j) <= d1 * 10 + d2
  {
    forall i, j | 0 <= i < j < |bank| ensures PairValue(bank, i, j) <= d1 * 10 + d2 {
      assert bank[j] <= 9;
    }
  }

  // ---------------------------------------------------------------------------
  // Part 2

  /** The number of digits part 2 picks. */
  const Picks: nat := 12

  /** The state after some of the 12 picks: the next start position, the digits and positions chosen. */
  datatype PickState = PickState(pos: nat, digits: seq<nat>, chosen: seq<nat>)

  /** The end of the window of pick `digit`: it leaves `11 - digit` digits for the later picks. */
  function WindowEnd(n: nat, digit: nat): int
  {
    n - (Picks - 1 - digit)
  }

  /**
   * The first `k` picks as written: pick `digit` folds the window
   * `pos..n - (11 - digit)` from `(0, 0)` and moves `pos` past the
   * position it returns.
   */
  function PickAll(bank: Bank, k: nat): (s: PickState)
    requires k <= Picks
    ensures |s.digits| == k && |s.chosen| == k
  {
    if k == 0 then PickState(0, [], [])
    else
      var prev := PickAll(bank, k - 1);
      var (newPos, d) := FoldMax(bank, prev.pos, WindowEnd(|bank|, k - 1));
      PickState(newPos + 1, prev.digits + [d], prev.chosen + [newPos])
  }

  /** The digits read as a decimal number, most significant first. */
  function DecimalValue(ds: seq<nat>): nat
  {
    if ds == [] then 0 else 10 * DecimalValue(ds[..|ds| - 1]) + ds[|ds| - 1]
  }

  function Pow10(i: nat): (r: nat)
    ensures r >= 1
  {
    if i == 0 then 1 else 10 * Pow10(i - 1)
  }

  /** `rev().enumerate().map(|(i, d)| d * 10^i).sum()` over the first `k` digits from the end. */
  function PowerSum(ds: seq<nat>, k: nat): nat
    requires k <= |ds|
  {
    if k == 0 then 0 else PowerSum(ds, k - 1) + ds[|ds| - k] * Pow10(k - 1)
  }

  /** The power sum over all the digits is the digits read most significant first. */
  lemma {:induction false} PowerSumIsDecimal(ds: seq<nat>)
    ensures PowerSum(ds, |ds|) == DecimalValue(ds)
  {
    if ds != [] {
      var front := ds[..|ds| - 1];
      PowerSumIsDecimal(front);
      PowerSumShift(ds, |ds| - 1);
    }
  }

  /** Dropping the last digit divides the weight of every other digit by ten. */
  lemma {:induction false} PowerSumShift(ds: seq<nat>, k: nat)
    requires k < |ds|
    ensures PowerSum(ds, k + 1) == ds[|ds| - 1] + 10 * PowerSum(ds[..|ds| - 1], k)
  {
    var front := ds[..|ds| - 1];
    if k > 0 {
      PowerSumShift(ds, k - 1);
      assert ds[|ds| - (k + 1)] == front[|front| - k];
    }
  }

  /** The 12 picks of part 2, each folding its window and moving `pos` past the position found. */
  method PickDigits(bank: Bank) returns (digits: seq<nat>)
    ensures digits == PickAll(bank, Picks).digits
  {
    var pos: nat := 0;
    digits := [];
    for digit := 0 to Picks
      invariant PickAll(bank, digit).pos == pos && PickAll(bank, digit).digits == digits
    {
      var r := FoldMax(bank, pos, WindowEnd(|bank|, digit));
      pos := r.0 + 1;
      digits := digits + [r.1];
    }
  }

  /** The joltage of one bank in part 2, as written: the power sum of the 12 picked digits. */
  method Joltage2(bank: Bank) returns (value: nat)
    ensures value == PowerSum(PickAll(bank, Picks).digits, Picks)
  {
    var digits := PickDigits(bank);
    assert |digits| == Picks;
    value := 0;
    for i := 0 to Picks
      invariant value == PowerSum(digits, i)
    {
      assert PowerSum(digits, i + 1) == value + digits[Picks - 1 - i] * Pow10(i);
      value := value + digits[Picks - 1 - i] * Pow10(i);
    }
  }

  /** `part2`: the sum of the banks' 12-digit joltages. */
  method Part2(input: seq<Bank>) returns (total: nat)
    ensures total == Sum(seq(|input|, i requires 0 <= i < |input| => DecimalValue(PickAll(input[i], Picks).digits)))
  {
    total := 0;
    ghost var values := seq(|input|, i requires 0 <= i < |input| => DecimalValue(PickAll(input[i], Picks).digits));
    for b := 0 to |input|
      invariant total == Sum(values[..b])
    {
      var v := Joltage2(input[b]);
      PowerSumIsDecimal(PickAll(input[b], Picks).digits);
      assert values[..b + 1][..b] == values[..b];
      total := total + v;
    }
    assert values[..|input|] == values;
  }

  /**
   * On a bank of at least 12 digits from 1 to 9, every window is non-empty,
   * the chosen positions strictly increase, pick `k` leaves at least
   * `11 - k` digits after it, and each digit picked is the digit at its position.
   */
  lemma PicksAreOrdered(bank: Bank, k: nat)
    requires |bank| >= Picks && IsNonZeroDigits(bank) && k <= Picks
    ensures var s := PickAll(bank, k);
      (k > 0 ==> s.pos == s.chosen[k - 1] + 1) &&
      s.pos < WindowEnd(|bank|, k) + 1 &&
      (forall i :: 0 <= i < k ==> s.chosen[i] < WindowEnd(|bank|, i) && s.digits[i] == bank[s.chosen[i]]) &&
      (forall i, j :: 0 <= i < j < k ==> s.chosen[i] < s.chosen[j])
  {
    PickAllAgrees(bank, k);
  }

  /** Pick `k` leaves at least `11 - k` digits of the bank after it. */
  lemma PicksLeaveRoom(bank: Bank, k: nat)
    requires |bank| >= Picks && IsNonZeroDigits(bank) && k < Picks
    ensures |bank| - 1 - PickAll(bank, Picks).chosen[k] >= Picks - 1 - k
  {
    PicksAreOrdered(bank, Picks);
  }

  // ---------------------------------------------------------------------------
  // An all-zero window

  /** A bank whose second window holds only a 0. */
  const ZeroWindowBank: Bank := [0, 9, 0, 0, 0, 0, 0, 0, 0, 0, 0, 0, 0]

  /** The first two picks on `ZeroWindowBank`: the 9 at position 1, then the fold's fallback position 0. */
  lemma ZeroWindowFirstPicks()
    ensures PickAll(ZeroWindowBank, 2) == PickState(1, [9, 0], [1, 0])
  {
    var bank := ZeroWindowBank;
    assert PickAll(bank, 1) == PickState(2, [9], [1]) by {
      assert FoldMax(bank, 0, 1) == (0, 0);
      assert FoldMax(bank, 0, 2) == (1, 9);
    }
    assert FoldMax(bank, 2, 3) == (0, 0);
  }

  /**
   * On `0 9 0 0 0 0 0 0 0 0 0 0 0` the second window holds only a 0, the
   * fold returns position 0, and the next window starts at the 9 again, so
   * the as-written picks give `9 0 9 0 9 0 9 0 9 0 9 0`, which is not
   * digits of the bank taken in order.
   */
  lemma AllZeroWindowRestarts()
    ensures PickAll(ZeroWindowBank, 3).chosen == [1, 0, 1]
  {
    var bank := ZeroWindowBank;
    ZeroWindowFirstPicks();
    assert FoldMax(bank, 1, 4) == (1, 9) by {
      assert FoldMax(bank, 1, 2) == (1, 9);
      assert FoldMax(bank, 1, 3) == (1, 9);
    }
  }

  /**
   * The window fold seeded with the window's first position: the earliest
   * position of the largest digit in `lo..hi`, for any digits.
   */
  function WindowMax(bank: Bank, lo: nat, hi: int): (r: (nat, nat))
    requires lo < hi <= |bank|
    ensures lo <= r.0 < hi && bank[r.0] == r.1
    ensures forall i :: lo <= i < hi ==> bank[i] <= r.1
    ensures forall i :: lo <= i < r.0 ==> bank[i] < r.1
    decreases hi - lo
  {
    if hi - 1 == lo then (lo, bank[lo])
    else
      var (mi, mv) := WindowMax(bank, lo, hi - 1);
      if bank[hi - 1] > mv then (hi - 1, bank[hi - 1]) else (mi, mv)
  }

  /** The picks with the corrected fold; defined while the windows stay non-empty. */
  function PickAllFixed(bank: Bank, k: nat): (s: PickState)
    requires |bank| >= Picks && k <= Picks
    ensures |s.digits| == k && |s.chosen| == k
    ensures s.pos < WindowEnd(|bank|, k) + 1
    ensures k > 0 ==> s.pos == s.chosen[k - 1] + 1
    ensures forall i :: 0 <= i < k ==> s.chosen[i] < WindowEnd(|bank|, i) && s.digits[i] == bank[s.chosen[i]]
    ensures forall i, j :: 0 <= i < j < k ==> s.chosen[i] < s.chosen[j]
  {
    if k == 0 then PickState(0, [], [])
    else
      var prev := PickAllFixed(bank, k - 1);
      var (newPos, d) := WindowMax(bank, prev.pos, WindowEnd(|bank|, k - 1));
      PickState(newPos + 1, prev.digits + [d], prev.chosen + [newPos])
  }

  /** On banks of digits 1 to 9 the written fold and the corrected one pick the same digits. */
  lemma {:induction false} PickAllAgrees(bank: Bank, k: nat)
    requires |bank| >= Picks && IsNonZeroDigits(bank) && k <= Picks
    ensures PickAll(bank, k) == PickAllFixed(bank, k)
  {
    if k > 0 {
      PickAllAgrees(bank, k - 1);
      var prev := PickAllFixed(bank, k - 1);
      var hi := WindowEnd(|bank|, k - 1);
      assert prev.pos < hi by {
        if k > 1 {
          assert prev.chosen[k - 2] < WindowEnd(|bank|, k - 2);
        }
      }
      assert bank[prev.pos] >= 1;
      PickAgreesNext(bank, k, prev);
    }
  }

  /** When both picks agree so far and the next window starts with a non-zero digit, they agree on one more. */
  lemma PickAgreesNext(bank: Bank, k: nat, prev: PickState)
    requires |bank| >= Picks && 0 < k <= Picks
    requires PickAll(bank, k - 1) == prev && PickAllFixed(bank, k - 1) == prev
    requires prev.pos < WindowEnd(|bank|, k - 1) && bank[prev.pos] >= 1
    ensures PickAll(bank, k) == PickAllFixed(bank, k)
  {
    var hi := WindowEnd(|bank|, k - 1);
    var m := WindowMax(bank, prev.pos, hi);
    var next := PickState(m.0 + 1, prev.digits + [m.1], prev.chosen + [m.0]);
    assert PickAllFixed(bank, k) == next;
    assert PickAll(bank, k) == next by {
      FoldMaxIsWindowMax(bank, prev.pos, hi);
    }
  }

  /** On a non-empty window starting with a non-zero digit both folds find the same position. */
  lemma FoldMaxIsWindowMax(bank: Bank, lo: nat, hi: int)
    requires lo < hi <= |bank| && bank[lo] >= 1
    ensures FoldMax(bank, lo, hi) == WindowMax(bank, lo, hi)
  {
    var f := FoldMax(bank, lo, hi);
    var w := WindowMax(bank, lo, hi);
    assert f.1 == w.1;
  }
}
