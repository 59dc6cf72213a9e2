/**
 * Day 10 (day10/src/main.rs): machines with indicator lights and buttons.
 * Each button toggles a fixed set of lights; part 1 asks, per machine, for
 * the fewest button presses that turn on exactly the indicated lights,
 * found by a breadth-first search over light states.
 *
 * A light state is a `u64` bit set in the source; here it is the set of the
 * bit positions that are on, and `^` is the symmetric difference.
 */
module Day10 {
  import opened Common

  /** The lights that are on: the set bits of a `u64`. */
  type Lights = set<nat>

  /** Width of the `u64` masks; `1 << i` panics from this shift on. */
  const WORD_BITS: nat := 64

  /** `a ^ b` on bit sets. */
  function Xor(a: Lights, b: Lights): Lights
  {
    (a - b) + (b - a)
  }

  /** A light is on after `^` exactly when it was on in one operand but not both. */
  lemma XorMember(a: Lights, b: Lights, i: nat)
    ensures i in Xor(a, b) <==> ((i in a) != (i in b))
  {
  }

  /** Pressing the same button twice undoes it. */
  lemma XorCancel(a: Lights, b: Lights)
    ensures Xor(Xor(a, b), b) == a
  {
  }

  // ---------------------------------------------------------------------------
  // Masks

  /**
   * The target of `part1`: the fold setting bit `i` for every lit
   * indicator `i`; None when a lit indicator sits at bit 64 or beyond,
   * where the shift overflows and panics.
   */
  function Target(indicators: seq<bool>): (r: Option<Lights>)
    ensures r.None? <==> exists i :: WORD_BITS <= i < |indicators| && indicators[i]
    ensures r.Some? ==> forall i: nat :: i in r.value <==> i < |indicators| && indicators[i]
  {
    if indicators == [] then Some({})
    else
      var last := |indicators| - 1;
      match Target(indicators[..last])
      case None => None
      case Some(acc) =>
        if !indicators[last] then Some(acc)
        else if last >= WORD_BITS then None
        else Some(acc + {last})
  }

  /**
   * The mask of one button: the fold OR-ing `1 << b` for each listed light
   * `b`; None when a listed light is 64 or beyond.
   */
  function ButtonMask(bits: seq<Byte>): (r: Option<Lights>)
    ensures r.None? <==> exists i :: 0 <= i < |bits| && bits[i] >= WORD_BITS
    ensures r.Some? ==> forall i :: 0 <= i < |bits| ==> bits[i] in r.value
    ensures r.Some? ==> forall x :: x in r.value ==> exists i :: 0 <= i < |bits| && bits[i] == x
  {
    if bits == [] then Some({})
    else
      var last := |bits| - 1;
      match ButtonMask(bits[..last])
      case None => None
      case Some(acc) =>
        if bits[last] >= WORD_BITS then None
        else Some(acc + {bits[last] as nat})
  }

  /** The masks of all buttons, in order; None when any of them panics. */
  function Buttons(schematics: seq<seq<Byte>>): (r: Option<seq<Lights>>)
    ensures r.Some? <==> forall i :: 0 <= i < |schematics| ==> ButtonMask(schematics[i]).Some?
    ensures r.Some? ==> (|r.value| == |schematics| &&
      forall i :: 0 <= i < |schematics| ==> r.value[i] == ButtonMask(schematics[i]).value)
  {
    var xs := seq(|schematics|, i requires 0 <= i < |schematics| => ButtonMask(schematics[i]));
    assert forall i :: 0 <= i < |schematics| ==> xs[i] == ButtonMask(schematics[i]);
    Collect(xs)
  }

  // ---------------------------------------------------------------------------
  // Presses

  predicate ValidPresses(masks: seq<Lights>, ps: seq<nat>)
  {
    forall t :: 0 <= t < |ps| ==> ps[t] < |masks|
  }

  /** The lights after pressing the buttons `ps` in turn, starting from all off. */
  function Press(masks: seq<Lights>, ps: seq<nat>): Lights
    requires ValidPresses(masks, ps)
  {
    if ps == [] then {} else Xor(Press(masks, ps[..|ps| - 1]), masks[ps[|ps| - 1]])
  }

  /** Some sequence of exactly `k` presses turns on exactly the lights `s`. */
  ghost predicate ReachableIn(masks: seq<Lights>, s: Lights, k: nat)
  {
    exists ps :: |ps| == k && ValidPresses(masks, ps) && Press(masks, ps) == s
  }

  /** `k` presses reach `target`, and no positive number of presses below `k` does. */
  ghost predicate Fewest(masks: seq<Lights>, target: Lights, k: nat)
  {
    k >= 1 && ReachableIn(masks, target, k) && forall j :: 1 <= j < k ==> !ReachableIn(masks, target, j)
  }

  lemma ReachNone(masks: seq<Lights>, s: Lights)
    ensures ReachableIn(masks, s, 0) <==> s == {}
  {
    assert ValidPresses(masks, []) && Press(masks, []) == {};
  }

  lemma ReachStep(masks: seq<Lights>, s: Lights, k: nat, i: nat)
    requires ReachableIn(masks, s, k) && i < |masks|
    ensures ReachableIn(masks, Xor(s, masks[i]), k + 1)
  {
    var ps :| |ps| == k && ValidPresses(masks, ps) && Press(masks, ps) == s;
    var qs := ps + [i];
    assert qs[..|qs| - 1] == ps;
    assert ValidPresses(masks, qs) && Press(masks, qs) == Xor(s, masks[i]);
  }

  /** The last press of a sequence leaves a state one press shorter behind it. */
  lemma ReachBack(masks: seq<Lights>, s: Lights, k: nat)
    ensures ReachableIn(masks, s, k + 1) ==>
      exists p, i :: 0 <= i < |masks| && ReachableIn(masks, p, k) && s == Xor(p, masks[i])
  {
    if ReachableIn(masks, s, k + 1) {
      var ps :| |ps| == k + 1 && ValidPresses(masks, ps) && Press(masks, ps) == s;
      var qs := ps[..k];
      assert ValidPresses(masks, qs);
      assert ReachableIn(masks, Press(masks, qs), k);
    }
  }

  // ---------------------------------------------------------------------------
  // The search state

  /** `d` is the fewest presses that reach `s`. */
  ghost predicate IsDist(masks: seq<Lights>, s: Lights, d: nat)
  {
    ReachableIn(masks, s, d) && forall j :: 0 <= j < d ==> !ReachableIn(masks, s, j)
  }

  /** Every state reachable in fewer than `d` presses has been expanded. */
  ghost predicate Expanded(masks: seq<Lights>, done: set<Lights>, d: nat)
  {
    forall p, j :: 0 <= j < d && ReachableIn(masks, p, j) ==> p in done
  }

  /** Expanding a state put each neighbour in `seen`, and none of them was the target. */
  predicate Closed(masks: seq<Lights>, target: Lights, done: set<Lights>, seen: set<Lights>)
  {
    forall p, i {:trigger Xor(p, masks[i])} :: p in done && 0 <= i < |masks| ==> Xor(p, masks[i]) in seen && Xor(p, masks[i]) != target
  }

  /** Queue entries carry the fewest presses to their state. */
  ghost predicate Exact(masks: seq<Lights>, queue: seq<(nat, Lights)>)
  {
    forall t :: 0 <= t < |queue| ==> IsDist(masks, queue[t].1, queue[t].0)
  }

  /** The queue is sorted by presses, all of them `level` or `level + 1`. */
  predicate Levels(queue: seq<(nat, Lights)>, level: nat)
  {
    (forall t :: 0 <= t < |queue| ==> level <= queue[t].0 <= level + 1) &&
    (forall t, v :: 0 <= t < v < |queue| ==> queue[t].0 <= queue[v].0)
  }

  /** The states in the queue. */
  function States(queue: seq<(nat, Lights)>): set<Lights>
  {
    if queue == [] then {} else {queue[0].1} + States(queue[1..])
  }

  lemma {:induction false} StatesPush(queue: seq<(nat, Lights)>, x: (nat, Lights))
    ensures States(queue + [x]) == States(queue) + {x.1}
    decreases |queue|
  {
    if queue != [] {
      assert (queue + [x])[1..] == queue[1..] + [x];
      StatesPush(queue[1..], x);
    } else {
      assert ([] + [x])[1..] == [];
    }
  }

  /** A state that no entry carries is not among the queue's states. */
  lemma {:induction false} StatesOut(queue: seq<(nat, Lights)>, p: Lights)
    requires forall t :: 0 <= t < |queue| ==> queue[t].1 != p
    ensures p !in States(queue)
    decreases |queue|
  {
    if queue != [] {
      StatesOut(queue[1..], p);
    }
  }

  /** The lights any button touches. */
  function Union(masks: seq<Lights>): (r: set<nat>)
    ensures forall i :: 0 <= i < |masks| ==> masks[i] <= r
  {
    if masks == [] then {} else Union(masks[..|masks| - 1]) + masks[|masks| - 1]
  }

  ghost function Subsets(u: set<nat>): set<Lights>
  {
    set s: Lights | s <= u
  }

  lemma {:induction false} SubsetCard<T>(a: set<T>, b: set<T>)
    requires a <= b
    ensures |a| <= |b|
    ensures a != b ==> |a| < |b|
    decreases |a|
  {
    if a == {} {
      if a != b {
        var x :| x in b;
        assert |b| >= 1 by { assert {x} <= b; }
      }
    } else {
      var x :| x in a;
      SubsetCard(a - {x}, b - {x});
      if a != b {
        assert !(b <= a);
        var y :| y in b && y !in a;
        assert y != x;
        assert y in b - {x} && y !in a - {x};
      }
    }
  }

  /** Seeing a new state adds one to the states seen since `seen0`. */
  lemma NewSeen<T>(seen0: set<T>, seen: set<T>, x: T)
    requires seen0 <= seen && x !in seen
    ensures |(seen + {x}) - seen0| == |seen - seen0| + 1
  {
    assert (seen + {x}) - seen0 == (seen - seen0) + {x};
  }

  // ---------------------------------------------------------------------------
  // Lemmas of the search

  /**
   * When every state closer than `d` is expanded and the queue holds only
   * states at `d + 1` or beyond, every state at exactly `d` is expanded too.
   */
  lemma Advance(masks: seq<Lights>, target: Lights, done: set<Lights>, seen: set<Lights>,
                queue: seq<(nat, Lights)>, d: nat)
    requires Expanded(masks, done, d) && Closed(masks, target, done, seen)
    requires {} in seen && seen == done + States(queue) && Exact(masks, queue)
    requires forall t :: 0 <= t < |queue| ==> queue[t].0 > d
    ensures Expanded(masks, done, d + 1)
  {
    forall p | ReachableIn(masks, p, d) ensures p in done {
      if d == 0 {
        ReachNone(masks, p);
      } else {
        ReachBack(masks, p, d - 1);
      }
      assert p in seen;
      assert forall t :: 0 <= t < |queue| ==> !ReachableIn(masks, queue[t].1, d);
      StatesOut(queue, p);
    }
  }

  /** With an empty queue, every reachable state has been expanded. */
  lemma {:induction false} ExpandedAll(masks: seq<Lights>, target: Lights, done: set<Lights>, level: nat, k: nat)
    requires Expanded(masks, done, level) && Closed(masks, target, done, done) && {} in done
    ensures Expanded(masks, done, k)
    decreases k
  {
    if k > level {
      ExpandedAll(masks, target, done, level, k - 1);
      Advance(masks, target, done, done, [], k - 1);
    }
  }

  /** A target not met by any expanded state is out of reach in `d` presses or fewer. */
  lemma NotSooner(masks: seq<Lights>, target: Lights, done: set<Lights>, seen: set<Lights>, d: nat)
    requires Expanded(masks, done, d) && Closed(masks, target, done, seen)
    ensures forall j :: 1 <= j <= d ==> !ReachableIn(masks, target, j)
  {
    forall j | 1 <= j <= d ensures !ReachableIn(masks, target, j) {
      ReachBack(masks, target, j - 1);
    }
  }

  /** A state that was not yet seen, one press past level `d`, is at distance `d + 1`. */
  lemma NewIsDist(masks: seq<Lights>, target: Lights, done: set<Lights>, seen: set<Lights>, next: Lights, d: nat)
    requires Expanded(masks, done, d) && Closed(masks, target, done, seen)
    requires {} in seen && next !in seen && ReachableIn(masks, next, d + 1)
    ensures IsDist(masks, next, d + 1)
  {
    forall j | 0 <= j < d + 1 ensures !ReachableIn(masks, next, j) {
      if j == 0 {
        ReachNone(masks, next);
      } else {
        ReachBack(masks, next, j - 1);
      }
    }
  }

  // ---------------------------------------------------------------------------
  // The search

  /** Every state lies within the lights `u`. */
  predicate Within(seen: set<Lights>, u: set<nat>)
  {
    forall s :: s in seen ==> s <= u
  }

  /**
   * The search state inside the loop over the buttons, `b` of them tried
   * on `state`: everything seen is expanded, is `state`, or is queued.
   */
  ghost predicate Inner(masks: seq<Lights>, target: Lights, state: Lights, level: nat, done: set<Lights>,
                        seen: set<Lights>, queue: seq<(nat, Lights)>, b: nat)
  {
    {} in seen && seen == done + {state} + States(queue) && Within(seen, Union(masks)) &&
    Exact(masks, queue) && Levels(queue, level) && Closed(masks, target, done, seen) &&
    b <= |masks| && forall i :: 0 <= i < b ==> Xor(state, masks[i]) in seen && Xor(state, masks[i]) != target
  }

  /** The search state between two pops of the queue. */
  ghost predicate Outer(masks: seq<Lights>, target: Lights, done: set<Lights>, seen: set<Lights>,
                        queue: seq<(nat, Lights)>, level: nat)
  {
    {} in seen && seen == done + States(queue) && Within(seen, Union(masks)) &&
    Exact(masks, queue) && Levels(queue, level) && (queue != [] ==> queue[0].0 == level) &&
    Expanded(masks, done, level) && Closed(masks, target, done, seen)
  }

  lemma OuterPop(masks: seq<Lights>, target: Lights, done: set<Lights>, seen: set<Lights>,
                 queue: seq<(nat, Lights)>, level: nat)
    requires Outer(masks, target, done, seen, queue, level) && queue != []
    ensures Inner(masks, target, queue[0].1, level, done, seen, queue[1..], 0)
    ensures IsDist(masks, queue[0].1, level)
  {
  }

  lemma InnerSkip(masks: seq<Lights>, target: Lights, state: Lights, level: nat, done: set<Lights>,
                  seen: set<Lights>, queue: seq<(nat, Lights)>, b: nat)
    requires Inner(masks, target, state, level, done, seen, queue, b) && b < |masks|
    requires Xor(state, masks[b]) in seen && Xor(state, masks[b]) != target
    ensures Inner(masks, target, state, level, done, seen, queue, b + 1)
  {
  }

  lemma InnerPush(masks: seq<Lights>, target: Lights, state: Lights, level: nat, done: set<Lights>,
                  seen: set<Lights>, queue: seq<(nat, Lights)>, b: nat)
    requires Inner(masks, target, state, level, done, seen, queue, b) && b < |masks|
    requires Expanded(masks, done, level) && IsDist(masks, state, level)
    requires Xor(state, masks[b]) !in seen && Xor(state, masks[b]) != target
    ensures var next := Xor(state, masks[b]);
      Inner(masks, target, state, level, done, seen + {next}, queue + [(level + 1, next)], b + 1)
  {
    var next := Xor(state, masks[b]);
    ReachStep(masks, state, level, b);
    NewIsDist(masks, target, done, seen, next, level);
    StatesPush(queue, (level + 1, next));
    assert next <= Union(masks);
  }

  /** After all buttons, `state` joins the expanded states, and the level moves on when its states are used up. */
  lemma InnerDone(masks: seq<Lights>, target: Lights, state: Lights, level: nat, done: set<Lights>,
                  seen: set<Lights>, queue: seq<(nat, Lights)>)
    requires Inner(masks, target, state, level, done, seen, queue, |masks|)
    requires Expanded(masks, done, level)
    ensures var level' := if queue == [] || queue[0].0 != level then level + 1 else level;
      Outer(masks, target, done + {state}, seen, queue, level')
  {
    if queue == [] || queue[0].0 != level {
      Advance(masks, target, done + {state}, seen, queue, level);
    }
  }

  /**
   * The inner loop of `fewest_presses1`: press each button once on
   * `state`, stopping when a press lands on the target and otherwise
   * queueing each state not seen before.
   */
  method Expand(target: Lights, masks: seq<Lights>, state: Lights, level: nat,
                queue0: seq<(nat, Lights)>, seen0: set<Lights>, ghost done: set<Lights>)
    returns (found: bool, queue: seq<(nat, Lights)>, seen: set<Lights>)
    requires Inner(masks, target, state, level, done, seen0, queue0, 0)
    requires Expanded(masks, done, level) && IsDist(masks, state, level)
    ensures found ==> Fewest(masks, target, level + 1)
    ensures !found ==> Inner(masks, target, state, level, done, seen, queue, |masks|)
    ensures seen0 <= seen && (seen == seen0 ==> queue == queue0)
    ensures !found ==> |queue| == |queue0| + |seen - seen0|
  {
    queue, seen := queue0, seen0;
    for b := 0 to |masks|
      invariant Inner(masks, target, state, level, done, seen, queue, b)
      invariant seen0 <= seen && (seen == seen0 ==> queue == queue0)
      invariant |queue| == |queue0| + |seen - seen0|
    {
      var next := Xor(state, masks[b]);
      if next == target {
        ReachStep(masks, state, level, b);
        NotSooner(masks, target, done, seen, level);
        return true, queue, seen;
      }
      if next !in seen {
        InnerPush(masks, target, state, level, done, seen, queue, b);
        NewSeen(seen0, seen, next);
        seen := seen + {next};
        queue := queue + [(level + 1, next)];
      } else {
        InnerSkip(masks, target, state, level, done, seen, queue, b);
      }
    }
    found := false;
  }

  /**
   * `fewest_presses1`: a breadth-first search from all lights off, each
   * state queued at most once (`pushes`, the number of states ever queued,
   * is the number of states seen); the first press that lands on the target
   * gives the answer. None when the queue runs dry, where the source
   * panics.
   */
  method FewestPresses(target: Lights, masks: seq<Lights>) returns (r: Option<nat>)
    ensures r.Some? ==> Fewest(masks, target, r.value)
    ensures r.None? ==> forall k :: k >= 1 ==> !ReachableIn(masks, target, k)
  {
    var queue: seq<(nat, Lights)> := [(0, {})];
    var seen: set<Lights> := {{}};
    ghost var done: set<Lights> := {};
    ghost var level: nat := 0;
    ghost var all := Subsets(Union(masks));
    ghost var pushes := 1;
    ReachNone(masks, {});
    while queue != []
      invariant Outer(masks, target, done, seen, queue, level)
      invariant seen <= all
      invariant pushes == |seen|
      decreases |all - seen|, |queue|
    {
      var iters := queue[0].0;
      var state := queue[0].1;
      OuterPop(masks, target, done, seen, queue, level);
      ghost var seen0 := seen;
      var found;
      found, queue, seen := Expand(target, masks, state, iters, queue[1..], seen, done);
      if found {
        return Some(iters + 1);
      }
      pushes := pushes + |seen - seen0|;
      InnerDone(masks, target, state, level, done, seen, queue);
      done := done + {state};
      if queue == [] || queue[0].0 != level {
        level := level + 1;
      }
      assert seen <= all;
      SubsetCard(all - seen, all - seen0);
    }
    forall k: nat | k >= 1 ensures !ReachableIn(masks, target, k) {
      ExpandedAll(masks, target, done, level, k);
      NotSooner(masks, target, done, seen, k);
    }
    return None;
  }

  // ---------------------------------------------------------------------------
  // Part 1

  /** One line of input: the lights to turn on, the lights each button toggles, and the joltages. */
  datatype Machine = Machine(indicators: seq<bool>, schematics: seq<seq<Byte>>, joltages: seq<Byte>)

  /** `k` is the fewest presses for machine `m`. */
  ghost predicate Answer(m: Machine, k: nat)
  {
    Target(m.indicators).Some? && Buttons(m.schematics).Some? &&
    Fewest(Buttons(m.schematics).value, Target(m.indicators).value, k)
  }

  /** Machine `m` makes `part1` panic. */
  ghost predicate NoAnswer(m: Machine)
  {
    Target(m.indicators).None? || Buttons(m.schematics).None? ||
    forall k :: k >= 1 ==> !ReachableIn(Buttons(m.schematics).value, Target(m.indicators).value, k)
  }

  /** The fewest presses for one machine, None where `part1` panics on it. */
  method Presses(m: Machine) returns (k: Option<nat>)
    ensures k.Some? ==> Answer(m, k.value)
    ensures k.None? ==> NoAnswer(m)
  {
    var target := Target(m.indicators);
    var masks := Buttons(m.schematics);
    if target.None? || masks.None? {
      return None;
    }
    k := FewestPresses(target.value, masks.value);
  }

  /** One more machine answered. */
  lemma AnswersSnoc(input: seq<Machine>, counts: seq<nat>, k: nat)
    requires |counts| < |input| && Answer(input[|counts|], k)
    requires forall j :: 0 <= j < |counts| ==> Answer(input[j], counts[j])
    ensures forall j :: 0 <= j < |counts| + 1 ==> Answer(input[j], (counts + [k])[j])
  {
    forall j | 0 <= j < |counts| + 1 ensures Answer(input[j], (counts + [k])[j]) {
      if j < |counts| {
        assert (counts + [k])[j] == counts[j];
      }
    }
  }

  /** A machine with an answer does not make `part1` panic. */
  lemma AnsweredNoPanic(input: seq<Machine>, counts: seq<nat>)
    requires |counts| == |input| && forall i :: 0 <= i < |input| ==> Answer(input[i], counts[i])
    ensures forall i :: 0 <= i < |input| ==> !NoAnswer(input[i])
  {
    forall i | 0 <= i < |input| ensures !NoAnswer(input[i]) {
      assert ReachableIn(Buttons(input[i].schematics).value, Target(input[i].indicators).value, counts[i]);
    }
  }

  /**
   * `part1`: the sum over the machines of the fewest presses that light
   * each machine's indicators. None where the source panics: a mask bit
   * at 64 or beyond, or a target that no presses reach. `counts` holds
   * the per-machine answers, `bad` the machine that panics.
   */
  method Part1(input: seq<Machine>) returns (r: Option<nat>, ghost counts: seq<nat>, ghost bad: nat)
    ensures r.Some? ==> |counts| == |input| && r.value == Sum(counts)
    ensures r.Some? ==> forall i :: 0 <= i < |input| ==> Answer(input[i], counts[i])
    ensures r.None? ==> bad < |input| && NoAnswer(input[bad])
    ensures r.None? <==> exists i :: 0 <= i < |input| && NoAnswer(input[i])
  {
    var total: nat := 0;
    counts, bad := [], 0;
    for i := 0 to |input|
      invariant |counts| == i && total == Sum(counts)
      invariant forall j :: 0 <= j < i ==> Answer(input[j], counts[j])
    {
      var k := Presses(input[i]);
      if k.None? {
        return None, counts, i;
      }
      ghost var counts' := counts + [k.value];
      SumSnoc(counts, k.value);
      AnswersSnoc(input, counts, k.value);
      counts := counts';
      total := total + k.value;
    }
    AnsweredNoPanic(input, counts);
    r := Some(total);
  }

  // ---------------------------------------------------------------------------
  // Input

  /** The indicator lights of a token: `#` on, `.` off, any other character skipped. */
  function Indicators(tok: string): (r: seq<bool>)
    ensures |r| <= |tok|
  {
    if tok == [] then []
    else (if tok[0] == '.' then [false] else if tok[0] == '#' then [true] else []) + Indicators(tok[1..])
  }

  /** `s.trim_matches(|c| c == a || c == b)`: trim the start, then the end. */
  function TrimMatches(s: string, a: char, b: char): (r: string)
    ensures r == [] || (r[0] != a && r[0] != b && r[|r| - 1] != a && r[|r| - 1] != b)
    ensures |r| <= |s|
  {
    TrimEnd(TrimStart(s, a, b), a, b)
  }

  function TrimStart(s: string, a: char, b: char): (r: string)
    ensures r == [] || (r[0] != a && r[0] != b)
    ensures |r| <= |s| && r == s[|s| - |r|..]
  {
    if s != [] && (s[0] == a || s[0] == b) then TrimStart(s[1..], a, b) else s
  }

  function TrimEnd(s: string, a: char, b: char): (r: string)
    ensures r == [] || (r[|r| - 1] != a && r[|r| - 1] != b)
    ensures |r| <= |s| && r == s[..|r|]
  {
    if s != [] && (s[|s| - 1] == a || s[|s| - 1] == b) then TrimEnd(s[..|s| - 1], a, b) else s
  }

  /** A comma-separated list of `u8` values; None when a piece does not parse. */
  function Numbers(s: string): (r: Option<seq<Byte>>)
    ensures r.Some? ==> |r.value| == |Split(s, ",")|
  {
    var pieces := Split(s, ",");
    match Collect(seq(|pieces|, i requires 0 <= i < |pieces| => ParseUnsigned(pieces[i], U8_MAX)))
    case None => None
    case Some(vs) => Some(seq(|vs|, i requires 0 <= i < |vs| => vs[i] as Byte))
  }

  /**
   * `input_transform`: the first token gives the indicators, the last,
   * inside braces, the joltages, and each token between, inside
   * parentheses, one button. None where the source panics: fewer than two
   * tokens, or a number that does not parse as a `u8`.
   */
  function InputTransform(line: string): (r: Option<Machine>)
    ensures |Tokens(line)| < 2 ==> r.None?
    ensures r.Some? ==> (r.value.indicators == Indicators(Tokens(line)[0]) &&
      |r.value.schematics| == |Tokens(line)| - 2)
  {
    FromTokens(Tokens(line))
  }

  /** The machine the tokens of a line describe. */
  function FromTokens(ts: seq<string>): (r: Option<Machine>)
    ensures |ts| < 2 ==> r.None?
    ensures r.Some? ==> (r.value.indicators == Indicators(ts[0]) && |r.value.schematics| == |ts| - 2)
  {
    if |ts| < 2 then None
    else
      var schematics := Schematics(ts[1..|ts| - 1]);
      assert schematics.Some? ==> |schematics.value| == |ts| - 2;
      Assemble(Indicators(ts[0]), schematics, Numbers(TrimMatches(ts[|ts| - 1], '{', '}')))
  }

  function Assemble(indicators: seq<bool>, schematics: Option<seq<seq<Byte>>>, joltages: Option<seq<Byte>>): Option<Machine>
  {
    if joltages.None? || schematics.None? then None
    else Some(Machine(indicators, schematics.value, joltages.value))
  }

  /** The buttons of the middle tokens; None when any of them does not parse. */
  function Schematics(ts: seq<string>): (r: Option<seq<seq<Byte>>>)
    ensures r.Some? ==> |r.value| == |ts|
  {
    if ts == [] then Some([])
    else
      match (Numbers(TrimMatches(ts[0], '(', ')')), Schematics(ts[1..]))
      case (Some(b), Some(rest)) => Some([b] + rest)
      case _ => None
  }

  function Lamps(bs: seq<bool>): string
  {
    if bs == [] then [] else [if bs[0] then '#' else '.'] + Lamps(bs[1..])
  }

  function NumberList(ns: seq<Byte>): string
  {
    Join(seq(|ns|, i requires 0 <= i < |ns| => DecimalString(ns[i])), ",")
  }

  /** The written form of a machine: `[.##.] (3) (1,3) {3,5,4,7}`. */
  function Format(m: Machine): string
  {
    Join(Words(m), " ")
  }

  function Words(m: Machine): seq<string>
  {
    ["[" + Lamps(m.indicators) + "]"] +
    seq(|m.schematics|, i requires 0 <= i < |m.schematics| => "(" + NumberList(m.schematics[i]) + ")") +
    ["{" + NumberList(m.joltages) + "}"]
  }

  lemma WordsShape(m: Machine)
    ensures var ws := Words(m); var n := |m.schematics|;
      |ws| == n + 2 && ws[0] == "[" + Lamps(m.indicators) + "]" && ws[n + 1] == "{" + NumberList(m.joltages) + "}" &&
      forall i :: 0 <= i < n ==> ws[i + 1] == "(" + NumberList(m.schematics[i]) + ")"
  {
  }

  lemma {:induction false} IndicatorsAppend(a: string, b: string)
    ensures Indicators(a + b) == Indicators(a) + Indicators(b)
    decreases |a|
  {
    if a != [] {
      assert (a + b)[1..] == a[1..] + b;
      IndicatorsAppend(a[1..], b);
    } else {
      assert a + b == b;
    }
  }

  lemma {:induction false} IndicatorsOfLamps(bs: seq<bool>)
    ensures Indicators(Lamps(bs)) == bs
    decreases |bs|
  {
    if bs != [] {
      var l := Lamps(bs);
      assert l[1..] == Lamps(bs[1..]);
      IndicatorsOfLamps(bs[1..]);
      assert [bs[0]] + bs[1..] == bs;
    }
  }

  lemma {:induction false} LampsChars(bs: seq<bool>)
    ensures forall k :: 0 <= k < |Lamps(bs)| ==> Lamps(bs)[k] == '#' || Lamps(bs)[k] == '.'
    decreases |bs|
  {
    if bs != [] {
      LampsChars(bs[1..]);
    }
  }

  /** Characters of a list of numbers: digits and commas. */
  predicate ListChar(c: char) { IsDigit(c) || c == ',' }

  lemma {:induction false} JoinListChars(pieces: seq<string>)
    requires forall i :: 0 <= i < |pieces| ==> AllDigits(pieces[i])
    ensures forall k :: 0 <= k < |Join(pieces, ",")| ==> ListChar(Join(pieces, ",")[k])
    decreases |pieces|
  {
    if |pieces| > 1 {
      JoinListChars(pieces[1..]);
      var rest := Join(pieces[1..], ",");
      var s := Join(pieces, ",");
      assert s == pieces[0] + "," + rest;
      forall k | 0 <= k < |s| ensures ListChar(s[k]) {
        if k < |pieces[0]| {
          assert s[k] == pieces[0][k];
        } else if k > |pieces[0]| {
          assert s[k] == rest[k - |pieces[0]| - 1];
        }
      }
    } else if |pieces| == 1 {
      assert forall k :: 0 <= k < |pieces[0]| ==> IsDigit(pieces[0][k]);
    }
  }

  /** The written numbers of a list, one piece each. */
  function Digits(ns: seq<Byte>): (ds: seq<string>)
    ensures |ds| == |ns|
    ensures forall i :: 0 <= i < |ds| ==> AllDigits(ds[i]) && ',' !in ds[i]
  {
    var ds := seq(|ns|, i requires 0 <= i < |ns| => DecimalString(ns[i]));
    assert forall i :: 0 <= i < |ds| ==> AllDigits(ds[i]) && ',' !in ds[i] by {
      forall i | 0 <= i < |ds| ensures AllDigits(ds[i]) && ',' !in ds[i] {
        assert AllDigits(ds[i]);
        assert forall t :: 0 <= t < |ds[i]| ==> ds[i][t] != ',';
      }
    }
    ds
  }

  /** A nonempty list of numbers is a token of its own and reads back. */
  lemma NumberListRoundTrip(ns: seq<Byte>)
    requires ns != []
    ensures var t := NumberList(ns);
      t != [] && (forall k :: 0 <= k < |t| ==> ListChar(t[k])) && Numbers(t) == Some(ns)
  {
    var ds := Digits(ns);
    assert NumberList(ns) == Join(ds, ",");
    assert forall k :: 0 <= k < |Join(ds, ",")| ==> ListChar(Join(ds, ",")[k]) by {
      JoinListChars(ds);
    }
    assert Join(ds, ",") != [] by {
      assert ds[0] != [];
      if |ds| > 1 {
        assert Join(ds, ",") == ds[0] + "," + Join(ds[1..], ",");
      }
    }
    assert Numbers(Join(ds, ",")) == Some(ns) by {
      NumbersOfDigits(ns, ds);
    }
  }

  lemma NumbersOfDigits(ns: seq<Byte>, ds: seq<string>)
    requires ns != [] && ds == Digits(ns)
    ensures Numbers(Join(ds, ",")) == Some(ns)
  {
    assert Split(Join(ds, ","), ",") == ds by {
      SplitJoin(ds, ',');
    }
    var parsed := seq(|ds|, i requires 0 <= i < |ds| => ParseUnsigned(ds[i], U8_MAX));
    assert forall i :: 0 <= i < |ns| ==> parsed[i] == Some(ns[i] as nat) by {
      forall i | 0 <= i < |ns| ensures parsed[i] == Some(ns[i] as nat) {
        ParseUnsignedRoundTrip(ns[i], U8_MAX);
      }
    }
    var vs := Collect(parsed).value;
    assert seq(|vs|, i requires 0 <= i < |vs| => vs[i] as Byte) == ns;
  }

  /** Wrapping a token in two delimiters and trimming them gives it back. */
  lemma TrimWrapped(t: string, a: char, b: char)
    requires t != [] && t[0] != a && t[0] != b && t[|t| - 1] != a && t[|t| - 1] != b
    ensures TrimMatches([a] + t + [b], a, b) == t
  {
    var s := [a] + t + [b];
    var u := t + [b];
    assert s[0] == a && s[1..] == u;
    assert TrimStart(s, a, b) == TrimStart(u, a, b) == u;
    assert u[|u| - 1] == b && u[..|u| - 1] == t;
    assert TrimEnd(u, a, b) == TrimEnd(t, a, b) == t;
  }

  /** A token wrapped in two delimiters around a nonempty list of numbers reads back. */
  lemma WrappedNumbers(ns: seq<Byte>, a: char, b: char)
    requires ns != [] && !ListChar(a) && !ListChar(b) && !IsAsciiSpace(a) && !IsAsciiSpace(b)
    ensures var w := [a] + NumberList(ns) + [b];
      w != [] && NoSpace(w) && Numbers(TrimMatches(w, a, b)) == Some(ns)
  {
    NumberListRoundTrip(ns);
    var t := NumberList(ns);
    TrimWrapped(t, a, b);
    var w := [a] + t + [b];
    forall k | 0 <= k < |w| ensures !IsAsciiSpace(w[k]) {
      if 0 < k < |w| - 1 {
        assert w[k] == t[k - 1];
      }
    }
  }

  /** The indicator token is a token of its own and reads back. */
  lemma FirstWord(bs: seq<bool>)
    ensures var w := "[" + Lamps(bs) + "]";
      w != [] && NoSpace(w) && Indicators(w) == bs
  {
    var l := Lamps(bs);
    var w := "[" + l + "]";
    assert NoSpace(w) by {
      LampsChars(bs);
      forall k | 0 <= k < |w| ensures !IsAsciiSpace(w[k]) {
        if 0 < k < |w| - 1 {
          assert w[k] == l[k - 1];
        }
      }
    }
    assert Indicators(w) == bs by {
      IndicatorsAppend("[", l);
      IndicatorsAppend("[" + l, "]");
      IndicatorsOfLamps(bs);
    }
  }

  /** The written form splits into the words it was written from. */
  lemma WordsTokens(m: Machine)
    requires m.joltages != [] && forall i :: 0 <= i < |m.schematics| ==> m.schematics[i] != []
    ensures Tokens(Format(m)) == Words(m)
  {
    WordsPlain(m);
    TokensOfJoin(Words(m));
  }

  /** Every word is non-empty and free of spaces. */
  lemma WordsPlain(m: Machine)
    requires m.joltages != [] && forall i :: 0 <= i < |m.schematics| ==> m.schematics[i] != []
    ensures forall i :: 0 <= i < |Words(m)| ==> Words(m)[i] != [] && NoSpace(Words(m)[i])
  {
    var ws := Words(m);
    var n := |m.schematics|;
    WordsShape(m);
    FirstWord(m.indicators);
    SchematicWords(m);
    WrappedNumbers(m.joltages, '{', '}');
    forall i | 0 <= i < |ws| ensures ws[i] != [] && NoSpace(ws[i]) {
      if 0 < i <= n {
        assert ws[(i - 1) + 1] != [] && NoSpace(ws[(i - 1) + 1]);
      }
    }
  }

  /** Each button's word is a space-free word that reads back as that button. */
  lemma SchematicWords(m: Machine)
    requires forall i :: 0 <= i < |m.schematics| ==> m.schematics[i] != []
    ensures |Words(m)| == |m.schematics| + 2
    ensures forall i :: 0 <= i < |m.schematics| ==>
      (Words(m)[i + 1] != [] && NoSpace(Words(m)[i + 1]) &&
       Numbers(TrimMatches(Words(m)[i + 1], '(', ')')) == Some(m.schematics[i]))
  {
    var ws := Words(m);
    WordsShape(m);
    forall i | 0 <= i < |m.schematics| ensures ws[i + 1] != [] && NoSpace(ws[i + 1]) &&
      Numbers(TrimMatches(ws[i + 1], '(', ')')) == Some(m.schematics[i])
    {
      WrappedNumbers(m.schematics[i], '(', ')');
    }
  }

  /**
   * Every machine whose buttons and joltages list at least one number
   * each reads back from its written form.
   */
  lemma InputTransformRoundTrip(m: Machine)
    requires m.joltages != [] && forall i :: 0 <= i < |m.schematics| ==> m.schematics[i] != []
    ensures InputTransform(Format(m)) == Some(m)
  {
    WordsTokens(m);
    WordsShape(m);
    FirstWord(m.indicators);
    SchematicWords(m);
    WrappedNumbers(m.joltages, '{', '}');
    FromWords(m, Words(m));
  }

  lemma FromWords(m: Machine, ts: seq<string>)
    requires |ts| == |m.schematics| + 2
    requires Indicators(ts[0]) == m.indicators
    requires Numbers(TrimMatches(ts[|ts| - 1], '{', '}')) == Some(m.joltages)
    requires forall i :: 0 <= i < |m.schematics| ==> Numbers(TrimMatches(ts[i + 1], '(', ')')) == Some(m.schematics[i])
    ensures FromTokens(ts) == Some(m)
  {
    var middle := ts[1..|ts| - 1];
    assert forall i :: 0 <= i < |middle| ==> middle[i] == ts[i + 1];
    SchematicsOf(middle, m.schematics);
  }

  lemma {:induction false} SchematicsOf(ts: seq<string>, bs: seq<seq<Byte>>)
    requires |ts| == |bs|
    requires forall i :: 0 <= i < |ts| ==> Numbers(TrimMatches(ts[i], '(', ')')) == Some(bs[i])
    ensures Schematics(ts) == Some(bs)
    decreases |ts|
  {
    if ts != [] {
      SchematicsOf(ts[1..], bs[1..]);
      assert [bs[0]] + bs[1..] == bs;
    }
  }
}
