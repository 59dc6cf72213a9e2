/**
 * Day 8 of aoc2025 (day08/src/main.rs): junctions are joined into
 * circuits by taking edges in order of length. A circuit is a set of
 * junction indices and the circuits form a partition of `0..n`. Part 1
 * joins along the first `join_count` edges and multiplies the sizes of the
 * three largest circuits; part 2 joins until a single circuit remains and
 * multiplies the x coordinates of the two junctions of the last edge.
 * The edge list comes sorted by a floating-point distance; it is an input
 * here.
 */
module Day08 {
  import opened Common

  type Circuits = seq<set<nat>>

  /** An edge `(j1, j2)` between two junctions; its length is not part of the model. */
  type Edge = (nat, nat)

  // ---------------------------------------------------------------------------
  // Circuits

  /** The first circuit holding junction `k`. */
  function Find(cs: Circuits, k: nat): (r: Option<nat>)
    ensures r.Some? ==> r.value < |cs| && k in cs[r.value]
    ensures r.Some? ==> forall i :: 0 <= i < r.value ==> k !in cs[i]
    ensures r.None? ==> forall i :: 0 <= i < |cs| ==> k !in cs[i]
  {
    if cs == [] then None
    else if k in cs[0] then Some(0)
    else
      match Find(cs[1..], k)
      case None => None
      case Some(i) => Some(i + 1)
  }

  /**
   * The circuits partition the junctions `0..n`: each is non-empty and
   * holds only junctions below `n`, no two share a junction, and every
   * junction is in one of them.
   */
  ghost predicate Partition(cs: Circuits, n: nat)
  {
    (forall i :: 0 <= i < |cs| ==> cs[i] != {} && forall k :: k in cs[i] ==> k < n) &&
    (forall i, j :: 0 <= i < j < |cs| ==> cs[i] !! cs[j]) &&
    (forall k: nat :: k < n ==> Find(cs, k).Some?)
  }

  /** In a partition, the circuit holding a junction is the only one holding it. */
  lemma FindUnique(cs: Circuits, n: nat, k: nat, i: nat)
    requires Partition(cs, n) && i < |cs| && k in cs[i]
    ensures Find(cs, k) == Some(i)
  {
  }

  /** `(0..n).map(|j| HashSet::from([j]))` */
  function Singletons(n: nat): (cs: Circuits)
    ensures |cs| == n
  {
    seq(n, j requires 0 <= j < n => {j})
  }

  /** The singletons partition the junctions. */
  lemma SingletonsPartition(n: nat)
    ensures Partition(Singletons(n), n)
  {
    var cs := Singletons(n);
    assert forall i :: 0 <= i < n ==> cs[i] == {i};
    forall k: nat | k < n ensures Find(cs, k).Some? {
      assert k in cs[k];
    }
  }

  /** `Vec::swap_remove`: the last element moves into position `i`. */
  function SwapRemove(v: Circuits, i: nat): (r: Circuits)
    requires i < |v|
    ensures |r| == |v| - 1
    ensures forall t :: 0 <= t < |r| ==> r[t] == if t == i then v[|v| - 1] else v[t]
  {
    if i == |v| - 1 then v[..i] else v[..i] + [v[|v| - 1]] + v[i + 1..|v| - 1]
  }

  /**
   * Joining along the edge `(j1, j2)`: when the two junctions are in
   * different circuits, the later circuit is swap-removed and its
   * junctions are added to the earlier one.
   */
  function Merge(cs: Circuits, j1: nat, j2: nat): Circuits
  {
    match (Find(cs, j1), Find(cs, j2))
    case (Some(a), Some(b)) =>
      if a == b then cs
      else
        var to := Min(a, b);
        var from := Max(a, b);
        SwapRemove(cs, from)[to := cs[to] + cs[from]]
    case _ => cs
  }

  /** Merging keeps the circuits a partition of the junctions. */
  lemma MergePartition(cs: Circuits, n: nat, j1: nat, j2: nat)
    requires Partition(cs, n) && j1 < n && j2 < n
    ensures Partition(Merge(cs, j1, j2), n)
  {
    var a := Find(cs, j1).value;
    var b := Find(cs, j2).value;
    var m := Merge(cs, j1, j2);
    if a == b {
      assert m == cs;
    } else {
      var to := Min(a, b);
      var from := Max(a, b);
      var last := |cs| - 1;
      MergeShape(cs, n, j1, j2);
      assert forall i :: 0 <= i < |m| ==> m[i] != {} && forall k :: k in m[i] ==> k < n;
      assert forall i, j :: 0 <= i < j < |m| ==> m[i] !! m[j] by {
        forall i, j | 0 <= i < j < |m| ensures m[i] !! m[j] {
          var si := if i == from then last else i;
          var sj := if j == from then last else j;
          PartsDisjoint(cs, n, si, sj);
          if i == to {
            PartsDisjoint(cs, n, from, sj);
          }
          if j == to {
            PartsDisjoint(cs, n, si, from);
          }
        }
      }
      assert forall k: nat :: k < n ==> Find(m, k).Some? by {
        forall k: nat | k < n ensures Find(m, k).Some? {
          var i := Find(cs, k).value;
          var t := if i == from then to else if i == last then from else i;
          assert k in m[t];
        }
      }
    }
  }

  lemma PartsDisjoint(cs: Circuits, n: nat, x: nat, y: nat)
    requires Partition(cs, n) && x < |cs| && y < |cs| && x != y
    ensures cs[x] !! cs[y]
  {
    if y < x {
      assert cs[y] !! cs[x];
    }
  }

  /** Merging two different circuits: the later one is swap-removed and added to the earlier one. */
  lemma MergeShape(cs: Circuits, n: nat, j1: nat, j2: nat)
    requires Partition(cs, n) && j1 < n && j2 < n && Find(cs, j1) != Find(cs, j2)
    ensures var a, b := Find(cs, j1).value, Find(cs, j2).value;
      var to, from, m := Min(a, b), Max(a, b), Merge(cs, j1, j2);
      to < from < |cs| && |m| == |cs| - 1 &&
      forall t :: 0 <= t < |m| ==> m[t] == if t == to then cs[to] + cs[from] else if t == from then cs[|cs| - 1] else cs[t]
  {
  }

  /** The number of circuits drops by one exactly when the two junctions were in different circuits. */
  lemma MergeCount(cs: Circuits, n: nat, j1: nat, j2: nat)
    requires Partition(cs, n) && j1 < n && j2 < n
    ensures |Merge(cs, j1, j2)| == |cs| - (if Find(cs, j1) == Find(cs, j2) then 0 else 1)
  {
  }

  /**
   * After the merge, `j1` and `j2` share one circuit, the union of their
   * two circuits; every other circuit is kept, and nothing else appears.
   */
  lemma MergeCircuits(cs: Circuits, n: nat, j1: nat, j2: nat)
    requires Partition(cs, n) && j1 < n && j2 < n
    ensures var m := Merge(cs, j1, j2);
      var joined := cs[Find(cs, j1).value] + cs[Find(cs, j2).value];
      Find(m, j1).Some? && Find(m, j1) == Find(m, j2) && m[Find(m, j1).value] == joined
    ensures var m := Merge(cs, j1, j2);
      forall c :: c in cs && j1 !in c && j2 !in c ==> c in m
    ensures var m := Merge(cs, j1, j2);
      var joined := cs[Find(cs, j1).value] + cs[Find(cs, j2).value];
      forall c :: c in m ==> c == joined || c in cs
  {
    MergeJoins(cs, n, j1, j2);
    MergeKeeps(cs, n, j1, j2);
    MergeAddsNothing(cs, n, j1, j2);
  }

  lemma MergeJoins(cs: Circuits, n: nat, j1: nat, j2: nat)
    requires Partition(cs, n) && j1 < n && j2 < n
    ensures var m := Merge(cs, j1, j2);
      var joined := cs[Find(cs, j1).value] + cs[Find(cs, j2).value];
      Find(m, j1).Some? && Find(m, j1) == Find(m, j2) && m[Find(m, j1).value] == joined
  {
    var a := Find(cs, j1).value;
    var b := Find(cs, j2).value;
    var m := Merge(cs, j1, j2);
    if a == b {
      assert m == cs;
      assert cs[a] + cs[b] == cs[a];
    } else {
      var to := Min(a, b);
      MergeShape(cs, n, j1, j2);
      MergePartition(cs, n, j1, j2);
      FindUnique(m, n, j1, to);
      FindUnique(m, n, j2, to);
    }
  }

  lemma MergeKeeps(cs: Circuits, n: nat, j1: nat, j2: nat)
    requires Partition(cs, n) && j1 < n && j2 < n
    ensures var m := Merge(cs, j1, j2);
      forall c :: c in cs && j1 !in c && j2 !in c ==> c in m
  {
    var a := Find(cs, j1).value;
    var b := Find(cs, j2).value;
    var m := Merge(cs, j1, j2);
    if a != b {
      var from := Max(a, b);
      MergeShape(cs, n, j1, j2);
      forall c | c in cs && j1 !in c && j2 !in c ensures c in m {
        var i :| 0 <= i < |cs| && cs[i] == c;
        assert i != a && i != b;
        var t := if i == |cs| - 1 then from else i;
        assert m[t] == c;
      }
    }
  }

  lemma MergeAddsNothing(cs: Circuits, n: nat, j1: nat, j2: nat)
    requires Partition(cs, n) && j1 < n && j2 < n
    ensures var m := Merge(cs, j1, j2);
      var joined := cs[Find(cs, j1).value] + cs[Find(cs, j2).value];
      forall c :: c in m ==> c == joined || c in cs
  {
    var a := Find(cs, j1).value;
    var b := Find(cs, j2).value;
    var m := Merge(cs, j1, j2);
    if a != b {
      var to, from := Min(a, b), Max(a, b);
      MergeShape(cs, n, j1, j2);
      forall c | c in m ensures c == cs[a] + cs[b] || c in cs {
        var t :| 0 <= t < |m| && m[t] == c;
        if t == to {
          assert c == cs[a] + cs[b];
        } else {
          assert c == cs[if t == from then |cs| - 1 else t];
        }
      }
    } else {
      assert m == cs;
    }
  }

  /** Every edge joins junctions that exist. */
  predicate ValidEdges(n: nat, edges: seq<Edge>)
  {
    forall i :: 0 <= i < |edges| ==> edges[i].0 < n && edges[i].1 < n
  }

  /** The circuits after joining along the edges in order, starting from singletons. */
  function Connected(n: nat, edges: seq<Edge>): Circuits
  {
    if edges == [] then Singletons(n)
    else
      var e := edges[|edges| - 1];
      Merge(Connected(n, edges[..|edges| - 1]), e.0, e.1)
  }

  /**
   * Joining along edges between existing junctions keeps a partition, and
   * each edge removes at most one circuit.
   */
  lemma {:induction false} ConnectedPartition(n: nat, edges: seq<Edge>)
    requires ValidEdges(n, edges)
    ensures var cs := Connected(n, edges);
      Partition(cs, n) && |cs| + |edges| >= n && |cs| <= n
  {
    if edges == [] {
      SingletonsPartition(n);
    } else {
      var e := edges[|edges| - 1];
      var front := edges[..|edges| - 1];
      assert ValidEdges(n, front);
      ConnectedPartition(n, front);
      var cs0 := Connected(n, front);
      MergePartition(cs0, n, e.0, e.1);
      MergeCount(cs0, n, e.0, e.1);
    }
  }

  /** The circuit holds exactly the junctions `0..n`. */
  ghost predicate Spans(c: set<nat>, n: nat)
  {
    forall k: nat :: k in c <==> k < n
  }

  /** One circuit left means every junction is in it. */
  lemma SingleCircuit(cs: Circuits, n: nat)
    requires Partition(cs, n) && |cs| == 1
    ensures Spans(cs[0], n)
  {
    forall k: nat | k < n ensures k in cs[0] {
      assert Find(cs, k).Some?;
    }
  }

  // ---------------------------------------------------------------------------
  // The join, as the source writes it

  /** The indices of the circuits holding `j1` or `j2`, ascending. */
  function Positions(cs: Circuits, j1: nat, j2: nat): seq<nat>
  {
    if cs == [] then []
    else
      var front := Positions(cs[..|cs| - 1], j1, j2);
      var last := |cs| - 1;
      front + (if j1 in cs[last] || j2 in cs[last] then [last] else [])
  }

  /** In a partition the positions are the circuits of `j1` and `j2`, in order. */
  lemma PositionsOfPartition(cs: Circuits, n: nat, j1: nat, j2: nat)
    requires Partition(cs, n) && j1 < n && j2 < n
    ensures var a, b := Find(cs, j1).value, Find(cs, j2).value;
      Positions(cs, j1, j2) == if a == b then [a] else [Min(a, b), Max(a, b)]
  {
    var a, b := Find(cs, j1).value, Find(cs, j2).value;
    forall i | 0 <= i < |cs| ensures (j1 in cs[i] || j2 in cs[i]) <==> (i == a || i == b) {
      if j1 in cs[i] {
        FindUnique(cs, n, j1, i);
      }
      if j2 in cs[i] {
        FindUnique(cs, n, j2, i);
      }
    }
    PositionsPrefix(cs, j1, j2, a, b, |cs|);
    assert cs[..|cs|] == cs;
  }

  /** The circuits `a` and `b` among the first `m`, in ascending order. */
  function Below2(a: nat, b: nat, m: nat): seq<nat>
  {
    (if Min(a, b) < m then [Min(a, b)] else []) + (if a != b && Max(a, b) < m then [Max(a, b)] else [])
  }

  lemma {:induction false} PositionsPrefix(cs: Circuits, j1: nat, j2: nat, a: nat, b: nat, m: nat)
    requires forall i :: 0 <= i < |cs| ==> ((j1 in cs[i] || j2 in cs[i]) <==> (i == a || i == b))
    requires m <= |cs|
    ensures Positions(cs[..m], j1, j2) == Below2(a, b, m)
  {
    if m > 0 {
      PositionsPrefix(cs, j1, j2, a, b, m - 1);
      assert cs[..m][..m - 1] == cs[..m - 1];
    }
  }

  /**
   * The body of the edge loop in `part1` and `part2`: find the circuits
   * holding `j1` or `j2`, and fold every one after the first into the
   * first.
   */
  method Connect(cs: Circuits, n: nat, j1: nat, j2: nat) returns (next: Circuits)
    requires Partition(cs, n) && j1 < n && j2 < n
    ensures next == Merge(cs, j1, j2)
  {
    var positions := Positions(cs, j1, j2);
    PositionsOfPartition(cs, n, j1, j2);
    var to := positions[0];
    next := cs;
    for k := 1 to |positions|
      invariant next == if k == 1 then cs else Merge(cs, j1, j2)
    {
      var from := positions[k];
      var removed := next[from];
      next := SwapRemove(next, from);
      next := next[to := next[to] + removed];
    }
  }

  /** Joining along `edges[k]` after the edges before it. */
  method ConnectNext(n: nat, edges: seq<Edge>, k: nat, circuits: Circuits) returns (next: Circuits)
    requires ValidEdges(n, edges) && k < |edges|
    requires circuits == Connected(n, edges[..k])
    ensures next == Connected(n, edges[..k + 1]) && |next| == CircuitsAfter(n, edges, k)
  {
    var (j1, j2) := edges[k];
    assert edges[..k + 1][..k] == edges[..k];
    assert ValidEdges(n, edges[..k]);
    ConnectedPartition(n, edges[..k]);
    next := Connect(circuits, n, j1, j2);
  }

  // ---------------------------------------------------------------------------
  // Part 1

  /** Inserts `x` into a list sorted by descending value, after the values equal to it. */
  function Insert(x: nat, s: seq<nat>): (r: seq<nat>)
    requires SortedDesc(s)
    ensures SortedDesc(r) && multiset(r) == multiset(s) + multiset{x} && |r| == |s| + 1
  {
    if s == [] then [x]
    else if s[0] >= x then
      var rest := Insert(x, s[1..]);
      assert s == [s[0]] + s[1..];
      HeadLargest(x, s, rest);
      [s[0]] + rest
    else [x] + s
  }

  /** The head of a descending list is at least everything inserting a smaller `x` into its rest gives. */
  lemma HeadLargest(x: nat, s: seq<nat>, rest: seq<nat>)
    requires SortedDesc(s) && s != [] && s[0] >= x
    requires multiset(rest) == multiset(s[1..]) + multiset{x}
    ensures forall t :: 0 <= t < |rest| ==> rest[t] <= s[0]
  {
    forall t | 0 <= t < |rest| ensures rest[t] <= s[0] {
      assert rest[t] in multiset(rest);
      if rest[t] != x {
        assert rest[t] in multiset(s[1..]);
        var u :| 0 <= u < |s[1..]| && s[1..][u] == rest[t];
        assert s[u + 1] == rest[t];
      }
    }
  }

  predicate SortedDesc(s: seq<nat>)
  {
    forall i, j :: 0 <= i < j < |s| ==> s[i] >= s[j]
  }

  /** `sort_by_key(|b| Reverse(b.len()))` on the sizes. */
  function SortDesc(s: seq<nat>): (r: seq<nat>)
    ensures SortedDesc(r) && multiset(r) == multiset(s) && |r| == |s|
  {
    if s == [] then []
    else
      assert s == s[..|s| - 1] + [s[|s| - 1]];
      Insert(s[|s| - 1], SortDesc(s[..|s| - 1]))
  }

  function Sizes(cs: Circuits): (r: seq<nat>)
    ensures |r| == |cs|
  {
    seq(|cs|, i requires 0 <= i < |cs| => |cs[i]|)
  }

  /** The (up to) three largest sizes, largest first. */
  function Largest3(cs: Circuits): (top: seq<nat>)
    ensures |top| == Min(3, |cs|) && SortedDesc(top)
  {
    SortDesc(Sizes(cs))[..Min(3, |cs|)]
  }

  /**
   * None of the remaining sizes beats one of the three picked, and every
   * picked size is the size of a circuit.
   */
  lemma Largest3AreLargest(cs: Circuits)
    ensures var sorted := SortDesc(Sizes(cs));
      forall i, j :: 0 <= i < |Largest3(cs)| <= j < |cs| ==> Largest3(cs)[i] >= sorted[j]
    ensures forall x :: x in Largest3(cs) ==> exists i :: 0 <= i < |cs| && |cs[i]| == x
  {
    var sorted := SortDesc(Sizes(cs));
    forall x | x in Largest3(cs) ensures exists i :: 0 <= i < |cs| && |cs[i]| == x {
      assert x in multiset(sorted);
      assert x in multiset(Sizes(cs));
      var i :| 0 <= i < |cs| && Sizes(cs)[i] == x;
    }
  }

  /** In a partition no circuit is empty, so the product is positive. */
  lemma {:induction false} ProductPositive(s: seq<nat>)
    requires forall i :: 0 <= i < |s| ==> s[i] >= 1
    ensures Product(s) >= 1
  {
    if s != [] {
      ProductPositive(s[..|s| - 1]);
      MulLe(1, Product(s[..|s| - 1]), s[|s| - 1]);
    }
  }

  /**
   * `part1`: joins along the first `join_count` edges and multiplies the
   * sizes of the three largest circuits.
   */
  method Part1(n: nat, edges: seq<Edge>, joinCount: nat) returns (r: nat)
    requires ValidEdges(n, edges)
    ensures r == Product(Largest3(Connected(n, edges[..Min(joinCount, |edges|)])))
    ensures r >= 1
  {
    var circuits := Singletons(n);
    var taken := Min(joinCount, |edges|);
    for k := 0 to taken
      invariant ValidEdges(n, edges[..k])
      invariant circuits == Connected(n, edges[..k])
    {
      circuits := ConnectNext(n, edges, k, circuits);
    }
    ConnectedPartition(n, edges[..taken]);
    var top := Largest3(circuits);
    forall t | 0 <= t < |top| ensures top[t] >= 1 {
      assert top[t] in multiset(Sizes(circuits));
    }
    ProductPositive(top);
    r := Product(top);
  }

  // ---------------------------------------------------------------------------
  // Part 2

  /** The number of circuits once the edges up to and including `edges[k]` are joined. */
  function CircuitsAfter(n: nat, edges: seq<Edge>, k: nat): nat
    requires k < |edges|
  {
    |Connected(n, edges[..k + 1])|
  }

  /** The number of circuits after each edge. */
  function Counts(n: nat, edges: seq<Edge>): (r: seq<nat>)
    ensures |r| == |edges|
  {
    seq(|edges|, k requires 0 <= k < |edges| => CircuitsAfter(n, edges, k))
  }

  /** The first index from `from` on where a single circuit remains. */
  function FirstSingle(counts: seq<nat>, from: nat): (r: Option<nat>)
    requires from <= |counts|
    ensures r.Some? ==> from <= r.value < |counts| && counts[r.value] == 1
    decreases |counts| - from
  {
    if from == |counts| then None
    else if counts[from] == 1 then Some(from)
    else FirstSingle(counts, from + 1)
  }

  /** The first edge after which a single circuit remains. */
  function FirstJoining(n: nat, edges: seq<Edge>): (r: Option<nat>)
    ensures r.Some? ==> r.value < |edges| && CircuitsAfter(n, edges, r.value) == 1
  {
    FirstSingle(Counts(n, edges), 0)
  }

  /** No index before the one `FirstSingle` finds holds a single circuit, and none at all when it finds none. */
  lemma {:induction false} FirstSingleFirst(counts: seq<nat>, from: nat)
    requires from <= |counts|
    ensures FirstSingle(counts, from).Some? ==>
      forall k :: from <= k < FirstSingle(counts, from).value ==> counts[k] != 1
    ensures FirstSingle(counts, from).None? ==> forall k :: from <= k < |counts| ==> counts[k] != 1
    decreases |counts| - from
  {
    if from < |counts| && counts[from] != 1 {
      FirstSingleFirst(counts, from + 1);
    }
  }

  /** No edge before the one `FirstJoining` finds leaves a single circuit, and none at all when it finds none. */
  lemma FirstJoiningFirst(n: nat, edges: seq<Edge>)
    ensures FirstJoining(n, edges).Some? ==>
      forall k :: 0 <= k < FirstJoining(n, edges).value ==> CircuitsAfter(n, edges, k) != 1
    ensures FirstJoining(n, edges).None? ==> forall k :: 0 <= k < |edges| ==> CircuitsAfter(n, edges, k) != 1
  {
    var counts := Counts(n, edges);
    FirstSingleFirst(counts, 0);
    assert forall k :: 0 <= k < |edges| ==> counts[k] == CircuitsAfter(n, edges, k);
  }

  /** `x1 * x2` on `u64`, failing where the source overflows. */
  function MulU64(x1: nat, x2: nat): (r: Option<nat>)
    ensures r.Some? <==> x1 * x2 <= U64_MAX
    ensures r.Some? ==> r.value == x1 * x2
  {
    if x1 * x2 <= U64_MAX then Some(x1 * x2) else None
  }

  /**
   * `part2`: joins along the edges in order until one circuit remains and
   * multiplies the x coordinates of that edge's junctions; 0 when the
   * junctions never end up in one circuit.
   */
  method Part2(xs: seq<U64>, edges: seq<Edge>) returns (r: Option<nat>)
    requires ValidEdges(|xs|, edges)
    ensures FirstJoining(|xs|, edges).None? ==> r == Some(0)
    ensures FirstJoining(|xs|, edges).Some? ==>
      var e := edges[FirstJoining(|xs|, edges).value];
      r == MulU64(xs[e.0], xs[e.1])
  {
    var n := |xs|;
    ghost var counts := Counts(n, edges);
    var circuits := Singletons(n);
    r := Some(0);
    for k := 0 to |edges|
      invariant circuits == Connected(n, edges[..k])
      invariant forall k' :: 0 <= k' < k ==> counts[k'] != 1
      invariant r == Some(0)
    {
      var (j1, j2) := edges[k];
      circuits := ConnectNext(n, edges, k, circuits);
      assert counts[k] == |circuits|;
      if |circuits| == 1 {
        FirstSingleIs(counts, 0, k);
        r := MulU64(xs[j1], xs[j2]);
        return;
      }
    }
    FirstSingleNone(counts, 0);
  }

  lemma {:induction false} FirstSingleIs(counts: seq<nat>, from: nat, k: nat)
    requires from <= k < |counts| && counts[k] == 1
    requires forall k' :: from <= k' < k ==> counts[k'] != 1
    ensures FirstSingle(counts, from) == Some(k)
    decreases k - from
  {
    if from < k {
      FirstSingleIs(counts, from + 1, k);
    }
  }

  lemma {:induction false} FirstSingleNone(counts: seq<nat>, from: nat)
    requires from <= |counts|
    requires forall k :: from <= k < |counts| ==> counts[k] != 1
    ensures FirstSingle(counts, from) == None
    decreases |counts| - from
  {
    if from < |counts| {
      FirstSingleNone(counts, from + 1);
    }
  }

  /** When part 2 finds its edge, every junction is in the one circuit. */
  lemma FirstJoiningConnectsAll(n: nat, edges: seq<Edge>)
    requires ValidEdges(n, edges) && FirstJoining(n, edges).Some?
    ensures var k := FirstJoining(n, edges).value;
      Spans(Connected(n, edges[..k + 1])[0], n)
  {
    var k := FirstJoining(n, edges).value;
    assert ValidEdges(n, edges[..k + 1]);
    ConnectedPartition(n, edges[..k + 1]);
    SingleCircuit(Connected(n, edges[..k + 1]), n);
  }

  /** Part 2 needs at least `n - 1` edges before one circuit remains. */
  lemma FirstJoiningLate(n: nat, edges: seq<Edge>)
    requires ValidEdges(n, edges) && FirstJoining(n, edges).Some?
    ensures FirstJoining(n, edges).value + 2 >= n
  {
    var k := FirstJoining(n, edges).value;
    assert ValidEdges(n, edges[..k + 1]);
    ConnectedPartition(n, edges[..k + 1]);
  }

  // ---------------------------------------------------------------------------
  // Input

  /** `input_transform`: the comma-separated `u64` coordinates of a junction; None where a piece does not parse. */
  function InputTransform(line: string): (r: Option<seq<U64>>)
    ensures r.Some? ==> |r.value| == |Split(line, ",")|
  {
    var pieces := Split(line, ",");
    match Collect(seq(|pieces|, i requires 0 <= i < |pieces| => ParseUnsigned(pieces[i], U64_MAX)))
    case None => None
    case Some(vs) => Some(seq(|vs|, i requires 0 <= i < |vs| => vs[i] as U64))
  }

  function FormatJunction(coords: seq<U64>): string
  {
    Join(seq(|coords|, i requires 0 <= i < |coords| => DecimalString(coords[i])), ",")
  }

  /** Every junction with at least one coordinate reads back from its written form. */
  lemma InputTransformRoundTrip(coords: seq<U64>)
    requires coords != []
    ensures InputTransform(FormatJunction(coords)) == Some(coords)
  {
    var ds := seq(|coords|, i requires 0 <= i < |coords| => DecimalString(coords[i]));
    forall i | 0 <= i < |ds| ensures ',' !in ds[i] {
      assert AllDigits(ds[i]);
      assert forall t :: 0 <= t < |ds[i]| ==> ds[i][t] != ',';
    }
    SplitJoin(ds, ',');
    var parsed := seq(|ds|, i requires 0 <= i < |ds| => ParseUnsigned(ds[i], U64_MAX));
    forall i | 0 <= i < |coords| ensures parsed[i] == Some(coords[i] as nat) {
      ParseUnsignedRoundTrip(coords[i], U64_MAX);
    }
    var vs := Collect(parsed).value;
    assert seq(|vs|, i requires 0 <= i < |vs| => vs[i] as U64) == coords;
  }
}
