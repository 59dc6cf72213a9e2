/**
 * Day 11 (day11/src/main.rs): counting the routes through a network of
 * devices to the device `out`, memoising the count per device.
 *
 * The recursion of the source ends only when no device can reach itself;
 * the model asks for a ranking of the devices the walk can meet: every
 * ranked device with outputs sends each of them, `out` aside, to a device
 * of lower rank. The walks recurse on that rank.
 */
module Day11 {
  import opened Common

  /** The devices each device sends to: the `HashMap` built by `create_map`. */
  type Graph = map<string, seq<string>>

  const OUT: string := "out"
  const YOU: string := "you"
  const SVR: string := "svr"
  const FFT: string := "fft"
  const DAC: string := "dac"

  /** Every ranked device with outputs sends each of them, `out` aside, to a device of lower rank. */
  predicate Ranked(graph: Graph, rank: map<string, nat>)
  {
    forall f :: f in rank && f in graph ==>
      forall i :: 0 <= i < |graph[f]| ==> graph[f][i] == OUT || (graph[f][i] in rank && rank[graph[f][i]] < rank[f])
  }

  /** The outputs of `from`, as a ranked device sees them. */
  predicate Below(rank: map<string, nat>, from: string, ts: seq<string>)
    requires from in rank
  {
    forall i :: 0 <= i < |ts| ==> ts[i] == OUT || (ts[i] in rank && rank[ts[i]] < rank[from])
  }

  // ---------------------------------------------------------------------------
  // Part 1

  /**
   * The routes from `from` to `out`, without memoising: each output that is
   * `out` is one route, each other output adds its own routes; a device
   * with no entry has none.
   */
  function Paths(graph: Graph, rank: map<string, nat>, from: string): nat
    requires Ranked(graph, rank) && from in rank
    decreases rank[from], 1
  {
    if from in graph then Via(graph, rank, from, graph[from]) else 0
  }

  /** The routes through the outputs `ts` of `from`. */
  function Via(graph: Graph, rank: map<string, nat>, from: string, ts: seq<string>): nat
    requires Ranked(graph, rank) && from in rank && Below(rank, from, ts)
    decreases rank[from], 0, |ts|
  {
    if ts == [] then 0
    else
      var t := ts[|ts| - 1];
      Via(graph, rank, from, ts[..|ts| - 1]) + (if t == OUT then 1 else Paths(graph, rank, t))
  }

  /** Every memoised count is the count without memoising. */
  predicate Memo(graph: Graph, rank: map<string, nat>, seen: map<string, nat>)
    requires Ranked(graph, rank)
  {
    forall k :: k in seen ==> k in rank && seen[k] == Paths(graph, rank, k)
  }

  /**
   * `walk1`: the routes from `from` to `out`, looking each output up in
   * `seen` first and recording each count it computes there.
   */
  method Walk1(graph: Graph, ghost rank: map<string, nat>, from: string, seen0: map<string, nat>)
    returns (r: nat, seen: map<string, nat>)
    requires Ranked(graph, rank) && from in rank && Memo(graph, rank, seen0)
    ensures r == Paths(graph, rank, from)
    ensures Memo(graph, rank, seen) && seen0.Keys <= seen.Keys
    decreases rank[from]
  {
    seen := seen0;
    if from !in graph {
      return 0, seen;
    }
    var to := graph[from];
    r := 0;
    for i := 0 to |to|
      invariant r == Via(graph, rank, from, to[..i])
      invariant Memo(graph, rank, seen) && seen0.Keys <= seen.Keys
    {
      var t := to[i];
      var routes: nat;
      if t == OUT {
        routes := 1;
      } else if t in seen {
        routes := seen[t];
      } else {
        routes, seen := Walk1(graph, rank, t, seen);
        seen := seen[t := routes];
      }
      assert to[..i + 1][..i] == to[..i];
      r := r + routes;
    }
    assert to[..|to|] == to;
  }

  /** `part1`: the routes from `you`, starting with nothing memoised. */
  method Part1(graph: Graph, ghost rank: map<string, nat>) returns (r: nat)
    requires Ranked(graph, rank) && YOU in rank
    ensures r == Paths(graph, rank, YOU)
  {
    var seen;
    r, seen := Walk1(graph, rank, YOU, map[]);
  }

  // ---------------------------------------------------------------------------
  // Part 2

  /** The flags after entering `from`: passing `fft` or `dac` sets its flag. */
  function Enter(from: string, fft: bool, dac: bool): (r: (bool, bool))
    ensures r.0 <==> fft || from == FFT
    ensures r.1 <==> dac || from == DAC
  {
    match from
    case "fft" => (true, dac)
    case "dac" => (fft, true)
    case _ => (fft, dac)
  }

  /**
   * The routes from `from` to `out` that have passed both `fft` and `dac`
   * by the time they arrive, `fft` and `dac` telling whether the route so
   * far has.
   */
  function Paths2(graph: Graph, rank: map<string, nat>, from: string, fft: bool, dac: bool): nat
    requires Ranked(graph, rank) && from in rank
    decreases rank[from], 1
  {
    var flags := Enter(from, fft, dac);
    if from in graph then Via2(graph, rank, from, graph[from], flags.0, flags.1) else 0
  }

  /** The counted routes through the outputs `ts` of `from`, with the flags as they are at `from`. */
  function Via2(graph: Graph, rank: map<string, nat>, from: string, ts: seq<string>, fft: bool, dac: bool): nat
    requires Ranked(graph, rank) && from in rank && Below(rank, from, ts)
    decreases rank[from], 0, |ts|
  {
    if ts == [] then 0
    else
      var t := ts[|ts| - 1];
      Via2(graph, rank, from, ts[..|ts| - 1], fft, dac) +
        (if t == OUT then (if fft && dac then 1 else 0) else Paths2(graph, rank, t, fft, dac))
  }

  /** Every memoised count, keyed by device and flags, is the count without memoising. */
  predicate Memo2(graph: Graph, rank: map<string, nat>, seen: map<(string, bool, bool), nat>)
    requires Ranked(graph, rank)
  {
    forall k :: k in seen ==> k.0 in rank && seen[k] == Paths2(graph, rank, k.0, k.1, k.2)
  }

  /**
   * `walk2`: the routes from `from` to `out` that pass both `fft` and
   * `dac`, memoised by device and flags.
   */
  method Walk2(graph: Graph, ghost rank: map<string, nat>, from: string,
               seen0: map<(string, bool, bool), nat>, fft0: bool, dac0: bool)
    returns (r: nat, seen: map<(string, bool, bool), nat>)
    requires Ranked(graph, rank) && from in rank && Memo2(graph, rank, seen0)
    ensures r == Paths2(graph, rank, from, fft0, dac0)
    ensures Memo2(graph, rank, seen) && seen0.Keys <= seen.Keys
    decreases rank[from]
  {
    var fft, dac := fft0, dac0;
    match from {
      case "fft" => fft := true;
      case "dac" => dac := true;
      case _ =>
    }
    seen := seen0;
    if from !in graph {
      return 0, seen;
    }
    var to := graph[from];
    r := 0;
    for i := 0 to |to|
      invariant r == Via2(graph, rank, from, to[..i], fft, dac)
      invariant Memo2(graph, rank, seen) && seen0.Keys <= seen.Keys
    {
      var t := to[i];
      var routes: nat;
      if t == OUT {
        routes := if fft && dac then 1 else 0;
      } else if (t, fft, dac) in seen {
        routes := seen[(t, fft, dac)];
      } else {
        routes, seen := Walk2(graph, rank, t, seen, fft, dac);
        seen := seen[(t, fft, dac) := routes];
      }
      Via2Next(graph, rank, from, to, i, fft, dac);
      r := r + routes;
    }
    assert to[..|to|] == to;
  }

  /** Taking one more output of `from` adds the routes counted through it. */
  lemma Via2Next(graph: Graph, rank: map<string, nat>, from: string, ts: seq<string>, i: nat, fft: bool, dac: bool)
    requires Ranked(graph, rank) && from in rank && Below(rank, from, ts) && i < |ts|
    ensures Below(rank, from, ts[..i]) && Below(rank, from, ts[..i + 1]) && (ts[i] != OUT ==> ts[i] in rank)
    ensures Via2(graph, rank, from, ts[..i + 1], fft, dac) == Via2(graph, rank, from, ts[..i], fft, dac)
      + (if ts[i] == OUT then (if fft && dac then 1 else 0) else Paths2(graph, rank, ts[i], fft, dac))
  {
    assert ts[..i + 1][..i] == ts[..i];
    assert ts[..i + 1][i] == ts[i];
  }

  /** `part2`: the routes from `svr` through both `fft` and `dac`. */
  method Part2(graph: Graph, ghost rank: map<string, nat>) returns (r: nat)
    requires Ranked(graph, rank) && SVR in rank
    ensures r == Paths2(graph, rank, SVR, false, false)
  {
    var seen;
    r, seen := Walk2(graph, rank, SVR, map[], false, false);
  }

  /** Once both devices are passed, every route counts: part 2 then agrees with part 1. */
  lemma {:induction false} BothPassed(graph: Graph, rank: map<string, nat>, from: string)
    requires Ranked(graph, rank) && from in rank
    ensures Paths2(graph, rank, from, true, true) == Paths(graph, rank, from)
    decreases rank[from], 1
  {
    if from in graph {
      BothPassedVia(graph, rank, from, graph[from]);
    }
  }

  lemma {:induction false} BothPassedVia(graph: Graph, rank: map<string, nat>, from: string, ts: seq<string>)
    requires Ranked(graph, rank) && from in rank && Below(rank, from, ts)
    ensures Via2(graph, rank, from, ts, true, true) == Via(graph, rank, from, ts)
    decreases rank[from], 0, |ts|
  {
    if ts != [] {
      var t := ts[|ts| - 1];
      BothPassedVia(graph, rank, from, ts[..|ts| - 1]);
      if t != OUT {
        BothPassed(graph, rank, t);
      }
    }
  }

  /** Part 2 counts some of the routes part 1 counts, never more. */
  lemma {:induction false} FewerRoutes(graph: Graph, rank: map<string, nat>, from: string, fft: bool, dac: bool)
    requires Ranked(graph, rank) && from in rank
    ensures Paths2(graph, rank, from, fft, dac) <= Paths(graph, rank, from)
    decreases rank[from], 1
  {
    if from in graph {
      var flags := Enter(from, fft, dac);
      FewerRoutesVia(graph, rank, from, graph[from], flags.0, flags.1);
    }
  }

  lemma {:induction false} FewerRoutesVia(graph: Graph, rank: map<string, nat>, from: string, ts: seq<string>,
                                          fft: bool, dac: bool)
    requires Ranked(graph, rank) && from in rank && Below(rank, from, ts)
    ensures Via2(graph, rank, from, ts, fft, dac) <= Via(graph, rank, from, ts)
    decreases rank[from], 0, |ts|
  {
    if ts != [] {
      var t := ts[|ts| - 1];
      FewerRoutesVia(graph, rank, from, ts[..|ts| - 1], fft, dac);
      if t != OUT {
        FewerRoutes(graph, rank, t, fft, dac);
      }
    }
  }

  // ---------------------------------------------------------------------------
  // Input

  /** One line: a device and the devices it sends to. */
  datatype InputEnt = InputEnt(from: string, to: seq<string>)

  /** `s.trim_end_matches(':')` */
  function TrimColons(s: string): (r: string)
    ensures |r| <= |s| && r == s[..|r|] && (r == [] || r[|r| - 1] != ':')
    ensures forall k :: |r| <= k < |s| ==> s[k] == ':'
  {
    if s != [] && s[|s| - 1] == ':' then TrimColons(s[..|s| - 1]) else s
  }

  /**
   * `input_transform`: the first token without its trailing colons names
   * the device, the other tokens its outputs; None on a blank line, where
   * the source panics.
   */
  function InputTransform(line: string): (r: Option<InputEnt>)
    ensures r.None? <==> Tokens(line) == []
    ensures r.Some? ==> r.value.to == Tokens(line)[1..] && r.value.from == TrimColons(Tokens(line)[0])
  {
    var ts := Tokens(line);
    if ts == [] then None else Some(InputEnt(TrimColons(ts[0]), ts[1..]))
  }

  function Format(e: InputEnt): string
  {
    Join([e.from + ":"] + e.to, " ")
  }

  /** A line whose device name has no trailing colon and whose names are words reads back. */
  lemma InputTransformRoundTrip(e: InputEnt)
    requires NoSpace(e.from) && (e.from == [] || e.from[|e.from| - 1] != ':')
    requires forall i :: 0 <= i < |e.to| ==> e.to[i] != [] && NoSpace(e.to[i])
    ensures InputTransform(Format(e)) == Some(e)
  {
    var ws := [e.from + ":"] + e.to;
    var w := e.from + ":";
    assert forall k :: 0 <= k < |w| ==> !IsAsciiSpace(w[k]) by {
      forall k | 0 <= k < |w| ensures !IsAsciiSpace(w[k]) {
        if k < |e.from| {
          assert w[k] == e.from[k];
        }
      }
    }
    assert NoSpace(w);
    assert forall i :: 1 <= i < |ws| ==> ws[i] == e.to[i - 1];
    TokensOfJoin(ws);
    assert w[..|w| - 1] == e.from;
    assert TrimColons(w) == TrimColons(e.from) == e.from;
    assert ws[1..] == e.to;
  }

  /**
   * `create_map`: each line in turn sets its device's outputs, so a later
   * line for the same device replaces an earlier one.
   */
  method CreateMap(input: seq<InputEnt>) returns (graph: Graph)
    ensures forall k :: k in graph <==> exists i :: 0 <= i < |input| && input[i].from == k
    ensures forall k :: k in graph ==> exists i :: (0 <= i < |input| && input[i].from == k &&
      graph[k] == input[i].to && forall j :: i < j < |input| ==> input[j].from != k)
  {
    graph := map[];
    for n := 0 to |input|
      invariant forall k :: k in graph <==> exists i :: 0 <= i < n && input[i].from == k
      invariant forall k :: k in graph ==> exists i :: (0 <= i < n && input[i].from == k &&
        graph[k] == input[i].to && forall j :: i < j < n ==> input[j].from != k)
    {
      graph := graph[input[n].from := input[n].to];
    }
  }

  // ---------------------------------------------------------------------------
  // The examples of day11/src/tests.rs

  function Example1(): Graph
  {
    map["aaa" := ["you", "hhh"], "you" := ["bbb", "ccc"], "bbb" := ["ddd", "eee"],
        "ccc" := ["ddd", "eee", "fff"], "ddd" := ["ggg"], "eee" := [OUT], "fff" := [OUT],
        "ggg" := [OUT], "hhh" := ["ccc", "fff", "iii"], "iii" := [OUT]]
  }

  function Rank1(): map<string, nat>
  {
    map["aaa" := 5, "you" := 4, "hhh" := 4, "bbb" := 3, "ccc" := 3, "ddd" := 2,
        "eee" := 1, "fff" := 1, "ggg" := 1, "iii" := 1]
  }

  lemma Example1Ranked()
    ensures Ranked(Example1(), Rank1())
  {
    var g, k := Example1(), Rank1();
    forall f | f in k && f in g
      ensures forall i :: 0 <= i < |g[f]| ==> g[f][i] == OUT || (g[f][i] in k && k[g[f][i]] < k[f])
    {
      assert f in {"aaa", "you", "hhh", "bbb", "ccc", "ddd", "eee", "fff", "ggg", "iii"};
      if f == "aaa" {
        assert g[f] == ["you", "hhh"] && k[f] == 5 && k["you"] == 4 && k["hhh"] == 4;
      } else if f == "you" {
        assert g[f] == ["bbb", "ccc"] && k[f] == 4 && k["bbb"] == 3 && k["ccc"] == 3;
      } else if f == "hhh" {
        assert g[f] == ["ccc", "fff", "iii"] && k[f] == 4 && k["ccc"] == 3 && k["fff"] == 1 && k["iii"] == 1;
      } else if f == "bbb" {
        assert g[f] == ["ddd", "eee"] && k[f] == 3 && k["ddd"] == 2 && k["eee"] == 1;
      } else if f == "ccc" {
        assert g[f] == ["ddd", "eee", "fff"] && k[f] == 3 && k["ddd"] == 2 && k["fff"] == 1;
      } else if f == "ddd" {
        assert g[f] == ["ggg"] && k[f] == 2 && k["ggg"] == 1;
      } else {
        assert g[f] == [OUT];
      }
    }
  }

  /** Adding an output adds its routes: one for `out`, the output's own routes otherwise. */
  lemma ViaSnoc(graph: Graph, rank: map<string, nat>, from: string, ts: seq<string>, t: string)
    requires Ranked(graph, rank) && from in rank && Below(rank, from, ts + [t])
    ensures Below(rank, from, ts) && (t != OUT ==> t in rank)
    ensures Via(graph, rank, from, ts + [t])
      == Via(graph, rank, from, ts) + (if t == OUT then 1 else Paths(graph, rank, t))
  {
    assert (ts + [t])[..|ts|] == ts;
    assert (ts + [t])[|ts|] == t;
  }

  /** A device that sends only to `out` has one route. */
  lemma PathsOut(graph: Graph, rank: map<string, nat>, from: string)
    requires Ranked(graph, rank) && from in rank && from in graph && graph[from] == [OUT]
    ensures Paths(graph, rank, from) == 1
  {
    ViaSnoc(graph, rank, from, [], OUT);
  }

  /** A device with one output that is not `out` has the routes of that output. */
  lemma PathsOne(graph: Graph, rank: map<string, nat>, from: string, t: string)
    requires Ranked(graph, rank) && from in rank && from in graph && graph[from] == [t] && t != OUT
    ensures t in rank && Paths(graph, rank, from) == Paths(graph, rank, t)
  {
    assert graph[from][0] == t;
    ViaSnoc(graph, rank, from, [], t);
  }

  /** A device with two outputs, neither of them `out`, has the routes of both. */
  lemma PathsTwo(graph: Graph, rank: map<string, nat>, from: string, t: string, u: string)
    requires Ranked(graph, rank) && from in rank && from in graph && graph[from] == [t, u]
    requires t != OUT && u != OUT
    ensures t in rank && u in rank
    ensures Paths(graph, rank, from) == Paths(graph, rank, t) + Paths(graph, rank, u)
  {
    assert graph[from][0] == t && graph[from][1] == u;
    assert [t, u] == [t] + [u];
    ViaSnoc(graph, rank, from, [], t);
    ViaSnoc(graph, rank, from, [t], u);
  }

  /** A device with three outputs, none of them `out`, has the routes of all three. */
  lemma PathsThree(graph: Graph, rank: map<string, nat>, from: string, t: string, u: string, v: string)
    requires Ranked(graph, rank) && from in rank && from in graph && graph[from] == [t, u, v]
    requires t != OUT && u != OUT && v != OUT
    ensures t in rank && u in rank && v in rank
    ensures Paths(graph, rank, from) == Paths(graph, rank, t) + Paths(graph, rank, u) + Paths(graph, rank, v)
  {
    assert graph[from][0] == t && graph[from][1] == u && graph[from][2] == v;
    assert [t, u, v] == [t, u] + [v] && [t, u] == [t] + [u];
    ViaSnoc(graph, rank, from, [], t);
    ViaSnoc(graph, rank, from, [t], u);
    ViaSnoc(graph, rank, from, [t, u], v);
  }

  lemma Example1Leaves(g: Graph, k: map<string, nat>)
    requires g == Example1() && k == Rank1()
    ensures Ranked(g, k)
    ensures Paths(g, k, "ddd") == 1 && Paths(g, k, "eee") == 1 && Paths(g, k, "fff") == 1
  {
    Example1Ranked();
    PathsOut(g, k, "ggg");
    PathsOut(g, k, "eee");
    PathsOut(g, k, "fff");
    PathsOne(g, k, "ddd", "ggg");
  }

  lemma Example1Middle(g: Graph, k: map<string, nat>)
    requires g == Example1() && k == Rank1()
    ensures Ranked(g, k)
    ensures Paths(g, k, "bbb") == 2 && Paths(g, k, "ccc") == 3
  {
    Example1Leaves(g, k);
    PathsTwo(g, k, "bbb", "ddd", "eee");
    PathsThree(g, k, "ccc", "ddd", "eee", "fff");
  }

  /** The first example has five routes from `you`. */
  lemma Example1Routes(g: Graph, k: map<string, nat>)
    requires g == Example1() && k == Rank1()
    ensures Ranked(g, k) && YOU in k
    ensures Paths(g, k, YOU) == 5
  {
    Example1Middle(g, k);
    PathsTwo(g, k, YOU, "bbb", "ccc");
  }

  function Example2(): Graph
  {
    map["svr" := ["aaa", "bbb"], "aaa" := [FFT], "fft" := ["ccc"], "bbb" := ["tty"],
        "tty" := ["ccc"], "ccc" := ["ddd", "eee"], "ddd" := ["hub"], "hub" := ["fff"],
        "eee" := [DAC], "dac" := ["fff"], "fff" := ["ggg", "hhh"], "ggg" := [OUT], "hhh" := [OUT]]
  }

  function Rank2(): map<string, nat>
  {
    map["svr" := 8, "aaa" := 7, "bbb" := 7, "fft" := 6, "tty" := 6, "ccc" := 5, "ddd" := 4,
        "eee" := 4, "hub" := 3, "dac" := 3, "fff" := 2, "ggg" := 1, "hhh" := 1]
  }

  lemma Example2Ranked()
    ensures Ranked(Example2(), Rank2())
  {
    var g, k := Example2(), Rank2();
    forall f | f in k && f in g
      ensures forall i :: 0 <= i < |g[f]| ==> g[f][i] == OUT || (g[f][i] in k && k[g[f][i]] < k[f])
    {
      assert f in {"svr", "aaa", "bbb", "fft", "tty", "ccc", "ddd", "eee", "hub", "dac", "fff", "ggg", "hhh"};
      if f == "svr" {
        assert g[f] == ["aaa", "bbb"] && k[f] == 8 && k["aaa"] == 7 && k["bbb"] == 7;
      } else if f == "aaa" {
        assert g[f] == [FFT] && k[f] == 7 && k[FFT] == 6;
      } else if f == "bbb" {
        assert g[f] == ["tty"] && k[f] == 7 && k["tty"] == 6;
      } else if f == "fft" {
        assert g[f] == ["ccc"] && k[f] == 6 && k["ccc"] == 5;
      } else if f == "tty" {
        assert g[f] == ["ccc"] && k[f] == 6 && k["ccc"] == 5;
      } else if f == "ccc" {
        assert g[f] == ["ddd", "eee"] && k[f] == 5 && k["ddd"] == 4 && k["eee"] == 4;
      } else if f == "ddd" {
        assert g[f] == ["hub"] && k[f] == 4 && k["hub"] == 3;
      } else if f == "eee" {
        assert g[f] == [DAC] && k[f] == 4 && k[DAC] == 3;
      } else if f == "hub" {
        assert g[f] == ["fff"] && k[f] == 3 && k["fff"] == 2;
      } else if f == "dac" {
        assert g[f] == ["fff"] && k[f] == 3 && k["fff"] == 2;
      } else if f == "fff" {
        assert g[f] == ["ggg", "hhh"] && k[f] == 2 && k["ggg"] == 1 && k["hhh"] == 1;
      } else {
        assert g[f] == [OUT];
      }
    }
  }

  /** A device with one output that is not `out` has the routes of that output. */
  lemma Paths2One(graph: Graph, rank: map<string, nat>, from: string, t: string, fft: bool, dac: bool)
    requires Ranked(graph, rank) && from in rank && from in graph && graph[from] == [t] && t != OUT
    ensures t in rank
    ensures Paths2(graph, rank, from, fft, dac) ==
      Paths2(graph, rank, t, Enter(from, fft, dac).0, Enter(from, fft, dac).1)
  {
    var flags := Enter(from, fft, dac);
    assert graph[from][0] == t;
    assert [t][..0] == [];
    assert Via2(graph, rank, from, [t], flags.0, flags.1) == Paths2(graph, rank, t, flags.0, flags.1);
  }

  /** A device with two outputs, neither of them `out`, has the routes of both. */
  lemma Paths2Two(graph: Graph, rank: map<string, nat>, from: string, t: string, u: string, fft: bool, dac: bool)
    requires Ranked(graph, rank) && from in rank && from in graph && graph[from] == [t, u] && t != OUT && u != OUT
    ensures t in rank && u in rank
    ensures Paths2(graph, rank, from, fft, dac) ==
      Paths2(graph, rank, t, Enter(from, fft, dac).0, Enter(from, fft, dac).1) +
      Paths2(graph, rank, u, Enter(from, fft, dac).0, Enter(from, fft, dac).1)
  {
    var flags := Enter(from, fft, dac);
    assert graph[from][0] == t && graph[from][1] == u;
    assert [t, u][..1] == [t] && [t][..0] == [];
    assert Via2(graph, rank, from, [t], flags.0, flags.1) == Paths2(graph, rank, t, flags.0, flags.1);
    assert Via2(graph, rank, from, [t, u], flags.0, flags.1) ==
      Via2(graph, rank, from, [t], flags.0, flags.1) + Paths2(graph, rank, u, flags.0, flags.1);
  }

  /** A device whose outputs are two devices that each send only to `out`. */
  lemma Paths2Ends(graph: Graph, rank: map<string, nat>, from: string, t: string, u: string, fft: bool, dac: bool)
    requires Ranked(graph, rank) && from in rank && from in graph && graph[from] == [t, u] && t != OUT && u != OUT
    requires t in graph && graph[t] == [OUT] && u in graph && graph[u] == [OUT]
    requires from != FFT && from != DAC && t != FFT && t != DAC && u != FFT && u != DAC
    ensures Paths2(graph, rank, from, fft, dac) == if fft && dac then 2 else 0
  {
    Paths2Two(graph, rank, from, t, u, fft, dac);
    assert [OUT][..0] == [];
    assert Via2(graph, rank, t, [OUT], fft, dac) == if fft && dac then 1 else 0;
    assert Via2(graph, rank, u, [OUT], fft, dac) == if fft && dac then 1 else 0;
  }

  lemma Example2Tail(g: Graph, k: map<string, nat>)
    requires g == Example2() && k == Rank2()
    ensures Ranked(g, k)
    ensures forall a, b :: Paths2(g, k, "fff", a, b) == if a && b then 2 else 0
  {
    Example2Ranked();
    forall a, b ensures Paths2(g, k, "fff", a, b) == if a && b then 2 else 0 {
      Paths2Ends(g, k, "fff", "ggg", "hhh", a, b);
    }
  }

  lemma Example2Branches(g: Graph, k: map<string, nat>)
    requires g == Example2() && k == Rank2()
    ensures Ranked(g, k)
    ensures forall a :: Paths2(g, k, "eee", a, false) == if a then 2 else 0
    ensures forall a :: Paths2(g, k, "ddd", a, false) == 0
  {
    Example2Tail(g, k);
    forall a | true
      ensures Paths2(g, k, "eee", a, false) == if a then 2 else 0
      ensures Paths2(g, k, "ddd", a, false) == 0
    {
      Paths2One(g, k, DAC, "fff", a, false);
      Paths2One(g, k, "eee", DAC, a, false);
      Paths2One(g, k, "hub", "fff", a, false);
      Paths2One(g, k, "ddd", "hub", a, false);
    }
  }

  lemma Example2Middle(g: Graph, k: map<string, nat>)
    requires g == Example2() && k == Rank2()
    ensures Ranked(g, k)
    ensures forall a :: Paths2(g, k, "ccc", a, false) == if a then 2 else 0
  {
    Example2Branches(g, k);
    forall a | true
      ensures Paths2(g, k, "ccc", a, false) == if a then 2 else 0
    {
      Paths2Two(g, k, "ccc", "ddd", "eee", a, false);
    }
  }

  lemma Example2Upper(g: Graph, k: map<string, nat>)
    requires g == Example2() && k == Rank2()
    ensures Ranked(g, k)
    ensures Paths2(g, k, "aaa", false, false) == 2 && Paths2(g, k, "bbb", false, false) == 0
  {
    Example2Middle(g, k);
    Paths2One(g, k, FFT, "ccc", false, false);
    Paths2One(g, k, "aaa", FFT, false, false);
    Paths2One(g, k, "tty", "ccc", false, false);
    Paths2One(g, k, "bbb", "tty", false, false);
  }

  /** The second example has two routes from `svr` through both `fft` and `dac`. */
  lemma Example2Routes(g: Graph, k: map<string, nat>)
    requires g == Example2() && k == Rank2()
    ensures Ranked(g, k) && SVR in k
    ensures Paths2(g, k, SVR, false, false) == 2
  {
    Example2Upper(g, k);
    Paths2Two(g, k, SVR, "aaa", "bbb", false, false);
  }
}
