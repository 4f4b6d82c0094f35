/**
 The `Graph` class: its working set `mShortestDistances`, the two helpers
 that wire edges and register nodes, `set_start_node`, and the main loop of
 `run_dijkstras_algorithm`.

 In the source the graph only holds pointers and the nodes belong to the
 caller. Here a `Graph` value carries both: the arena of nodes and the
 working set, a sequence of arena indices.
 */
module Graphs {
  import opened Machine
  import opened Nodes
  import opened Ordering

  /** The nodes and the working set of not yet finalized nodes. */
  datatype Graph = Graph(nodes: Arena, working: seq<nat>)

  /** Every edge and every working-set entry names a node of the arena. */
  predicate Valid(g: Graph) {
    ValidArena(g.nodes) && InArena(g.nodes, g.working)
  }

  /** The edges `i -> connected[i]` of weight `lengths[i]`, in input order. */
  function ForwardEdges(connected: seq<nat>, lengths: seq<i32>): (r: seq<Edge>)
    requires |connected| <= |lengths|
    ensures |r| == |connected|
    ensures forall i :: 0 <= i < |r| ==> r[i].target == connected[i] && r[i].weight == lengths[i]
  {
    seq(|connected|, i requires 0 <= i < |connected| => Edge(connected[i], lengths[i]))
  }

  /** The forward edges from index `i` on are edge `i` followed by those
      from `i + 1` on. */
  lemma ForwardEdgesCons(connected: seq<nat>, lengths: seq<i32>, i: nat)
    requires |connected| <= |lengths| && i < |connected|
    ensures ForwardEdges(connected[i..], lengths[i..])
         == [Edge(connected[i], lengths[i])] + ForwardEdges(connected[i + 1..], lengths[i + 1..])
  {
    var x := ForwardEdges(connected[i..], lengths[i..]);
    var y := [Edge(connected[i], lengths[i])] + ForwardEdges(connected[i + 1..], lengths[i + 1..]);
    forall k | 0 <= k < |x| ensures x[k] == y[k] {
      if k > 0 {
        assert connected[i..][k] == connected[i + 1..][k - 1];
        assert lengths[i..][k] == lengths[i + 1..][k - 1];
      }
    }
  }

  /** The loop of `add_node_manual_reconnections` from index `i` on: each
      pass appends one forward edge to node `n`. */
  function ManualLoop(a: Arena, n: nat, connected: seq<nat>, lengths: seq<i32>, i: nat): (r: Arena)
    requires n < |a| && |connected| <= |lengths| && i <= |connected|
    ensures |r| == |a|
    ensures forall j :: 0 <= j < |a| && j != n ==> r[j] == a[j]
    ensures r[n].dist == a[n].dist && r[n].visited == a[n].visited
    ensures r[n].edges == a[n].edges + ForwardEdges(connected[i..], lengths[i..])
    decreases |connected| - i
  {
    if i == |connected| then a
    else
      var a' := a[n := AddConnected(a[n], Edge(connected[i], lengths[i]))];
      var r := ManualLoop(a', n, connected, lengths, i + 1);
      ForwardEdgesCons(connected, lengths, i);
      AppendAssoc(a[n].edges, [Edge(connected[i], lengths[i])], ForwardEdges(connected[i + 1..], lengths[i + 1..]));
      r
  }

  /** `add_node_manual_reconnections`: appends the edges `n -> connected[i]`
      to node `n` only, in input order, and registers `n` in the working set
      once. No other node changes. */
  function AddNodeManualReconnections(g: Graph, n: nat, connected: seq<nat>, lengths: seq<i32>): (r: Graph)
    requires Valid(g) && n < |g.nodes| && InArena(g.nodes, connected) && |connected| <= |lengths|
    ensures Valid(r)
    ensures r.working == g.working + [n]
    ensures |r.nodes| == |g.nodes|
    ensures forall j :: 0 <= j < |g.nodes| && j != n ==> r.nodes[j] == g.nodes[j]
    ensures r.nodes[n].edges == g.nodes[n].edges + ForwardEdges(connected, lengths)
    ensures r.nodes[n].dist == g.nodes[n].dist && r.nodes[n].visited == g.nodes[n].visited
  {
    var a := ManualLoop(g.nodes, n, connected, lengths, 0);
    assert connected[0..] == connected && lengths[0..] == lengths;
    var r := Graph(a, g.working + [n]);
    assert ValidArena(a) by {
      forall i, k | 0 <= i < |a| && 0 <= k < |a[i].edges| ensures a[i].edges[k].target < |a| {
        if i == n && k >= |g.nodes[n].edges| {
          assert a[i].edges[k] == ForwardEdges(connected, lengths)[k - |g.nodes[n].edges|];
        }
      }
    }
    r
  }

  /** The back edges `connected[i] -> n` that the automatic helper appends to
      node `j`, in input order. */
  function BackEdges(n: nat, connected: seq<nat>, lengths: seq<i32>, j: nat): seq<Edge>
    requires |connected| <= |lengths|
  {
    if |connected| == 0 then []
    else (if connected[0] == j then [Edge(n, lengths[0])] else [])
         + BackEdges(n, connected[1..], lengths[1..], j)
  }

  /** The edges the automatic helper appends to node `n` itself: the forward
      edge of each pair, followed by its mirror when the pair names `n`. */
  function OwnEdges(n: nat, connected: seq<nat>, lengths: seq<i32>): seq<Edge>
    requires |connected| <= |lengths|
  {
    if |connected| == 0 then []
    else [Edge(connected[0], lengths[0])]
         + (if connected[0] == n then [Edge(n, lengths[0])] else [])
         + OwnEdges(n, connected[1..], lengths[1..])
  }

  /** One pass of the loop in `add_node_auto_reconnections`: appends
      `n -> c` to `n`, then `c -> n` to `c`, both of weight `w`. When `c` is
      `n` itself, `n` receives both edges, in that order. */
  function AutoPass(a: Arena, n: nat, c: nat, w: i32): (r: Arena)
    requires n < |a| && c < |a|
    ensures |r| == |a|
    ensures forall j :: 0 <= j < |a| ==> r[j].dist == a[j].dist && r[j].visited == a[j].visited
    ensures forall j :: 0 <= j < |a| && j != n ==>
              r[j].edges == a[j].edges + (if c == j then [Edge(n, w)] else [])
    ensures r[n].edges == a[n].edges + ([Edge(c, w)] + (if c == n then [Edge(n, w)] else []))
  {
    var a1 := a[n := AddConnected(a[n], Edge(c, w))];
    a1[c := AddConnected(a1[c], Edge(n, w))]
  }

  /** The loop of `add_node_auto_reconnections` from index `i` on: one
      `AutoPass` per remaining pair. */
  function AutoLoop(a: Arena, n: nat, connected: seq<nat>, lengths: seq<i32>, i: nat): (r: Arena)
    requires n < |a| && InArena(a, connected) && |connected| <= |lengths| && i <= |connected|
    ensures |r| == |a|
    ensures forall j :: 0 <= j < |a| ==> r[j].dist == a[j].dist && r[j].visited == a[j].visited
    ensures forall j :: 0 <= j < |a| && j != n ==>
              r[j].edges == a[j].edges + BackEdges(n, connected[i..], lengths[i..], j)
    ensures r[n].edges == a[n].edges + OwnEdges(n, connected[i..], lengths[i..])
    decreases |connected| - i
  {
    if i == |connected| then a
    else
      var a2 := AutoPass(a, n, connected[i], lengths[i]);
      var r := AutoLoop(a2, n, connected, lengths, i + 1);
      AutoLoopStep(a, n, connected, lengths, i, a2, r);
      r
  }

  /** One pass of `AutoLoop`: the edges it appends, followed by the edges of
      the remaining passes, are the edges of the passes from `i` on. */
  lemma AutoLoopStep(a: Arena, n: nat, connected: seq<nat>, lengths: seq<i32>, i: nat, a2: Arena, r: Arena)
    requires n < |a| && InArena(a, connected) && |connected| <= |lengths| && i < |connected|
    requires a2 == AutoPass(a, n, connected[i], lengths[i])
    requires |r| == |a2|
    requires forall j :: 0 <= j < |a2| ==> r[j].dist == a2[j].dist && r[j].visited == a2[j].visited
    requires forall j :: 0 <= j < |a2| && j != n ==>
               r[j].edges == a2[j].edges + BackEdges(n, connected[i + 1..], lengths[i + 1..], j)
    requires r[n].edges == a2[n].edges + OwnEdges(n, connected[i + 1..], lengths[i + 1..])
    ensures |r| == |a|
    ensures forall j :: 0 <= j < |a| ==> r[j].dist == a[j].dist && r[j].visited == a[j].visited
    ensures forall j :: 0 <= j < |a| && j != n ==>
              r[j].edges == a[j].edges + BackEdges(n, connected[i..], lengths[i..], j)
    ensures r[n].edges == a[n].edges + OwnEdges(n, connected[i..], lengths[i..])
  {
    var c, w := connected[i], lengths[i];
    assert connected[i..][1..] == connected[i + 1..] && lengths[i..][1..] == lengths[i + 1..];
    forall j | 0 <= j < |a| && j != n
      ensures r[j].edges == a[j].edges + BackEdges(n, connected[i..], lengths[i..], j)
    {
      AppendAssoc(a[j].edges, if c == j then [Edge(n, w)] else [], BackEdges(n, connected[i + 1..], lengths[i + 1..], j));
    }
    var mirror := if c == n then [Edge(n, w)] else [];
    AppendAssoc(a[n].edges, [Edge(c, w)] + mirror, OwnEdges(n, connected[i + 1..], lengths[i + 1..]));
  }

  /** Concatenation is associative. */
  lemma AppendAssoc(x: seq<Edge>, y: seq<Edge>, z: seq<Edge>)
    ensures (x + y) + z == x + (y + z)
  {
  }

  /** A node that no pair names receives no back edge. */
  lemma {:induction false} BackEdgesAbsent(n: nat, connected: seq<nat>, lengths: seq<i32>, j: nat)
    requires |connected| <= |lengths| && j !in connected
    ensures BackEdges(n, connected, lengths, j) == []
    decreases |connected|
  {
    if |connected| > 0 {
      BackEdgesAbsent(n, connected[1..], lengths[1..], j);
    }
  }

  /** Without a pair naming `n` itself, `n` receives exactly the forward edges. */
  lemma {:induction false} OwnEdgesAreForward(n: nat, connected: seq<nat>, lengths: seq<i32>)
    requires |connected| <= |lengths| && n !in connected
    ensures OwnEdges(n, connected, lengths) == ForwardEdges(connected, lengths)
    decreases |connected|
  {
    if |connected| > 0 {
      OwnEdgesAreForward(n, connected[1..], lengths[1..]);
      assert ForwardEdges(connected, lengths)
          == [Edge(connected[0], lengths[0])] + ForwardEdges(connected[1..], lengths[1..]);
    }
  }

  /** Each pair `(connected[i], lengths[i])` yields a forward edge on `n`... */
  lemma {:induction false} OwnEdgesHasForward(n: nat, connected: seq<nat>, lengths: seq<i32>, i: nat)
    requires |connected| <= |lengths| && i < |connected|
    ensures Edge(connected[i], lengths[i]) in OwnEdges(n, connected, lengths)
    ensures connected[i] == n ==> Edge(n, lengths[i]) in OwnEdges(n, connected, lengths)
    decreases |connected|
  {
    if i > 0 {
      OwnEdgesHasForward(n, connected[1..], lengths[1..], i - 1);
    }
  }

  /** ...and a back edge on `connected[i]`. */
  lemma {:induction false} BackEdgesHasMirror(n: nat, connected: seq<nat>, lengths: seq<i32>, i: nat)
    requires |connected| <= |lengths| && i < |connected|
    ensures Edge(n, lengths[i]) in BackEdges(n, connected, lengths, connected[i])
    decreases |connected|
  {
    if i > 0 {
      BackEdgesHasMirror(n, connected[1..], lengths[1..], i - 1);
    }
  }

  /** `add_node_auto_reconnections`: for each pair appends `n -> connected[i]`
      to `n` and `connected[i] -> n` to `connected[i]`, both of weight
      `lengths[i]`, and registers `n` in the working set once. Distances and
      visited flags do not change, and a node no pair names keeps its edges. */
  function AddNodeAutoReconnections(g: Graph, n: nat, connected: seq<nat>, lengths: seq<i32>): (r: Graph)
    requires Valid(g) && n < |g.nodes| && InArena(g.nodes, connected) && |connected| <= |lengths|
    ensures Valid(r)
    ensures r.working == g.working + [n]
    ensures |r.nodes| == |g.nodes|
    ensures forall j :: 0 <= j < |g.nodes| ==>
              r.nodes[j].dist == g.nodes[j].dist && r.nodes[j].visited == g.nodes[j].visited
    ensures forall j :: 0 <= j < |g.nodes| && j != n ==>
              r.nodes[j].edges == g.nodes[j].edges + BackEdges(n, connected, lengths, j)
    ensures r.nodes[n].edges == g.nodes[n].edges + OwnEdges(n, connected, lengths)
    ensures forall j :: 0 <= j < |g.nodes| && j != n && j !in connected ==> r.nodes[j] == g.nodes[j]
  {
    var a := AutoLoop(g.nodes, n, connected, lengths, 0);
    assert connected[0..] == connected && lengths[0..] == lengths;
    forall j | 0 <= j < |g.nodes| && j != n && j !in connected ensures a[j] == g.nodes[j] {
      BackEdgesAbsent(n, connected, lengths, j);
    }
    assert ValidArena(a) by {
      forall i, k | 0 <= i < |a| && 0 <= k < |a[i].edges| ensures a[i].edges[k].target < |a| {
        if k >= |g.nodes[i].edges| {
          if i == n {
            OwnEdgesTargets(n, connected, lengths, |a|);
            assert a[i].edges[k] == OwnEdges(n, connected, lengths)[k - |g.nodes[i].edges|];
          } else {
            BackEdgesTarget(n, connected, lengths, i);
            assert a[i].edges[k] == BackEdges(n, connected, lengths, i)[k - |g.nodes[i].edges|];
          }
        }
      }
    }
    Graph(a, g.working + [n])
  }

  /** Every back edge points at `n`. */
  lemma {:induction false} BackEdgesTarget(n: nat, connected: seq<nat>, lengths: seq<i32>, j: nat)
    requires |connected| <= |lengths|
    ensures forall k :: 0 <= k < |BackEdges(n, connected, lengths, j)| ==>
              BackEdges(n, connected, lengths, j)[k].target == n
    decreases |connected|
  {
    if |connected| > 0 {
      BackEdgesTarget(n, connected[1..], lengths[1..], j);
    }
  }

  /** The edges `n` receives point at `n` or at a node of `connected`. */
  lemma {:induction false} OwnEdgesTargets(n: nat, connected: seq<nat>, lengths: seq<i32>, size: nat)
    requires |connected| <= |lengths| && n < size
    requires forall k :: 0 <= k < |connected| ==> connected[k] < size
    ensures forall k :: 0 <= k < |OwnEdges(n, connected, lengths)| ==> OwnEdges(n, connected, lengths)[k].target < size
    decreases |connected|
  {
    if |connected| > 0 {
      OwnEdgesTargets(n, connected[1..], lengths[1..], size);
    }
  }

  /** The undirected connection the automatic helper promises: after it,
      `n` has an edge to each `connected[i]` and `connected[i]` has an edge
      back to `n`, both carrying `lengths[i]`. */
  lemma MutualEdges(g: Graph, n: nat, connected: seq<nat>, lengths: seq<i32>, i: nat)
    requires Valid(g) && n < |g.nodes| && InArena(g.nodes, connected) && |connected| <= |lengths|
    requires i < |connected|
    ensures var r := AddNodeAutoReconnections(g, n, connected, lengths);
            Edge(connected[i], lengths[i]) in r.nodes[n].edges &&
            Edge(n, lengths[i]) in r.nodes[connected[i]].edges
  {
    var r := AddNodeAutoReconnections(g, n, connected, lengths);
    OwnEdgesHasForward(n, connected, lengths, i);
    InAppended(g.nodes[n].edges, OwnEdges(n, connected, lengths), Edge(connected[i], lengths[i]));
    if connected[i] == n {
      InAppended(g.nodes[n].edges, OwnEdges(n, connected, lengths), Edge(n, lengths[i]));
    } else {
      BackEdgesHasMirror(n, connected, lengths, i);
      var c := connected[i];
      InAppended(g.nodes[c].edges, BackEdges(n, connected, lengths, c), Edge(n, lengths[i]));
    }
  }

  /** An element of the appended part is in the whole. */
  lemma InAppended(xs: seq<Edge>, ys: seq<Edge>, e: Edge)
    requires e in ys
    ensures e in xs + ys
  {
    var k :| 0 <= k < |ys| && ys[k] == e;
    assert (xs + ys)[|xs| + k] == e;
  }

  /** `set_start_node`: the start node's distance becomes 0 whatever it was;
      nothing else changes. */
  function SetStartNode(g: Graph, s: nat): (r: Graph)
    requires s < |g.nodes|
    ensures r.working == g.working && |r.nodes| == |g.nodes|
    ensures r.nodes[s].dist == 0
    ensures r.nodes[s].edges == g.nodes[s].edges && r.nodes[s].visited == g.nodes[s].visited
    ensures forall j :: 0 <= j < |g.nodes| && j != s ==> r.nodes[j] == g.nodes[j]
    ensures Valid(g) ==> Valid(r)
  {
    Graph(g.nodes[s := SetShortestDistance(g.nodes[s], 0)], g.working)
  }

  /** The node the next iteration of the main loop finalizes. */
  function Selected(g: Graph): (top: nat)
    requires Valid(g) && |g.working| > 0
    ensures top < |g.nodes| && top in g.working
    ensures forall k :: 0 <= k < |g.working| ==> g.nodes[top].dist <= g.nodes[g.working[k]].dist
  {
    Back(g.nodes, g.working)
  }

  /** One iteration of the main loop: sort the working set, take the node at
      the back, mark it visited, relax its neighbours, pop it. */
  function Step(g: Graph): (r: Graph)
    requires Valid(g) && |g.working| > 0
    ensures Valid(r) && |r.nodes| == |g.nodes|
    ensures |r.working| == |g.working| - 1
    ensures multiset(r.working) + multiset{Selected(g)} == multiset(g.working)
    ensures r.nodes[Selected(g)].visited
    ensures forall j :: 0 <= j < |g.nodes| && j != Selected(g) ==> r.nodes[j].visited == g.nodes[j].visited
    ensures r.nodes[Selected(g)].dist == g.nodes[Selected(g)].dist
    ensures forall j :: 0 <= j < |g.nodes| && g.nodes[j].visited ==> r.nodes[j] == g.nodes[j]
    ensures forall j :: 0 <= j < |g.nodes| ==>
              r.nodes[j].edges == g.nodes[j].edges && r.nodes[j].dist <= g.nodes[j].dist
    ensures forall j :: 0 <= j < |g.nodes| && j != Selected(g) && !Targets(g.nodes[Selected(g)].edges, j) ==>
              r.nodes[j] == g.nodes[j]
  {
    Graph(FinalizeNode(g.nodes, Selected(g)), Remaining(g))
  }

  /** Dropping the last element of a sequence removes one copy of it and
      keeps the rest in the arena. */
  lemma SplitLast(a: Arena, s: seq<nat>)
    requires InArena(a, s) && |s| > 0
    ensures InArena(a, s[..|s| - 1])
    ensures multiset(s[..|s| - 1]) + multiset{s[|s| - 1]} == multiset(s)
  {
    assert s == s[..|s| - 1] + [s[|s| - 1]];
  }

  /** The working set after `pop_back()`: the sorted working set without its
      last element, which is the selected node. */
  function Remaining(g: Graph): (rest: seq<nat>)
    requires Valid(g) && |g.working| > 0
    ensures InArena(g.nodes, rest) && |rest| == |g.working| - 1
    ensures multiset(rest) + multiset{Selected(g)} == multiset(g.working)
  {
    var sorted := QuickSort(g.nodes, g.working);
    SplitLast(g.nodes, sorted);
    assert Selected(g) == sorted[|sorted| - 1];
    sorted[..|sorted| - 1]
  }

  /** The body of the main loop applied to node `top`: mark it visited, then
      relax its neighbours. Only `top`'s flag changes; `top` and every node
      visited before keep their distance; a node `top` has no edge to is
      untouched. */
  function FinalizeNode(a: Arena, top: nat): (r: Arena)
    requires ValidArena(a) && top < |a|
    ensures ValidArena(r) && |r| == |a|
    ensures r[top].visited && r[top].dist == a[top].dist
    ensures forall j :: 0 <= j < |a| && j != top ==> r[j].visited == a[j].visited
    ensures forall j :: 0 <= j < |a| && a[j].visited ==> r[j] == a[j]
    ensures forall j :: 0 <= j < |a| ==> r[j].edges == a[j].edges && r[j].dist <= a[j].dist
    ensures forall j :: 0 <= j < |a| && j != top && !Targets(a[top].edges, j) ==> r[j] == a[j]
  {
    var marked := a[top := SetVisited(a[top], true)];
    assert ValidArena(marked) by {
      forall i, k | 0 <= i < |marked| && 0 <= k < |marked[i].edges| ensures marked[i].edges[k].target < |marked| {
        assert marked[i].edges == a[i].edges;
      }
    }
    TraverseConnectedNodes(marked, top)
  }

  /** The relaxation performed by a step, as the two halves of a minimum.
      Every unvisited node other than the selected one ends no higher than
      each candidate `dist(top) + w` over the selected node's edges into it
      (the sum wrapping modulo 2^32), and ends either where it was or at one
      of those candidates. */
  lemma StepRelaxation(g: Graph)
    requires Valid(g) && |g.working| > 0
    ensures var top := Selected(g);
            var edges := g.nodes[top].edges;
            forall k :: (0 <= k < |edges| && !g.nodes[edges[k].target].visited && edges[k].target != top) ==>
              Step(g).nodes[edges[k].target].dist <= WrapAdd(g.nodes[top].dist, edges[k].weight)
    ensures var top := Selected(g);
            var edges := g.nodes[top].edges;
            forall j :: 0 <= j < |g.nodes| ==>
              Step(g).nodes[j].dist == g.nodes[j].dist ||
              exists k :: 0 <= k < |edges| && edges[k].target == j &&
                          Step(g).nodes[j].dist == WrapAdd(g.nodes[top].dist, edges[k].weight)
  {
    var top := Selected(g);
    var marked := g.nodes[top := SetVisited(g.nodes[top], true)];
    assert ValidArena(marked) by {
      forall i, k | 0 <= i < |marked| && 0 <= k < |marked[i].edges| ensures marked[i].edges[k].target < |marked| {
        assert marked[i].edges == g.nodes[i].edges;
      }
    }
    TraverseEdgesIsMin(marked, top, marked[top].edges);
    assert Step(g).nodes == TraverseConnectedNodes(marked, top);
  }

  /** A strict minimum of the working set is the node selected, whatever order
      the working set is in. */
  lemma SelectedUniqueMin(g: Graph, x: nat)
    requires Valid(g) && x in g.working
    requires forall j :: j in g.working && j != x ==> g.nodes[x].dist < g.nodes[j].dist
    ensures |g.working| > 0 && Selected(g) == x
  {
    var top := Selected(g);
    var k :| 0 <= k < |g.working| && g.working[k] == x;
    assert g.nodes[top].dist <= g.nodes[g.working[k]].dist;
  }

  /** The exact distance a step leaves on an unvisited node other than the
      selected one: its old distance lowered along the selected node's edges. */
  lemma StepLowers(g: Graph, j: nat)
    requires Valid(g) && |g.working| > 0
    requires j < |g.nodes| && !g.nodes[j].visited && j != Selected(g)
    ensures Step(g).nodes[j].dist ==
            Lowered(g.nodes[j].dist, g.nodes[Selected(g)].dist, g.nodes[Selected(g)].edges, j)
  {
    var top := Selected(g);
    var marked := g.nodes[top := SetVisited(g.nodes[top], true)];
    assert ValidArena(marked) by {
      forall i, k | 0 <= i < |marked| && 0 <= k < |marked[i].edges| ensures marked[i].edges[k].target < |marked| {
        assert marked[i].edges == g.nodes[i].edges;
      }
    }
    TraverseEdgesLowers(marked, top, marked[top].edges, j);
    assert Step(g).nodes == TraverseConnectedNodes(marked, top);
  }

  /** Removing one copy of `t` keeps every other member. */
  lemma RemovedOne(xs: seq<nat>, ys: seq<nat>, t: nat)
    requires multiset(ys) + multiset{t} == multiset(xs)
    ensures forall j :: j in xs <==> j in ys || j == t
  {
    forall j ensures j in xs <==> j in ys || j == t {
      assert j in xs <==> j in multiset(xs);
      assert j in ys <==> j in multiset(ys);
    }
  }

  /** `run_dijkstras_algorithm` as a recursive function: steps until the
      working set is empty. */
  function Run(g: Graph): (r: Graph)
    requires Valid(g)
    ensures Valid(r) && r.working == [] && |r.nodes| == |g.nodes|
    ensures forall j :: 0 <= j < |g.nodes| ==>
              r.nodes[j].edges == g.nodes[j].edges && r.nodes[j].dist <= g.nodes[j].dist
    ensures forall j :: 0 <= j < |g.nodes| ==> (r.nodes[j].visited <==> g.nodes[j].visited || j in g.working)
    ensures forall j :: 0 <= j < |g.nodes| && g.nodes[j].visited ==> r.nodes[j] == g.nodes[j]
    decreases |g.working|
  {
    if |g.working| == 0 then g
    else
      var s := Step(g);
      var r := Run(s);
      RunComposes(g, s, r, Selected(g));
      r
  }

  /** One step followed by the rest of the run has the properties of the
      whole run. */
  lemma RunComposes(g: Graph, s: Graph, r: Graph, top: nat)
    requires |s.nodes| == |g.nodes| && |r.nodes| == |s.nodes| && top < |g.nodes|
    requires multiset(s.working) + multiset{top} == multiset(g.working)
    requires s.nodes[top].visited
    requires forall j :: 0 <= j < |g.nodes| && j != top ==> s.nodes[j].visited == g.nodes[j].visited
    requires forall j :: 0 <= j < |g.nodes| && g.nodes[j].visited ==> s.nodes[j] == g.nodes[j]
    requires forall j :: 0 <= j < |g.nodes| ==>
               s.nodes[j].edges == g.nodes[j].edges && s.nodes[j].dist <= g.nodes[j].dist
    requires forall j :: 0 <= j < |s.nodes| ==>
               r.nodes[j].edges == s.nodes[j].edges && r.nodes[j].dist <= s.nodes[j].dist
    requires forall j :: 0 <= j < |s.nodes| ==> (r.nodes[j].visited <==> s.nodes[j].visited || j in s.working)
    requires forall j :: 0 <= j < |s.nodes| && s.nodes[j].visited ==> r.nodes[j] == s.nodes[j]
    ensures forall j :: 0 <= j < |g.nodes| ==>
              r.nodes[j].edges == g.nodes[j].edges && r.nodes[j].dist <= g.nodes[j].dist
    ensures forall j :: 0 <= j < |g.nodes| ==> (r.nodes[j].visited <==> g.nodes[j].visited || j in g.working)
    ensures forall j :: 0 <= j < |g.nodes| && g.nodes[j].visited ==> r.nodes[j] == g.nodes[j]
  {
    RemovedOne(g.working, s.working, top);
  }

  /** The body of the `while` loop, written out as the source orders it, is
      one `Step`. */
  lemma LoopBodyIsStep(nodes: Arena, working: seq<nat>)
    requires Valid(Graph(nodes, working)) && |working| > 0
    ensures var sorted := QuickSort(nodes, working);
            Graph(FinalizeNode(nodes, sorted[|sorted| - 1]), sorted[..|sorted| - 1]) == Step(Graph(nodes, working))
  {
  }

  /** `run_dijkstras_algorithm`: the while loop, popping one node per pass
      until the working set is empty. Every node in the initial working set
      ends visited and no other node changes its flag; distances never rise;
      a node visited on entry keeps its distance; edges never change. */
  method RunDijkstrasAlgorithm(g: Graph) returns (r: Graph)
    requires Valid(g)
    ensures r == Run(g)
    ensures Valid(r) && r.working == [] && |r.nodes| == |g.nodes|
    ensures forall j :: 0 <= j < |g.nodes| ==>
              r.nodes[j].edges == g.nodes[j].edges && r.nodes[j].dist <= g.nodes[j].dist
    ensures forall j :: 0 <= j < |g.nodes| ==> (r.nodes[j].visited <==> g.nodes[j].visited || j in g.working)
  {
    var nodes := g.nodes;
    var working := g.working;
    while |working| > 0
      invariant Valid(Graph(nodes, working))
      invariant Run(Graph(nodes, working)) == Run(g)
      decreases |working|
    {
      LoopBodyIsStep(nodes, working);
      working := QuickSort(nodes, working);
      var topNode := working[|working| - 1];
      nodes := FinalizeNode(nodes, topNode);
      working := working[..|working| - 1];
    }
    r := Graph(nodes, working);
  }

}
