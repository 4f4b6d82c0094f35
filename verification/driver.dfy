/**
 The graph `main` builds and the run it triggers. Six nodes A..F occupy arena
 slots 0..5; `main` registers A..E with the automatic helper (F is only ever a
 neighbour), starts at A and runs the algorithm. The literal data below uses
 slot numbers rather than names so that the verifier can evaluate it.
 */
module Driver {
  import opened Machine
  import opened Nodes
  import opened Graphs

  /** The edges `main` wires onto node `j`, in the order they are added:
      every edge mirrored. */
  function MainEdges(j: nat): seq<Edge> {
    if j == 0 then [Edge(1, 5), Edge(2, 6), Edge(3, 2)]
    else if j == 1 then [Edge(0, 5), Edge(4, 4)]
    else if j == 2 then [Edge(0, 6), Edge(4, 4), Edge(5, 8), Edge(3, 2)]
    else if j == 3 then [Edge(0, 2), Edge(2, 2), Edge(5, 12)]
    else if j == 4 then [Edge(1, 4), Edge(2, 4), Edge(5, 3)]
    else [Edge(2, 8), Edge(3, 12), Edge(4, 3)]
  }

  /** One `add_node_auto_reconnections(node, connected, lengths)` call. */
  datatype Call = Call(node: nat, connected: seq<nat>, lengths: seq<i32>)

  /** A call the six-node arena can take: the node and every neighbour
      exist, and the two vectors have equal length. */
  predicate Fits(c: Call) {
    && c.node < 6 && |c.connected| == |c.lengths|
    && forall i :: 0 <= i < |c.connected| ==> c.connected[i] < 6
  }

  /** Every call of the list fits. */
  predicate AllFit(calls: seq<Call>) {
    forall i :: 0 <= i < |calls| ==> Fits(calls[i])
  }

  /** The calls `main` makes, in order: A-{B,C,D}, B-{E}, C-{E,F,D}, D-{F},
      E-{F}. */
  function MainCalls(): (calls: seq<Call>)
    ensures AllFit(calls)
  {
    var calls := [ Call(0, [1, 2, 3], [5, 6, 2]),
                   Call(1, [4], [4]),
                   Call(2, [4, 5, 3], [4, 8, 2]),
                   Call(3, [5], [12]),
                   Call(4, [5], [3]) ];
    assert Fits(calls[0]) && Fits(calls[1]) && Fits(calls[2]) && Fits(calls[3]) && Fits(calls[4]);
    calls
  }

  /** The calls of `main` as a named value, so that the graph they build is
      reasoned about through the contract of `Build` rather than by
      evaluating every call. */
  const MAIN_CALLS: seq<Call> := MainCalls()

  /** The edges call `c` appends to node `j`. */
  function Added(c: Call, j: nat): seq<Edge>
    requires |c.connected| == |c.lengths|
  {
    if j == c.node then OwnEdges(c.node, c.connected, c.lengths)
    else BackEdges(c.node, c.connected, c.lengths, j)
  }

  /** The edges of node `j`, starting from `edges`, after `calls` ran in
      order. */
  function Replayed(edges: seq<Edge>, calls: seq<Call>, j: nat): seq<Edge>
    requires AllFit(calls)
    decreases |calls|
  {
    if |calls| == 0 then edges
    else Replayed(edges + Added(calls[0], j), calls[1..], j)
  }

  /** The nodes `calls` register, in order. */
  function Registered(calls: seq<Call>): seq<nat>
    decreases |calls|
  {
    if |calls| == 0 then [] else [calls[0].node] + Registered(calls[1..])
  }

  /** The graph after `calls`, run in order on a six-node graph: each node's
      edges are its `Replayed` edges, distances and flags are untouched, and
      the called nodes are appended to the working set. */
  function Build(g: Graph, calls: seq<Call>): (r: Graph)
    requires Valid(g) && |g.nodes| == 6 && AllFit(calls)
    ensures Valid(r) && |r.nodes| == 6
    ensures r.working == g.working + Registered(calls)
    ensures forall j :: 0 <= j < 6 ==>
              r.nodes[j].edges == Replayed(g.nodes[j].edges, calls, j)
              && r.nodes[j].dist == g.nodes[j].dist && r.nodes[j].visited == g.nodes[j].visited
    decreases |calls|
  {
    if |calls| == 0 then g
    else
      var c := calls[0];
      assert Fits(c);
      TailFits(calls);
      var g1 := AddNodeAutoReconnections(g, c.node, c.connected, c.lengths);
      var r := Build(g1, calls[1..]);
      BuildComposes(g, calls, g1, r);
      r
  }

  /** A list of fitting calls: its head fits and so does its tail. */
  lemma TailFits(calls: seq<Call>)
    requires AllFit(calls) && |calls| > 0
    ensures Fits(calls[0]) && AllFit(calls[1..])
  {
    forall i | 0 <= i < |calls[1..]| ensures Fits(calls[1..][i]) {
      assert calls[1..][i] == calls[i + 1];
    }
  }

  /** The first call followed by the rest is the whole of `calls`. */
  lemma {:induction false} BuildComposes(g: Graph, calls: seq<Call>, g1: Graph, r: Graph)
    requires Valid(g) && |g.nodes| == 6 && AllFit(calls) && |calls| > 0
    requires Fits(calls[0]) && AllFit(calls[1..])
    requires g1 == AddNodeAutoReconnections(g, calls[0].node, calls[0].connected, calls[0].lengths)
    requires |r.nodes| == 6 && r.working == g1.working + Registered(calls[1..])
    requires forall j :: 0 <= j < 6 ==>
               r.nodes[j].edges == Replayed(g1.nodes[j].edges, calls[1..], j)
               && r.nodes[j].dist == g1.nodes[j].dist && r.nodes[j].visited == g1.nodes[j].visited
    ensures r.working == g.working + Registered(calls)
    ensures forall j :: 0 <= j < 6 ==>
              r.nodes[j].edges == Replayed(g.nodes[j].edges, calls, j)
              && r.nodes[j].dist == g.nodes[j].dist && r.nodes[j].visited == g.nodes[j].visited
  {
    assert (g.working + [calls[0].node]) + Registered(calls[1..]) == g.working + Registered(calls);
    forall j | 0 <= j < 6
      ensures r.nodes[j].edges == Replayed(g.nodes[j].edges, calls, j)
    {
      assert g1.nodes[j].edges == g.nodes[j].edges + Added(calls[0], j);
    }
  }

  /** Six freshly constructed nodes and an empty working set. */
  function Fresh(): (g: Graph)
    ensures Valid(g) && |g.nodes| == 6 && g.working == []
    ensures forall j :: 0 <= j < 6 ==> g.nodes[j] == NewNode
  {
    Graph(seq(6, _ => NewNode), [])
  }

  /** The graph `main` hands to the algorithm: the five calls of the
      automatic helper on fresh nodes, then `set_start_node(A)`. */
  function MainGraph(): Graph {
    SetStartNode(Build(Fresh(), MAIN_CALLS), 0)
  }

  /** The five calls leave exactly `MainEdges(j)` on node `j`. */
  lemma WiredNode(j: nat)
    requires j < 6
    ensures Replayed([], MainCalls(), j) == MainEdges(j)
  {
    if j < 2 {
      WiredAB(j);
    } else if j < 4 {
      WiredCD(j);
    } else {
      WiredEF(j);
    }
  }

  /** `WiredNode` for A and B. The six cases are proved by evaluation in
      three small lemmas, one `assert` per node, because one lemma evaluating
      all six runs close to the solver's resource limit. */
  lemma WiredAB(j: nat)
    requires j < 2
    ensures Replayed([], MainCalls(), j) == MainEdges(j)
  {
    if j == 0 {
      assert Replayed([], MainCalls(), 0) == MainEdges(0);
    } else {
      assert Replayed([], MainCalls(), 1) == MainEdges(1);
    }
  }

  /** `WiredNode` for C and D. The six cases are proved by evaluation in
      three small lemmas, one `assert` per node, because one lemma evaluating
      all six runs close to the solver's resource limit. */
  lemma WiredCD(j: nat)
    requires 2 <= j < 4
    ensures Replayed([], MainCalls(), j) == MainEdges(j)
  {
    if j == 2 {
      assert Replayed([], MainCalls(), 2) == MainEdges(2);
    } else {
      assert Replayed([], MainCalls(), 3) == MainEdges(3);
    }
  }

  /** `WiredNode` for E and F. The six cases are proved by evaluation in
      three small lemmas, one `assert` per node, because one lemma evaluating
      all six runs close to the solver's resource limit. */
  lemma WiredEF(j: nat)
    requires 4 <= j < 6
    ensures Replayed([], MainCalls(), j) == MainEdges(j)
  {
    if j == 4 {
      assert Replayed([], MainCalls(), 4) == MainEdges(4);
    } else {
      assert Replayed([], MainCalls(), 5) == MainEdges(5);
    }
  }

  /** The calls register A..E, in that order. */
  lemma RegisteredMain()
    ensures Registered(MainCalls()) == [0, 1, 2, 3, 4]
  {
  }

  /** What a pass of the main loop can observe of the example graph: the
      edges are `MainEdges`, the distances and flags are `dist` and `visited`,
      and the working set holds the nodes of `working`. */
  predicate Snapshot(g: Graph, dist: seq<int>, visited: seq<bool>, working: seq<nat>) {
    && Valid(g) && |g.nodes| == 6 && |dist| == 6 && |visited| == 6
    && (forall j :: 0 <= j < 6 ==>
          g.nodes[j].edges == MainEdges(j) && g.nodes[j].dist == dist[j] && g.nodes[j].visited == visited[j])
    && multiset(g.working) == multiset(working)
  }

  /** Calls run on six fresh nodes leave every node at the sentinel and
      unvisited, with its `Replayed` edges, and register the called nodes. */
  lemma {:induction false} BuildFresh(g0: Graph, calls: seq<Call>)
    requires Valid(g0) && |g0.nodes| == 6 && g0.working == []
    requires forall j :: 0 <= j < 6 ==> g0.nodes[j] == NewNode
    requires AllFit(calls)
    ensures Built(Build(g0, calls), calls)
  {
  }

  /** `g` is what `calls` build from six fresh nodes. */
  predicate Built(g: Graph, calls: seq<Call>)
    requires AllFit(calls)
  {
    && Valid(g) && |g.nodes| == 6 && g.working == Registered(calls)
    && forall j :: 0 <= j < 6 ==>
         g.nodes[j].edges == Replayed([], calls, j) && g.nodes[j].dist == CHAR_LIM && !g.nodes[j].visited
  }

  /** `g` is the fully wired graph of `main` before the run: every node at
      the sentinel, unvisited and carrying `MainEdges`, A..E registered. */
  predicate Wired(g: Graph) {
    && Valid(g) && |g.nodes| == 6 && g.working == [0, 1, 2, 3, 4]
    && forall j :: 0 <= j < 6 ==>
         g.nodes[j].edges == MainEdges(j) && g.nodes[j].dist == CHAR_LIM && !g.nodes[j].visited
  }

  /** Calls that register A..E and replay to `MainEdges` build the fully
      wired graph. */
  lemma {:induction false} BuiltIsWired(g: Graph, calls: seq<Call>)
    requires AllFit(calls) && Registered(calls) == [0, 1, 2, 3, 4]
    requires forall j :: 0 <= j < 6 ==> Replayed([], calls, j) == MainEdges(j)
    requires Built(g, calls)
    ensures Wired(g)
  {
  }

  /** `set_start_node(A)` on the fully wired graph gives the graph the run
      starts from: A at 0, every other node at the sentinel, none visited,
      A..E waiting and F never registered. */
  lemma StartSnapshot(g: Graph)
    requires Wired(g)
    ensures Snapshot(SetStartNode(g, 0),
                     [0, 0xFFFF_FFFF, 0xFFFF_FFFF, 0xFFFF_FFFF, 0xFFFF_FFFF, 0xFFFF_FFFF],
                     [false, false, false, false, false, false], [0, 1, 2, 3, 4])
  {
  }

  /** The calls of `main` register A..E and replay to `MainEdges`. */
  lemma MainCallsWire()
    ensures Registered(MAIN_CALLS) == [0, 1, 2, 3, 4]
    ensures forall j :: 0 <= j < 6 ==> Replayed([], MAIN_CALLS, j) == MainEdges(j)
  {
    RegisteredMain();
    forall j | 0 <= j < 6 ensures Replayed([], MAIN_CALLS, j) == MainEdges(j) {
      WiredNode(j);
    }
  }

  /** The calls of `main` on fresh nodes build the fully wired graph. */
  lemma MainBuilt()
    ensures Wired(Build(Fresh(), MAIN_CALLS))
  {
    MainCallsWire();
    BuildFresh(Fresh(), MAIN_CALLS);
    BuiltIsWired(Build(Fresh(), MAIN_CALLS), MAIN_CALLS);
  }

  /** `main`'s graph is the start snapshot. */
  lemma MainGraphSnapshot()
    ensures Snapshot(MainGraph(), [0, 0xFFFF_FFFF, 0xFFFF_FFFF, 0xFFFF_FFFF, 0xFFFF_FFFF, 0xFFFF_FFFF],
                     [false, false, false, false, false, false], [0, 1, 2, 3, 4])
  {
    MainBuilt();
    StartSnapshot(Build(Fresh(), MAIN_CALLS));
  }

  /** Two sequences with the same multiset have the same members. */
  lemma Members(xs: seq<nat>, ws: seq<nat>)
    requires multiset(xs) == multiset(ws)
    ensures forall j :: j in xs <==> j in ws
  {
    forall j ensures j in xs <==> j in ws {
      assert j in xs <==> j in multiset(xs);
      assert j in ws <==> j in multiset(ws);
    }
  }

  /** Taking `top` out of `pre + [top] + post` leaves `pre + post`. */
  lemma Cancel(xs: seq<nat>, top: nat, before: seq<nat>, pre: seq<nat>, post: seq<nat>)
    requires multiset(xs) + multiset{top} == multiset(before)
    requires before == pre + [top] + post
    ensures multiset(xs) == multiset(pre + post)
  {
    assert multiset(before) == multiset(pre + post) + multiset{top};
    assert forall e :: multiset(xs)[e] == multiset(pre + post)[e] by {
      forall e ensures multiset(xs)[e] == multiset(pre + post)[e] {
        assert (multiset(xs) + multiset{top})[e] == (multiset(pre + post) + multiset{top})[e];
      }
    }
  }

  /** One pass of the main loop on the example, as data: `top` is the strict
      minimum of the working set `w0 == pre + [top] + post`; afterwards `top`
      is visited, the working set is `pre + post`, and every other unvisited
      node sits at its `Lowered` distance along `top`'s edges. */
  predicate Pass(top: nat, d0: seq<u32>, v0: seq<bool>, w0: seq<nat>, pre: seq<nat>, post: seq<nat>,
                 d1: seq<u32>, v1: seq<bool>, w1: seq<nat>) {
    && top < 6 && |d0| == 6 && |v0| == 6 && |d1| == 6
    && w0 == pre + [top] + post && w1 == pre + post
    && (forall j :: j in w0 && j != top ==> j < 6 && d0[top] < d0[j])
    && v1 == v0[top := true]
    && (forall j :: 0 <= j < 6 ==>
          d1[j] == if v0[j] || j == top then d0[j] else Lowered(d0[j], d0[top], MainEdges(top), j))
  }

  /** A step on a snapshot does what `Pass` says. */
  lemma PassWith(g: Graph, top: nat, d0: seq<u32>, v0: seq<bool>, w0: seq<nat>,
                 pre: seq<nat>, post: seq<nat>, d1: seq<u32>, v1: seq<bool>, w1: seq<nat>)
    requires Snapshot(g, d0, v0, w0) && Pass(top, d0, v0, w0, pre, post, d1, v1, w1)
    ensures |g.working| > 0 && Selected(g) == top
    ensures Snapshot(Step(g), d1, v1, w1)
  {
    Members(g.working, w0);
    SelectedUniqueMin(g, top);
    forall j | 0 <= j < 6
      ensures Step(g).nodes[j].edges == MainEdges(j)
      ensures Step(g).nodes[j].dist == d1[j] && Step(g).nodes[j].visited == v1[j]
    {
      if !(v0[j] || j == top) {
        StepLowers(g, j);
      }
    }
    Cancel(Step(g).working, top, w0, pre, post);
  }

  /** Pass 1 of the main loop selects A (slot 0). */
  lemma Pass1()
    ensures Pass(0, [0, 0xFFFF_FFFF, 0xFFFF_FFFF, 0xFFFF_FFFF, 0xFFFF_FFFF, 0xFFFF_FFFF], [false, false, false, false, false, false], [0, 1, 2, 3, 4],
                 [], [1, 2, 3, 4],
                 [0, 5, 6, 2, 0xFFFF_FFFF, 0xFFFF_FFFF], [true, false, false, false, false, false], [1, 2, 3, 4])
  {
  }

  /** Pass 2 of the main loop selects D (slot 3). */
  lemma Pass2()
    ensures Pass(3, [0, 5, 6, 2, 0xFFFF_FFFF, 0xFFFF_FFFF], [true, false, false, false, false, false], [1, 2, 3, 4],
                 [1, 2], [4],
                 [0, 5, 4, 2, 0xFFFF_FFFF, 14], [true, false, false, true, false, false], [1, 2, 4])
  {
  }

  /** Pass 3 of the main loop selects C (slot 2). */
  lemma Pass3()
    ensures Pass(2, [0, 5, 4, 2, 0xFFFF_FFFF, 14], [true, false, false, true, false, false], [1, 2, 4],
                 [1], [4],
                 [0, 5, 4, 2, 8, 12], [true, false, true, true, false, false], [1, 4])
  {
  }

  /** Pass 4 of the main loop selects B (slot 1). */
  lemma Pass4()
    ensures Pass(1, [0, 5, 4, 2, 8, 12], [true, false, true, true, false, false], [1, 4],
                 [], [4],
                 [0, 5, 4, 2, 8, 12], [true, true, true, true, false, false], [4])
  {
  }

  /** Pass 5 of the main loop selects E (slot 4). */
  lemma Pass5()
    ensures Pass(4, [0, 5, 4, 2, 8, 12], [true, true, true, true, false, false], [4],
                 [], [],
                 [0, 5, 4, 2, 8, 11], [true, true, true, true, true, false], [])
  {
  }

  /** The rest of the run from the snapshot before pass 1. */
  lemma RunFromPass1(g: Graph)
    requires Snapshot(g, [0, 0xFFFF_FFFF, 0xFFFF_FFFF, 0xFFFF_FFFF, 0xFFFF_FFFF, 0xFFFF_FFFF], [false, false, false, false, false, false], [0, 1, 2, 3, 4])
    ensures Snapshot(Run(g), [0, 5, 4, 2, 8, 11], [true, true, true, true, true, false], [])
  {
    Pass1();
    PassWith(g, 0, [0, 0xFFFF_FFFF, 0xFFFF_FFFF, 0xFFFF_FFFF, 0xFFFF_FFFF, 0xFFFF_FFFF], [false, false, false, false, false, false], [0, 1, 2, 3, 4],
             [], [1, 2, 3, 4],
             [0, 5, 6, 2, 0xFFFF_FFFF, 0xFFFF_FFFF], [true, false, false, false, false, false], [1, 2, 3, 4]);
    RunFromPass2(Step(g));
  }

  /** The rest of the run from the snapshot before pass 2. */
  lemma RunFromPass2(g: Graph)
    requires Snapshot(g, [0, 5, 6, 2, 0xFFFF_FFFF, 0xFFFF_FFFF], [true, false, false, false, false, false], [1, 2, 3, 4])
    ensures Snapshot(Run(g), [0, 5, 4, 2, 8, 11], [true, true, true, true, true, false], [])
  {
    Pass2();
    PassWith(g, 3, [0, 5, 6, 2, 0xFFFF_FFFF, 0xFFFF_FFFF], [true, false, false, false, false, false], [1, 2, 3, 4],
             [1, 2], [4],
             [0, 5, 4, 2, 0xFFFF_FFFF, 14], [true, false, false, true, false, false], [1, 2, 4]);
    RunFromPass3(Step(g));
  }

  /** The rest of the run from the snapshot before pass 3. */
  lemma RunFromPass3(g: Graph)
    requires Snapshot(g, [0, 5, 4, 2, 0xFFFF_FFFF, 14], [true, false, false, true, false, false], [1, 2, 4])
    ensures Snapshot(Run(g), [0, 5, 4, 2, 8, 11], [true, true, true, true, true, false], [])
  {
    Pass3();
    PassWith(g, 2, [0, 5, 4, 2, 0xFFFF_FFFF, 14], [true, false, false, true, false, false], [1, 2, 4],
             [1], [4],
             [0, 5, 4, 2, 8, 12], [true, false, true, true, false, false], [1, 4]);
    RunFromPass4(Step(g));
  }

  /** The rest of the run from the snapshot before pass 4. */
  lemma RunFromPass4(g: Graph)
    requires Snapshot(g, [0, 5, 4, 2, 8, 12], [true, false, true, true, false, false], [1, 4])
    ensures Snapshot(Run(g), [0, 5, 4, 2, 8, 11], [true, true, true, true, true, false], [])
  {
    Pass4();
    PassWith(g, 1, [0, 5, 4, 2, 8, 12], [true, false, true, true, false, false], [1, 4],
             [], [4],
             [0, 5, 4, 2, 8, 12], [true, true, true, true, false, false], [4]);
    RunFromPass5(Step(g));
  }

  /** The rest of the run from the snapshot before pass 5. */
  lemma RunFromPass5(g: Graph)
    requires Snapshot(g, [0, 5, 4, 2, 8, 12], [true, true, true, true, false, false], [4])
    ensures Snapshot(Run(g), [0, 5, 4, 2, 8, 11], [true, true, true, true, true, false], [])
  {
    Pass5();
    PassWith(g, 4, [0, 5, 4, 2, 8, 12], [true, true, true, true, false, false], [4],
             [], [],
             [0, 5, 4, 2, 8, 11], [true, true, true, true, true, false], []);
    assert Step(g).working == [];
  }

  /** The whole run of `main`'s graph: five passes, selecting A, D, C, B, E
      in that order, after which the working set is empty. A ends at 0, B at
      5, C at 4, D at 2, E at 8 and F at 11; F is never visited. */
  lemma MainRun()
    ensures Snapshot(Run(MainGraph()), [0, 5, 4, 2, 8, 11], [true, true, true, true, true, false], [])
  {
    MainGraphSnapshot();
    RunFromPass1(MainGraph());
  }
}
