/**
 Nodes and edges, and the relaxation a node performs on its neighbours.

 The source links nodes by raw pointers. Here every node lives in an arena
 (`seq<Node>`) owned by the caller, and an edge names its target by its index
 in that arena.
 */
module Nodes {
  import opened Machine

  /** An outgoing edge: the target node's index and a signed 32-bit weight. */
  datatype Edge = Edge(target: nat, weight: i32)

  /** A node: its outgoing edges in insertion order, its tentative distance
      and its visited flag. */
  datatype Node = Node(edges: seq<Edge>, dist: u32, visited: bool)

  /** All nodes, indexed by position. */
  type Arena = seq<Node>

  /** A freshly constructed node: no edges, the sentinel distance, unvisited. */
  const NewNode: Node := Node([], CHAR_LIM, false)

  /** Every edge of every node points into the arena. */
  predicate ValidArena(a: Arena) {
    forall i, k :: 0 <= i < |a| && 0 <= k < |a[i].edges| ==> a[i].edges[k].target < |a|
  }

  /** Every edge of `edges` points into the arena. */
  predicate EdgesIn(a: Arena, edges: seq<Edge>) {
    forall k :: 0 <= k < |edges| ==> edges[k].target < |a|
  }

  /** Some edge of `edges` points at node `j`. */
  predicate Targets(edges: seq<Edge>, j: nat) {
    exists k :: 0 <= k < |edges| && edges[k].target == j
  }

  /** `set_shortest_distance`: a min-update of the tentative distance. */
  function SetShortestDistance(n: Node, newDistance: u32): (r: Node)
    ensures r.dist <= n.dist && r.dist <= newDistance
    ensures r.dist == n.dist || r.dist == newDistance
    ensures r.edges == n.edges && r.visited == n.visited
  {
    n.(dist := Min(newDistance, n.dist))
  }

  /** `set_visited`: overwrites the flag and nothing else. */
  function SetVisited(n: Node, newVisited: bool): (r: Node)
    ensures r.visited == newVisited
    ensures r.edges == n.edges && r.dist == n.dist
  {
    n.(visited := newVisited)
  }

  /** `add_connected`: appends one edge after the existing ones. */
  function AddConnected(n: Node, e: Edge): (r: Node)
    ensures |r.edges| == |n.edges| + 1
    ensures r.edges[..|n.edges|] == n.edges && r.edges[|n.edges|] == e
    ensures r.dist == n.dist && r.visited == n.visited
  {
    n.(edges := n.edges + [e])
  }

  /** One iteration of the loop in `traverse_connected_nodes`: an unvisited
      target is min-updated with the source's current distance plus the
      weight (wrapping); a visited target is left alone. */
  function Relax(a: Arena, src: nat, e: Edge): (r: Arena)
    requires src < |a| && e.target < |a|
    ensures |r| == |a|
    ensures forall j :: 0 <= j < |a| && j != e.target ==> r[j] == a[j]
    ensures a[e.target].visited ==> r == a
    ensures r[e.target].edges == a[e.target].edges
    ensures r[e.target].visited == a[e.target].visited
    ensures !a[e.target].visited ==> r[e.target].dist == Min(WrapAdd(a[src].dist, e.weight), a[e.target].dist)
  {
    if a[e.target].visited then a
    else a[e.target := SetShortestDistance(a[e.target], WrapAdd(a[src].dist, e.weight))]
  }

  /** The loop of `traverse_connected_nodes` over the remaining `edges`. The
      source's distance is read afresh on every iteration, as the member
      field is in the source. */
  function TraverseEdges(a: Arena, src: nat, edges: seq<Edge>): (r: Arena)
    requires src < |a| && EdgesIn(a, edges)
    ensures |r| == |a|
    ensures forall j :: 0 <= j < |a| ==>
              r[j].edges == a[j].edges && r[j].visited == a[j].visited && r[j].dist <= a[j].dist
    ensures forall j :: 0 <= j < |a| && (a[j].visited || !Targets(edges, j)) ==> r[j] == a[j]
    decreases |edges|
  {
    if |edges| == 0 then a
    else
      var a' := Relax(a, src, edges[0]);
      var r := TraverseEdges(a', src, edges[1..]);
      assert forall j :: Targets(edges[1..], j) ==> Targets(edges, j) by {
        forall j | Targets(edges[1..], j) ensures Targets(edges, j) {
          var k :| 0 <= k < |edges[1..]| && edges[1..][k].target == j;
          assert edges[k + 1].target == j;
        }
      }
      r
  }

  /** `traverse_connected_nodes`: relaxes every unvisited target of the
      node's edges, in edge order. */
  function TraverseConnectedNodes(a: Arena, src: nat): (r: Arena)
    requires ValidArena(a) && src < |a|
    ensures |r| == |a| && ValidArena(r)
    ensures forall j :: 0 <= j < |a| ==>
              r[j].edges == a[j].edges && r[j].visited == a[j].visited && r[j].dist <= a[j].dist
    ensures forall j :: 0 <= j < |a| && (a[j].visited || !Targets(a[src].edges, j)) ==> r[j] == a[j]
  {
    TraverseEdges(a, src, a[src].edges)
  }

  /** Relaxing from a visited source: the source's distance `d` stays fixed, so
      each unvisited node ends at its old distance lowered to the smallest
      candidate `d + w` over the edges into it. Stated as the two halves of a
      minimum: below every candidate, and equal to the old distance or to one
      of the candidates. */
  lemma {:induction false} TraverseEdgesIsMin(a: Arena, src: nat, edges: seq<Edge>)
    requires src < |a| && EdgesIn(a, edges) && a[src].visited
    ensures forall k :: 0 <= k < |edges| && !a[edges[k].target].visited ==>
              TraverseEdges(a, src, edges)[edges[k].target].dist <= WrapAdd(a[src].dist, edges[k].weight)
    ensures forall j :: 0 <= j < |a| ==>
              var r := TraverseEdges(a, src, edges);
              r[j].dist == a[j].dist ||
              exists k :: 0 <= k < |edges| && edges[k].target == j && r[j].dist == WrapAdd(a[src].dist, edges[k].weight)
    decreases |edges|
  {
    if |edges| > 0 {
      var a' := Relax(a, src, edges[0]);
      var r := TraverseEdges(a', src, edges[1..]);
      assert a'[src] == a[src];
      TraverseEdgesIsMin(a', src, edges[1..]);
      assert r == TraverseEdges(a, src, edges);
      forall k | 0 <= k < |edges| && !a[edges[k].target].visited
        ensures r[edges[k].target].dist <= WrapAdd(a[src].dist, edges[k].weight)
      {
        if k > 0 {
          assert edges[1..][k - 1] == edges[k];
        } else {
          assert r[edges[0].target].dist <= a'[edges[0].target].dist;
        }
      }
      forall j | 0 <= j < |a|
        ensures r[j].dist == a[j].dist ||
                exists k :: 0 <= k < |edges| && edges[k].target == j && r[j].dist == WrapAdd(a[src].dist, edges[k].weight)
      {
        if r[j].dist != a[j].dist {
          if r[j].dist == a'[j].dist {
            assert edges[0].target == j && r[j].dist == WrapAdd(a[src].dist, edges[0].weight);
          } else {
            var k :| 0 <= k < |edges[1..]| && edges[1..][k].target == j && r[j].dist == WrapAdd(a[src].dist, edges[1..][k].weight);
            assert edges[k + 1] == edges[1..][k];
          }
        }
      }
    }
  }

  /** A reference definition of what relaxing along `edges` does to node `j`
      when the source's distance `s` stays fixed: starting from `d`, every edge
      into `j` lowers it to its candidate `s + w` (wrapping) if that is
      smaller. */
  function Lowered(d: u32, s: u32, edges: seq<Edge>, j: nat): (r: u32)
    ensures r <= d
    ensures forall k :: 0 <= k < |edges| && edges[k].target == j ==> r <= WrapAdd(s, edges[k].weight)
    decreases |edges|
  {
    if |edges| == 0 then d
    else Lowered(if edges[0].target == j then Min(WrapAdd(s, edges[0].weight), d) else d, s, edges[1..], j)
  }

  /** From a visited source, traversal leaves each unvisited node exactly at
      its `Lowered` distance. */
  lemma {:induction false} TraverseEdgesLowers(a: Arena, src: nat, edges: seq<Edge>, j: nat)
    requires src < |a| && EdgesIn(a, edges) && a[src].visited && j < |a| && !a[j].visited
    ensures TraverseEdges(a, src, edges)[j].dist == Lowered(a[j].dist, a[src].dist, edges, j)
    decreases |edges|
  {
    if |edges| > 0 {
      var a' := Relax(a, src, edges[0]);
      assert a'[src] == a[src];
      TraverseEdgesLowers(a', src, edges[1..], j);
    }
  }

  /** Once a node is visited, traversing from it never changes its own
      distance, even through an edge back to itself. */
  lemma VisitedSourceKeepsDistance(a: Arena, src: nat)
    requires ValidArena(a) && src < |a| && a[src].visited
    ensures TraverseConnectedNodes(a, src)[src] == a[src]
  {
  }

  /** The sentinel is not guarded: a visited source still at `CHAR_LIM`
      (never reached) pulls each unvisited neighbour down to at most `w - 1`
      for a positive weight `w`, because the unsigned sum wraps. */
  lemma SentinelSourceWraps(a: Arena, src: nat, k: nat)
    requires ValidArena(a) && src < |a| && a[src].visited && a[src].dist == CHAR_LIM
    requires k < |a[src].edges| && a[src].edges[k].weight >= 1
    requires !a[a[src].edges[k].target].visited
    ensures TraverseConnectedNodes(a, src)[a[src].edges[k].target].dist <= a[src].edges[k].weight - 1
  {
    TraverseEdgesIsMin(a, src, a[src].edges);
  }
}
