# Dijkstra engine — a Dafny model

This project models the small single-source shortest-path engine in
`DijkstraAlgorithm.cpp`. The engine has four parts:

- **Nodes** carry three things:
  - an edge list;
  - an `unsigned int` tentative distance, which starts at the sentinel `CHAR_LIM` (`UINT_MAX`);
  - a visited flag.
- **Relaxation.** `set_shortest_distance` is a min-update. `traverse_connected_nodes` min-updates every unvisited neighbour with the node's distance plus the edge weight.
- **Graph construction.** The `Graph` keeps a working set of node pointers and two helpers that wire edges and register a node:
  - the manual helper adds forward edges only;
  - the automatic helper mirrors every edge.
- **The main loop.** `run_dijkstras_algorithm` runs this until the working set is empty:
  1. re-sort the working set with a recursive three-way partition sort;
  2. take the node at the back;
  3. mark it visited;
  4. relax its neighbours;
  5. pop it.

`main` builds a six-node graph A..F, starts at A and runs the algorithm.

## How the model is built

The model is organised in five modules:

- `Machine`: 32-bit arithmetic.
- `Nodes`: edges, nodes and relaxation.
- `Ordering`: `quick_sort` and the node at the back.
- `Graphs`: the helpers, `set_start_node` and the main loop.
- `Driver`: the graph of `main` and its run.

The pointers of the source are replaced by an arena. The nodes live in a `seq<Node>`, an edge names its target by its index there, and the working set is a sequence of indices. A `Graph` value holds both the arena and the working set. Every mutating member function becomes a pure function from the old state to the new one. The main loop exists twice:

- `Graphs.Run`, a recursive function;
- `Graphs.RunDijkstrasAlgorithm`, a `while` loop proved equal to it.

Two points follow the code as written:

- **Order of `quick_sort`.** The partition puts the *smaller* distances into the list the source calls `higherList`, and that list is appended last. The sorted working set therefore runs from the largest distance to the smallest, and `back()` is a node of minimum distance.
  - Despite the names `lowerList` and `higherList`, the selection is minimum-first (`Ordering.Back`, `Graphs.SelectedUniqueMin`).
- **Unsigned addition.** `mShortestDistance + edge.weight` is an unsigned addition, so it wraps modulo 2^32. The sentinel is not guarded: for a positive weight `w`, `UINT_MAX + w` becomes `w - 1`.
  - The model computes the sum this way (`Machine.WrapAdd`).
  - `Nodes.SentinelSourceWraps` states the consequence: relaxing from a visited node that is still at the sentinel lowers each unvisited neighbour over an edge of positive weight `w` to at most `w - 1`.
  - Nothing in the code guards the sentinel.

In `main` the sixth node F is only ever a neighbour and is never registered. It is therefore relaxed but never visited.

The run of `main` is proved in full. It has five passes, which select A, D, C, B and E in that order. The final distances are:

| A | B | C | D | E | F |
|---|---|---|---|---|---|
| 0 | 5 | 4 | 2 | 8 | 11 |

F stays unvisited.

## Model

| member | source | states |
|---|---|---|
| Machine.WrapAdd | DijkstraAlgorithm.cpp:41 | the unsigned sum of a distance and a signed weight: the true sum when it is in range, otherwise shifted by 2^32; the sentinel plus a positive weight `w` is `w - 1` |
| Machine.Min | DijkstraAlgorithm.cpp:34 | the result is no larger than either argument and is one of them |
| Nodes.SetShortestDistance | DijkstraAlgorithm.cpp:33-35 | the new distance is the minimum of the old one and the candidate (below both, equal to one), so it never increases; edges and flag are unchanged |
| Nodes.SetVisited | DijkstraAlgorithm.cpp:36-38 | the flag becomes the given value; edges and distance are unchanged |
| Nodes.AddConnected | DijkstraAlgorithm.cpp:30-32 | the edge list grows by one, keeps its old edges as a prefix and ends with the new edge; distance and flag are unchanged |
| Nodes.Relax | DijkstraAlgorithm.cpp:41 | one loop pass: only the edge's target can change; a visited target leaves the arena unchanged; an unvisited target gets the min of its distance and the wrapped candidate |
| Nodes.TraverseEdges | DijkstraAlgorithm.cpp:39-43 | relaxing along a list of edges keeps every edge list and flag, never raises a distance, and leaves visited nodes and non-targets untouched |
| Nodes.TraverseConnectedNodes | DijkstraAlgorithm.cpp:39-43 | relaxing along all of a node's edges keeps the arena well formed, never raises a distance, changes only unvisited targets, and never changes edges or flags |
| Nodes.TraverseEdgesIsMin | DijkstraAlgorithm.cpp:39-43 | from a visited source, each unvisited target ends at or below every candidate `d + w` of the edges into it, and each node ends either at its old distance or at one of its candidates |
| Nodes.Lowered | DijkstraAlgorithm.cpp:41 | reference definition of a node's distance after a visited node relaxes it: never above the start value nor above any candidate of an edge into it |
| Nodes.TraverseEdgesLowers | DijkstraAlgorithm.cpp:39-43 | from a visited source, traversal leaves each unvisited node exactly at its `Lowered` distance |
| Nodes.VisitedSourceKeepsDistance | DijkstraAlgorithm.cpp:39-43 | a visited node that relaxes its neighbours keeps its own state, even through an edge to itself |
| Nodes.SentinelSourceWraps | DijkstraAlgorithm.cpp:41 | a visited node still at the sentinel lowers an unvisited neighbour over an edge of positive weight `w` to at most `w - 1`: the sentinel is not guarded |
| Ordering.BandOf | DijkstraAlgorithm.cpp:55-59 | a distance below the pivot goes to `higherList`, one equal to it to `equalList`, one above it to `lowerList`, in both directions |
| Ordering.Partition | DijkstraAlgorithm.cpp:55-59 | a list holds only nodes in the arena whose distance falls in its band |
| Ordering.PartitionSplits | DijkstraAlgorithm.cpp:53-59 | the three lists together are a permutation of the input |
| Ordering.QuickSort | DijkstraAlgorithm.cpp:48-69 | the result is a permutation of the input (same length, same multiset) ordered by non-increasing distance |
| Ordering.QuickSortFixesSorted | DijkstraAlgorithm.cpp:48-69 | an input already in non-increasing order comes back unchanged |
| Ordering.QuickSortIdempotent | DijkstraAlgorithm.cpp:48-69 | sorting a sorted working set again changes nothing |
| Ordering.Back | DijkstraAlgorithm.cpp:76-77 | the node at the back of the sorted working set is a member whose distance is at most every member's |
| Graphs.ManualLoop | DijkstraAlgorithm.cpp:86-89 | the loop appends exactly the forward edges of the remaining pairs to the new node and changes no other node |
| Graphs.AddNodeManualReconnections | DijkstraAlgorithm.cpp:84-91 | the new node's edges become its old edges followed by `connected[i]` with weight `lengths[i]` in input order (weights past the end of `connected` are ignored); every other node is unchanged; the node is appended to the working set once |
| Graphs.AutoPass | DijkstraAlgorithm.cpp:97-100 | one pass appends the forward edge to the new node and the back edge to the neighbour (both to the new node when they coincide, forward first); no distance or flag changes and no other node changes |
| Graphs.AutoLoop | DijkstraAlgorithm.cpp:96-101 | the loop appends to the new node its forward edges (with mirrors of self-pairs) and to every other node its back edges, in input order; no distance or flag changes |
| Graphs.AddNodeAutoReconnections | DijkstraAlgorithm.cpp:93-103 | as `AutoLoop` over all pairs, keeping the arena well formed; nodes no pair names are unchanged; the node is appended to the working set once |
| Graphs.MutualEdges | DijkstraAlgorithm.cpp:96-101 | after the automatic helper, the new node has an edge to each `connected[i]` and `connected[i]` has an edge back, both of weight `lengths[i]` |
| Graphs.OwnEdgesAreForward | DijkstraAlgorithm.cpp:96-101 | when no pair names the new node itself, it receives exactly the forward edges, as the manual helper would append |
| Graphs.BackEdgesAbsent | DijkstraAlgorithm.cpp:100 | a node no pair names receives no back edge |
| Nodes.NewNode | DijkstraAlgorithm.cpp:17-19 | a node as its default member initialisers leave it: no edges, distance `CHAR_LIM`, not visited |
| Graphs.SetStartNode | DijkstraAlgorithm.cpp:105-107 | the start node's distance becomes 0 whatever it was; its edges and flag, every other node and the working set are unchanged |
| Graphs.Selected | DijkstraAlgorithm.cpp:76-77 | the node a pass selects is in the working set and has the smallest distance there |
| Graphs.Remaining | DijkstraAlgorithm.cpp:76-80 | after the pop, the working set is the old one minus exactly one copy of the selected node |
| Graphs.FinalizeNode | DijkstraAlgorithm.cpp:78-79 | marking the node visited and relaxing its neighbours sets only its flag, keeps its distance and every previously visited node, never raises a distance, and touches only its targets |
| Graphs.Step | DijkstraAlgorithm.cpp:76-80 | one pass marks exactly one node (the selected one) visited, leaves every other flag, removes exactly that node from the working set, never raises a distance and never changes a visited node |
| Graphs.StepRelaxation | DijkstraAlgorithm.cpp:78-79 | after a pass each unvisited target ends at or below `dist(top) + w` (wrapping), and each node ends at its old distance or at one of those candidates |
| Graphs.StepLowers | DijkstraAlgorithm.cpp:76-79 | after a pass each unvisited node other than the selected one is at exactly its `Lowered` distance along the selected node's edges |
| Graphs.SelectedUniqueMin | DijkstraAlgorithm.cpp:76-77 | a strict minimum of the working set is the node selected, whatever the order of the working set |
| Graphs.Run | DijkstraAlgorithm.cpp:74-82 | the loop terminates with an empty working set; the nodes that end visited are exactly those visited before or in the working set; distances never rise; edges never change; a visited node never changes |
| Graphs.RunDijkstrasAlgorithm | DijkstraAlgorithm.cpp:74-82 | the `while` loop computes the same graph as `Run`, ending with an empty working set, every initially waiting node visited and no distance raised |
| Driver.Fresh | DijkstraAlgorithm.cpp:112-114 | an empty graph and six default-constructed nodes: every node equals `NewNode` and the working set is empty |
| Driver.MainGraph | DijkstraAlgorithm.cpp:112-121 | the graph after the five calls and `set_start_node(A)`; it has no contract of its own, and `Driver.MainGraphSnapshot` states its content: A at 0, B..F at the sentinel, none visited, A..E waiting |
| Driver.MainCalls | DijkstraAlgorithm.cpp:115-119 | every node and neighbour of the five calls of `main` is one of the six nodes, and each call has vectors of equal length |
| Driver.Build | DijkstraAlgorithm.cpp:115-119 | running a list of automatic-helper calls appends each called node to the working set, gives each node its old edges followed by the edges the calls append to it, and keeps distances and flags |
| Driver.WiredNode | DijkstraAlgorithm.cpp:115-119 | the five calls of `main` leave each of A..F with the listed mirrored edges, in insertion order |
| Driver.RegisteredMain | DijkstraAlgorithm.cpp:115-119 | the calls of `main` register A, B, C, D, E in that order and never F |
| Driver.BuildFresh | DijkstraAlgorithm.cpp:114-119 | calls on freshly constructed nodes leave every node at the sentinel and unvisited |
| Driver.StartSnapshot | DijkstraAlgorithm.cpp:121 | after `set_start_node(A)` on the wired graph, A is at 0 and B..F at the sentinel, none visited, with A..E waiting |
| Driver.MainGraphSnapshot | DijkstraAlgorithm.cpp:114-121 | the graph `main` hands to the algorithm is that start state |
| Driver.PassWith | DijkstraAlgorithm.cpp:76-80 | on the example graph, a pass whose working set has a strict minimum selects it, marks it visited, removes it and lowers the other unvisited nodes along its edges |
| Driver.MainRun | DijkstraAlgorithm.cpp:111-123 | the run of `main` ends with an empty working set, distances A=0, B=5, C=4, D=2, E=8, F=11, A..E visited and F unvisited |

## Left out

- Printing the distances (`DijkstraAlgorithm.cpp:125-130`) is console I/O and is not modelled. `Driver.MainRun` states the values that would be printed.
- The getters `get_connected`, `get_distance` and `get_visited` are field reads of `Node`. `get_connected` returns a copy, but value semantics make that irrelevant here.
- The pivot index `std::floor(size / 2.0)` is floating point. It is modelled as the integer `|xs| / 2`. The two agree for every size below 2^53, where converting the size to `double` is exact. A larger working set cannot arise in a practical run.
- Pointer identity is replaced by indices into an arena. This covers `Node*`, the `Edge` pointer and `&*connectedNodes[i]`. A dangling or null pointer cannot be expressed.
- An `edgeLength` shorter than `connectedNodes` makes `edgeLength[i]` read out of bounds. That is undefined behaviour in the source, so both helpers require `|connected| <= |lengths|`. A longer `edgeLength` is well defined: the loop reads only its first `|connected|` weights and ignores the rest, and so do the helpers here. Every call in `main` passes vectors of equal length.
- Graphs.Run: does not state that the final distances are shortest-path distances. The code does not guarantee that in general:
  - a node may never be registered;
  - the sentinel wraps;
  - negative weights are accepted.

  The relaxation facts (`Graphs.StepRelaxation`, `Graphs.StepLowers`) and the full run of `main` (`Driver.MainRun`) are proved instead.
