# Metro route planner — a verified model

The system answers one question for a fixed metro map: from a named origin
station to a named destination station, which sequence of rides and
transfers is fastest, and is walking straight there faster still?

`app.py` builds the network once at start-up. Every (station, line) pair
becomes a node at a pixel position on the map image. Consecutive stations
of a line are joined by rail edges of 2 minutes. The nodes of one station
on different lines are joined by transfer edges of 5 minutes. A station
index lists the nodes of each station.

For each query `find_best_path` works on a copy of the graph with two
virtual nodes added. A virtual origin is joined to every origin node by a
boarding edge of 2 minutes. Every destination node is joined to a virtual
destination by an edge of 0 minutes. The search finds a route between
the two virtual nodes. That route becomes a list of steps, one per edge
between real nodes, whose times are summed. The direct walking time is
the straight-line pixel distance between the two stations' centroids
divided by a walking speed of 20 pixels per minute. `route` answers
"not found" when there is no route. It answers a single walking step when
walking is strictly faster, and otherwise the route found.

The model has seven modules:

- `Wrappers`: `Option`.
- `Graphs`: nodes, the two virtual endpoints, edge attributes, and a `Graph` class with the four `networkx` calls used (constructor, `add_node`, `add_edge`, `copy`). `add_edge` merges attribute dictionaries as `networkx` does.
- `Network`: the start-up construction, as imperative loops over a `Graph`.
- `NetworkFacts`: what the construction guarantees about the network.
- `Paths`: walks, their cost, and Dijkstra's search with its optimality proof.
- `Geometry`: pixel distance, walking time and the station-position loop.
- `Routing`: the per-query graph, step extraction, the search, the heuristic and the final decision.

## Model

| member | source | states |
|---|---|---|
| Graphs.Graph.constructor | app.py:34 | a new graph has no nodes, positions or edges, and is valid (distinct nodes, edges between listed nodes, both orientations of every edge with one record) |
| Graphs.Graph.AddNode | app.py:47 | a node is appended only if new, its position is set, the edges are unchanged and validity is kept |
| Graphs.Graph.AddEdge | app.py:52-55 | missing endpoints are appended, the edge exists in both orientations with the merged attributes, all other edges keep theirs, and validity is kept |
| Graphs.Graph.Copy | app.py:101 | the copy is a fresh graph with the same nodes, positions and edges |
| Graphs.Added | app.py:67-68 | re-adding an existing edge keeps its old "type" and "line" unless the new call sets them, and takes the new weight; no other edge changes |
| Graphs.Extend | app.py:102-103 | adding a node keeps the node list duplicate-free and adds exactly that node |
| Graphs.AddedClosed | app.py:52-55 | after adding an edge, every edge still joins listed nodes |
| Graphs.AddedSymmetric | app.py:34 | the graph stays undirected: both orientations of every edge share one record |
| Network.AddStation | app.py:39-55 | one station step appends the station's node at its scaled position and, after the first station, adds the 2-minute rail edge from the previous station |
| Network.AddLine | app.py:36-55 | one line adds its stations' nodes in order at their scaled positions, and rail edges exactly between consecutive stations |
| Network.BuildGraph | app.py:34-55 | the nodes are exactly the (station, line) pairs in definition order, each at its scaled position, and the edges are exactly the consecutive-station pairs of each line, in both orientations, each with rail attributes |
| Network.InVertices | app.py:36-47 | a vertex is a node of the network exactly when it is the node of some station of some line |
| Network.AtDistinct | app.py:46 | two different (line, station) positions give two different nodes |
| Network.ConsistentAdded | app.py:66-68 | adding an edge with the attributes its endpoints call for keeps every edge's attributes those its endpoints call for |
| Network.AtStationIn | app.py:57-60 | a station's index entry holds exactly the nodes at that station |
| Network.AtStationDistinct | app.py:57-60 | a station's index entry lists each node once |
| Network.AtStationEmpty | app.py:57-60 | an index entry is empty exactly when no node is at that station |
| Network.IndexStations | app.py:57-60 | the index has a key for exactly the stations that have nodes; each entry lists that station's nodes in node order; the key order has no repeats |
| Network.AddTransfersFrom | app.py:66-68 | the inner loop joins the i-th node of a station to every later node, adds no other edge and keeps the old ones |
| Network.AddStationTransfers | app.py:63-68 | afterwards the edges are exactly the old edges plus one between every two different nodes of the station |
| Network.AddTransfers | app.py:62-68 | afterwards the edges are exactly the old edges plus one between every two different nodes of every station |
| Network.BuildNetwork | app.py:34-68 | the whole network: nodes, positions, and edges exactly the rail pairs in both orientations plus the transfer pairs, each edge with rail attributes (2 minutes, its line) or transfer attributes (5 minutes); every index entry is non-empty and holds nodes of its station |
| NetworkFacts.AtInjective | app.py:46 | a (line, station) position names one node and no other |
| NetworkFacts.VerticesDistinct | app.py:36-47 | no node is added twice |
| NetworkFacts.RailNotTransfer | app.py:50-68 | no pair is both a rail pair and a transfer pair, so no transfer edge overwrites a rail edge |
| NetworkFacts.SameLineEdges | app.py:49-55 | two nodes of one line are joined exactly when their stations are neighbours on the line |
| NetworkFacts.RailOnLine | app.py:49-55 | the ordered rail pair (i, j) of a line exists exactly when j = i + 1 |
| NetworkFacts.RailCount | app.py:49-55 | a line of n stations gives n - 1 rail edges, each once and in one orientation |
| NetworkFacts.PairsCount | app.py:65-67 | the nested loops over k nodes visit k (k - 1) / 2 pairs |
| NetworkFacts.PairsIn | app.py:65-67 | the nested loops visit exactly the pairs (ns[i], ns[j]) with i < j |
| NetworkFacts.TransferCount | app.py:64-68 | for distinct nodes every two different nodes are visited once, in one orientation, with no self-loop |
| NetworkFacts.TransfersAtStation | app.py:62-68 | the transfer pairs at a station are exactly the pairs of its index entry, in either orientation |
| NetworkFacts.OnePerLine | app.py:57-60 | a station's entry holds one node for each line through the station and no two nodes of one line |
| Paths.CostNonNegative | app.py:119-122 | with non-negative weights no walk costs less than zero |
| Paths.CostPrefix | app.py:119-122 | a prefix of a walk is a walk and costs no more |
| Paths.Dijkstra | app.py:119-122 | the search returns nothing exactly when no walk joins the endpoints; otherwise it returns a walk between them, without repeated vertices, that costs no more than any other walk |
| Geometry.PixelDistanceMetric | app.py:74-75 | the pixel distance is non-negative, symmetric and zero from a point to itself |
| Geometry.WalkingTimeFacts | app.py:77-78 | the walking time is non-negative, symmetric, zero from a point to itself, and times the walking speed squares to the sum of the squared coordinate differences |
| Geometry.StationPixelPosition | app.py:80-86 | the loop returns the centroid of the positions of the station's nodes |
| Geometry.CentroidWithin | app.py:80-86 | a station's position lies within the bounding box of its nodes' positions |
| Geometry.CentroidOfOne | app.py:80-86 | a station with one node is at that node's position |
| Routing.Attach | app.py:105-110 | the added edges join the virtual node to exactly the listed nodes, in both orientations, all with the given attributes |
| Routing.AttachEdges | app.py:105-110 | one of the two loops adds exactly those edges and leaves nodes and positions unchanged |
| Routing.BuildQueryGraph | app.py:99-110 | the query graph is a fresh valid graph: the base nodes plus the two virtual nodes, the same positions, and the base edges plus the boarding and alighting edges; the base graph is unchanged |
| Routing.NetworkIsBase | app.py:34-68 | every base edge joins real nodes and is a rail or transfer edge |
| Routing.AugmentNonNegative | app.py:105-110 | every weight of a query graph is non-negative |
| Routing.ExtractSteps | app.py:124-141 | the loop yields one step per consecutive pair of the route, skipping pairs with a virtual node, with the stations, the weight and the "type" ("rail" when none) |
| Routing.RouteShape | app.py:119-141 | a route without repeats boards at an origin node, alights at a destination node and uses only base edges between real nodes in between |
| Routing.RouteSteps | app.py:124-143 | a route of n vertices gives n - 3 steps, the i-th from its (i+1)-th base edge, and their times sum to the route's cost minus boarding |
| Routing.StepKinds | app.py:130-141 | every step is a 2-minute rail ride or a 5-minute transfer within one station; boarding and alighting are never steps |
| Routing.TotalTimeAtLeast | app.py:143 | with every step at least m >= 0 minutes, the total is non-negative and, for a non-empty list, at least m |
| Routing.SharedNodeWalk | app.py:105-110 | a node of both the origin and the destination gives a route costing only the boarding time |
| Routing.NoStepsWhenCheap | app.py:124-143 | a route costing no more than boarding has no steps |
| Routing.SameStationRoute | app.py:92-149 | a cheapest route from a station to itself has no steps |
| Routing.RouteExists | app.py:119-122 | the query graph has a route exactly when the network joins some origin node to some destination node |
| Routing.FindBestPath | app.py:92-149 | "not found" exactly when no route exists; otherwise the steps are those of a cheapest route, the distance is their summed time and is at most any route's cost minus boarding, and the walking time is taken between the two stations' centroids; a query from a station to itself gives no steps and distance 0 |
| Routing.HeuristicOverestimates | app.py:113-117 | the heuristic as written can exceed the cost still to go: 19.8 at a node one 2-minute hop from the destination |
| Routing.Decide | app.py:169-186 | "not found" exactly when the search found nothing; the answer's distance is the lesser of the route's and the walk's; the route is kept unless walking is strictly faster, and then the answer is one walking step from start to end |
| Routing.DecideConsistent | app.py:172-184 | an answer's distance is the sum of its step times whenever the search result's was |

## Left out

- Loading `static/lines.json` is not modelled. The line definitions are a parameter; `WellFormed` states what a JSON object of objects guarantees: distinct line names, and distinct station names within a line.
- The Flask application, request parsing, JSON responses, the 404 status and `map.js` are not part of this model. "Not found" is the `NotFound` outcome.
- `math.hypot` is a function parameter. `IsHypot` states what it returns: the non-negative root of the sum of squares.
- Python floats are modelled as exact reals, so rounding error is not modelled.
- `round(x, 2)` is not modelled. It is the identity on the integer step times and on their sum. Only the direct walking time is ever a fraction.
- Routing.Decide: compares the unrounded walking time with the distance. The source compares the walking time after rounding to two decimals.
- Routing.FindBestPath: searches with Dijkstra's algorithm, not with `networkx`'s A* and the source's heuristic. The model therefore promises a cheapest route, which the source's search does not guarantee (see Findings). Among equally cheap routes, the model does not pick the one `networkx` would.
- Routing.FindBestPath: requires both stations to be in the index. For an unknown station the source computes a position by dividing by the length of an empty list, and the resulting exception escapes the `try` around the search. The documented behaviour, a "not found" answer, differs from the code; the model follows the code.
- Geometry.StationPixelPosition: requires the station to be in the index, for the same reason.
- Geometry.PixelDistanceMetric: does not claim the distance is zero only between equal points.
- The virtual endpoints are a separate `Vertex` constructor. In the source they are the tuples `("SRC", "SRC")` and `("TGT", "TGT")`, which a station "SRC" on a line "SRC" would collide with.
- The heuristic uses the centroid of the destination's nodes as the reference position, as the code does, not the position of the station's first node.

## Findings

| source | as written | input that shows it | evidently intended | confidence | as-written member | corrected member |
|---|---|---|---|---|---|---|
| app.py:113-117 | the A* heuristic is the walking time from a node to the destination, which can exceed the riding time still needed, so it is not admissible and A* may return a route that is not the cheapest | one line "L" with station "A" at (0, 0) and station "B" at (1, 0) in normalised coordinates; query from A to B: at node (A, L) one 2-minute ride and a 0-minute alighting remain, but the heuristic is 396 / 20 = 19.8 | a heuristic that never exceeds the remaining cost (zero everywhere, for instance), so that the search returns a cheapest route | medium, not executed | Routing.HeuristicOverestimates | Paths.Dijkstra |
