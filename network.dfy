/**
 * The base metro network: one node per (station, line) pair, a rail edge
 * between consecutive stations of each line, and a transfer edge between
 * every two nodes of the same station (app.py, lines 14-68).
 */
module Network {
  import opened Wrappers
  import opened Graphs

  const IMG_W: real := 396.0
  const IMG_H: real := 443.0
  const TIME_BETWEEN_STATIONS: int := 2
  const TIME_TRANSFER: int := 5

  /** A station of a line: its name and its normalised coordinates. */
  datatype StationDef = StationDef(name: string, xr: real, yr: real)

  /** A line: its name and its stations in line order. */
  datatype LineDef = LineDef(name: string, stations: seq<StationDef>)

  /** Station index: station name to the nodes at that station. */
  type StationIndex = map<string, seq<Vertex>>

  /** The line definitions are a JSON object of JSON objects, so line names
      are distinct, and so are the station names within one line. */
  predicate WellFormed(lines: seq<LineDef>) {
    (forall a, b :: 0 <= a < b < |lines| ==> lines[a].name != lines[b].name) &&
    (forall l :: 0 <= l < |lines| ==> UniqueStations(lines[l]))
  }

  predicate UniqueStations(line: LineDef) {
    forall i, j :: 0 <= i < j < |line.stations| ==> line.stations[i].name != line.stations[j].name
  }

  /** The node of the `i`-th station of `line`. */
  function At(line: LineDef, i: nat): Vertex
    requires i < |line.stations|
  {
    Real(Node(line.stations[i].name, line.name))
  }

  /** Normalised coordinates to pixels. */
  function Scale(s: StationDef): Point {
    (s.xr * IMG_W, s.yr * IMG_H)
  }

  function LineVertices(line: LineDef): seq<Vertex> {
    seq(|line.stations|, i requires 0 <= i < |line.stations| => At(line, i))
  }

  /** All nodes, in the order the construction adds them. */
  function Vertices(lines: seq<LineDef>): seq<Vertex> {
    if lines == [] then [] else Vertices(lines[..|lines| - 1]) + LineVertices(lines[|lines| - 1])
  }

  /** The pair of nodes joined when the `i`-th station of `line` is added. */
  function Hop(line: LineDef, i: nat): (Vertex, Vertex)
    requires 0 < i < |line.stations|
  {
    (At(line, i - 1), At(line, i))
  }

  /** `u` and `v` are consecutive stations, in this order, of `line`. */
  ghost predicate LineHop(line: LineDef, u: Vertex, v: Vertex) {
    exists k :: 0 < k < |line.stations| && Hop(line, k) == (u, v)
  }

  /** `u` and `v` are consecutive stations, in this order, of some line. */
  ghost predicate IsRail(lines: seq<LineDef>, u: Vertex, v: Vertex) {
    exists m :: 0 <= m < |lines| && LineHop(lines[m], u, v)
  }

  /** `u` and `v` are two different nodes of one station. */
  ghost predicate IsTransfer(lines: seq<LineDef>, u: Vertex, v: Vertex) {
    u != v && u in Vertices(lines) && v in Vertices(lines) && StationOf(u) == StationOf(v)
  }

  function RailEdge(line: string): EdgeData {
    EdgeData(TIME_BETWEEN_STATIONS, Some(Rail), Some(line))
  }

  function TransferEdge(): EdgeData {
    EdgeData(TIME_TRANSFER, Some(Transfer), None)
  }

  /** The attributes the construction gives an edge between `u` and `v`:
      rail edges join nodes of one line, transfer edges nodes of two lines. */
  function Expected(u: Vertex, v: Vertex): EdgeData {
    if LineOf(u) == LineOf(v) then RailEdge(LineOf(u)) else TransferEdge()
  }

  /** Every edge carries the attributes the construction gives it. */
  ghost predicate Consistent(adj: EdgeMap) {
    forall u, v :: (u, v) in adj ==> adj[(u, v)] == Expected(u, v)
  }

  /** Adding an edge with its expected attributes keeps the edge map consistent,
      whether or not the edge was already there. */
  lemma ConsistentAdded(adj: EdgeMap, u: Vertex, v: Vertex)
    requires Consistent(adj)
    ensures Consistent(Added(adj, u, v, Expected(u, v)))
  {
  }

  /** A rail edge joins two nodes of one line; a transfer edge two nodes of one station. */
  predicate RailOrTransfer(u: Vertex, v: Vertex, d: EdgeData) {
    (d == RailEdge(LineOf(u)) && LineOf(u) == LineOf(v)) || (d == TransferEdge() && StationOf(u) == StationOf(v))
  }

  /** What a query needs of the base network and of the station index. */
  ghost predicate IsNetwork(g: Graph, index: StationIndex)
    reads g
  {
    g.Valid() &&
    (forall v :: v in g.nodes ==> v.Real? && v in g.pos) &&
    (forall e :: e in g.adj ==> RailOrTransfer(e.0, e.1, g.adj[e])) &&
    (forall s :: s in index ==> index[s] != [] && forall v :: v in index[s] ==> v in g.nodes && StationOf(v) == s)
  }

  // ---------------------------------------------------------------------
  // Facts about node identities

  /** Different (line, station) positions give different nodes. */
  lemma AtDistinct(lines: seq<LineDef>, m: nat, i: nat, n: nat, j: nat)
    requires WellFormed(lines)
    requires m < |lines| && i < |lines[m].stations| && n < |lines| && j < |lines[n].stations|
    requires m != n || i != j
    ensures At(lines[m], i) != At(lines[n], j)
  {
    if m < n {
      assert lines[m].name != lines[n].name;
    } else if n < m {
      assert lines[n].name != lines[m].name;
    } else {
      assert UniqueStations(lines[m]);
      if i < j {
        assert lines[m].stations[i].name != lines[m].stations[j].name;
      } else {
        assert lines[m].stations[j].name != lines[m].stations[i].name;
      }
    }
  }

  /** The nodes of the construction are exactly the (station, line) pairs of the definitions. */
  lemma {:induction false} InVertices(lines: seq<LineDef>, v: Vertex)
    ensures v in Vertices(lines) <==>
            exists m, i :: 0 <= m < |lines| && 0 <= i < |lines[m].stations| && At(lines[m], i) == v
  {
    if lines != [] {
      var init := lines[..|lines| - 1];
      InVertices(init, v);
      assert forall m :: 0 <= m < |init| ==> init[m] == lines[m];
      if v in LineVertices(lines[|lines| - 1]) {
        var i :| 0 <= i < |lines[|lines| - 1].stations| && LineVertices(lines[|lines| - 1])[i] == v;
        assert At(lines[|lines| - 1], i) == v;
      }
      if exists m, i :: 0 <= m < |lines| && 0 <= i < |lines[m].stations| && At(lines[m], i) == v {
        var m, i :| 0 <= m < |lines| && 0 <= i < |lines[m].stations| && At(lines[m], i) == v;
        if m == |lines| - 1 {
          assert LineVertices(lines[m])[i] == v;
        } else {
          assert At(init[m], i) == v;
        }
      }
    }
  }

  lemma {:induction false} VerticesAreReal(lines: seq<LineDef>)
    ensures forall v :: v in Vertices(lines) ==> v.Real?
  {
    forall v | v in Vertices(lines) ensures v.Real? {
      InVertices(lines, v);
    }
  }

  lemma NewVertex(lines: seq<LineDef>, l: nat, i: nat)
    requires WellFormed(lines)
    requires l < |lines| && i < |lines[l].stations|
    ensures At(lines[l], i) !in Vertices(lines[..l]) + LineVertices(lines[l])[..i]
  {
    var v := At(lines[l], i);
    forall x | x in Vertices(lines[..l]) ensures x != v {
      InVertices(lines[..l], x);
      var m, k :| 0 <= m < l && 0 <= k < |lines[..l][m].stations| && At(lines[..l][m], k) == x;
      AtDistinct(lines, m, k, l, i);
    }
    forall k | 0 <= k < i ensures LineVertices(lines[l])[k] != v {
      AtDistinct(lines, l, k, l, i);
    }
  }

  // ---------------------------------------------------------------------
  // Construction (app.py, lines 34-68)

  /** One step of the loop of lines 39-55: the node of the `i`-th station of
      `line`, at its scaled position, and the rail edge from the previous one. */
  method AddStation(g: Graph, line: LineDef, i: nat)
    requires g.Valid() && i < |line.stations|
    requires At(line, i) !in g.nodes && (i > 0 ==> At(line, i - 1) in g.nodes)
    modifies g
    ensures g.Valid()
    ensures g.nodes == old(g.nodes) + [At(line, i)]
    ensures g.pos == old(g.pos)[At(line, i) := Scale(line.stations[i])]
    ensures g.adj == if i > 0 then Added(old(g.adj), At(line, i - 1), At(line, i), RailEdge(line.name)) else old(g.adj)
  {
    var st := line.stations[i];
    var node := Real(Node(st.name, line.name));
    g.AddNode(node, Some(Scale(st)));
    if i > 0 {
      var prev := Real(Node(line.stations[i - 1].name, line.name));
      g.AddEdge(prev, node, RailEdge(line.name));
    }
  }

  /** The nodes and positions after the first `i` stations of `line` were
      added to `nodes0` and `pos0`. */
  ghost predicate PosPrefix(nodes0: seq<Vertex>, pos0: map<Vertex, Point>,
                            nodes: seq<Vertex>, pos: map<Vertex, Point>, line: LineDef, i: nat)
    requires i <= |line.stations|
  {
    nodes == nodes0 + LineVertices(line)[..i] &&
    (forall v :: v in pos <==> v in pos0 || v in LineVertices(line)[..i]) &&
    (forall v :: v in pos0 && v !in LineVertices(line)[..i] ==> pos[v] == pos0[v]) &&
    (forall k :: 0 <= k < i ==> At(line, k) in pos && pos[At(line, k)] == Scale(line.stations[k]))
  }

  /** The edges after the rail edges of the first `i` stations of `line`
      were added to `adj0`. */
  ghost predicate RailPrefix(adj0: EdgeMap, adj: EdgeMap, line: LineDef, i: nat)
    requires i <= |line.stations|
  {
    (forall e :: e in adj0 ==> e in adj) &&
    (forall k :: 0 < k < i ==> Hop(line, k) in adj) &&
    (forall u, v :: (u, v) in adj ==> (u, v) in adj0 || LineHop(line, u, v) || LineHop(line, v, u)) &&
    Consistent(adj)
  }

  /** Adding the `i`-th station extends the nodes and positions by one. */
  lemma PosPrefixStep(nodes0: seq<Vertex>, pos0: map<Vertex, Point>,
                      nodes: seq<Vertex>, pos: map<Vertex, Point>, line: LineDef, i: nat)
    requires i < |line.stations| && UniqueStations(line)
    requires PosPrefix(nodes0, pos0, nodes, pos, line, i)
    requires At(line, i) !in nodes0
    ensures At(line, i) !in nodes && (i > 0 ==> At(line, i - 1) in nodes)
    ensures PosPrefix(nodes0, pos0, nodes + [At(line, i)], pos[At(line, i) := Scale(line.stations[i])], line, i + 1)
  {
    var node := At(line, i);
    var pos' := pos[node := Scale(line.stations[i])];
    forall k | 0 <= k < i ensures At(line, k) != node {
      assert line.stations[k].name != line.stations[i].name;
    }
    assert LineVertices(line)[..i + 1] == LineVertices(line)[..i] + [node];
    assert i > 0 ==> nodes[|nodes0| + i - 1] == At(line, i - 1);
    assert forall k :: 0 <= k < i + 1 ==> At(line, k) in pos' && pos'[At(line, k)] == Scale(line.stations[k]);
  }

  /** Adding the rail edge of the `i`-th station extends the edges by one. */
  lemma RailPrefixStep(adj0: EdgeMap, adj: EdgeMap, line: LineDef, i: nat)
    requires 0 < i < |line.stations|
    requires RailPrefix(adj0, adj, line, i)
    ensures RailPrefix(adj0, Added(adj, At(line, i - 1), At(line, i), RailEdge(line.name)), line, i + 1)
  {
    var u, v := At(line, i - 1), At(line, i);
    var adj' := Added(adj, u, v, RailEdge(line.name));
    assert Hop(line, i) == (u, v);
    assert LineHop(line, u, v);
    ConsistentAdded(adj, u, v);
    assert forall k :: 0 < k < i + 1 ==> Hop(line, k) in adj';
  }

  /** The nodes of one line and the rail edges between its consecutive
      stations (the body of the loop of lines 36-55). */
  method AddLine(g: Graph, line: LineDef)
    requires g.Valid() && UniqueStations(line)
    requires forall k :: 0 <= k < |line.stations| ==> At(line, k) !in g.nodes
    requires Consistent(g.adj)
    modifies g
    ensures g.Valid()
    ensures PosPrefix(old(g.nodes), old(g.pos), g.nodes, g.pos, line, |line.stations|)
    ensures RailPrefix(old(g.adj), g.adj, line, |line.stations|)
  {
    for i := 0 to |line.stations|
      invariant g.Valid()
      invariant PosPrefix(old(g.nodes), old(g.pos), g.nodes, g.pos, line, i)
      invariant RailPrefix(old(g.adj), g.adj, line, i)
    {
      PosPrefixStep(old(g.nodes), old(g.pos), g.nodes, g.pos, line, i);
      if i > 0 {
        RailPrefixStep(old(g.adj), g.adj, line, i);
      }
      AddStation(g, line, i);
    }
  }

  /** The graph after the first `l` lines were added. */
  ghost predicate GraphPrefix(lines: seq<LineDef>, l: nat,
                              nodes: seq<Vertex>, pos: map<Vertex, Point>, adj: EdgeMap)
    requires l <= |lines|
  {
    nodes == Vertices(lines[..l]) &&
    (forall v :: v in pos <==> v in nodes) &&
    (forall m, i :: 0 <= m < l && 0 <= i < |lines[m].stations| ==>
       At(lines[m], i) in pos && pos[At(lines[m], i)] == Scale(lines[m].stations[i])) &&
    (forall m, k :: 0 <= m < l && 0 < k < |lines[m].stations| ==> Hop(lines[m], k) in adj) &&
    (forall u, v :: (u, v) in adj ==> IsRail(lines, u, v) || IsRail(lines, v, u)) &&
    Consistent(adj)
  }

  /** None of the nodes of line `l` is among those of the lines before it. */
  lemma LineIsNew(lines: seq<LineDef>, l: nat)
    requires WellFormed(lines) && l < |lines|
    ensures forall k :: 0 <= k < |lines[l].stations| ==> At(lines[l], k) !in Vertices(lines[..l])
  {
    forall k | 0 <= k < |lines[l].stations| ensures At(lines[l], k) !in Vertices(lines[..l]) {
      NewVertex(lines, l, k);
    }
  }

  /** Adding line `l` to the graph of the lines before it gives the graph of
      the first `l + 1` lines. */
  lemma GraphPrefixStep(lines: seq<LineDef>, l: nat,
                        nodes: seq<Vertex>, pos: map<Vertex, Point>, adj: EdgeMap,
                        nodes': seq<Vertex>, pos': map<Vertex, Point>, adj': EdgeMap)
    requires WellFormed(lines) && l < |lines|
    requires GraphPrefix(lines, l, nodes, pos, adj)
    requires PosPrefix(nodes, pos, nodes', pos', lines[l], |lines[l].stations|)
    requires RailPrefix(adj, adj', lines[l], |lines[l].stations|)
    ensures GraphPrefix(lines, l + 1, nodes', pos', adj')
  {
    var line := lines[l];
    assert LineVertices(line)[..|line.stations|] == LineVertices(line);
    assert lines[..l + 1][..l] == lines[..l];
    assert nodes' == Vertices(lines[..l + 1]);
    forall m, i | 0 <= m < l && 0 <= i < |lines[m].stations|
      ensures At(lines[m], i) in pos' && pos'[At(lines[m], i)] == Scale(lines[m].stations[i])
    {
      forall j | 0 <= j < |line.stations| ensures LineVertices(line)[j] != At(lines[m], i) {
        AtDistinct(lines, m, i, l, j);
      }
    }
    forall u, v | LineHop(line, u, v) ensures IsRail(lines, u, v) {
    }
  }

  /** Nodes with their positions and the rail edges of every line (lines 34-55). */
  method BuildGraph(lines: seq<LineDef>) returns (g: Graph)
    requires WellFormed(lines)
    ensures fresh(g) && g.Valid()
    ensures g.nodes == Vertices(lines)
    ensures forall v :: v in g.pos <==> v in g.nodes
    ensures forall m, i :: 0 <= m < |lines| && 0 <= i < |lines[m].stations| ==>
              At(lines[m], i) in g.pos && g.pos[At(lines[m], i)] == Scale(lines[m].stations[i])
    ensures forall u, v :: (u, v) in g.adj <==> IsRail(lines, u, v) || IsRail(lines, v, u)
    ensures Consistent(g.adj)
  {
    g := new Graph();
    for l := 0 to |lines|
      invariant fresh(g) && g.Valid()
      invariant GraphPrefix(lines, l, g.nodes, g.pos, g.adj)
    {
      LineIsNew(lines, l);
      ghost var nodes, pos, adj := g.nodes, g.pos, g.adj;
      AddLine(g, lines[l]);
      GraphPrefixStep(lines, l, nodes, pos, adj, g.nodes, g.pos, g.adj);
    }
    assert lines[..|lines|] == lines;
    RailsPresent(lines, g.adj);
  }

  /** Consecutive stations of a line are on that line. */
  lemma RailSameLine(lines: seq<LineDef>, u: Vertex, v: Vertex)
    ensures IsRail(lines, u, v) ==> LineOf(u) == LineOf(v)
  {
    if IsRail(lines, u, v) {
      var m :| 0 <= m < |lines| && LineHop(lines[m], u, v);
      var k :| 0 < k < |lines[m].stations| && Hop(lines[m], k) == (u, v);
    }
  }

  /** An edge map that holds every hop of every line, in both orientations
      once it is symmetric, holds every rail pair. */
  lemma RailsPresent(lines: seq<LineDef>, adj: EdgeMap)
    requires Symmetric(adj)
    requires forall m, k :: 0 <= m < |lines| && 0 < k < |lines[m].stations| ==> Hop(lines[m], k) in adj
    ensures forall u, v :: IsRail(lines, u, v) || IsRail(lines, v, u) ==> (u, v) in adj
  {
    forall u, v | IsRail(lines, u, v) ensures (u, v) in adj && (v, u) in adj {
      var m :| 0 <= m < |lines| && LineHop(lines[m], u, v);
      var k :| 0 < k < |lines[m].stations| && Hop(lines[m], k) == (u, v);
    }
  }

  /** The nodes of `ns` at station `s`, in order: what appending every node
      to the list of its station leaves under `s`. */
  function AtStation(ns: seq<Vertex>, s: string): seq<Vertex> {
    if ns == [] then []
    else AtStation(ns[..|ns| - 1], s) + (if StationOf(ns[|ns| - 1]) == s then [ns[|ns| - 1]] else [])
  }

  /** A station's list holds exactly the nodes at that station. */
  lemma {:induction false} AtStationIn(ns: seq<Vertex>, s: string)
    ensures forall v :: v in AtStation(ns, s) <==> v in ns && StationOf(v) == s
  {
    if ns != [] {
      var init, last := ns[..|ns| - 1], ns[|ns| - 1];
      AtStationIn(init, s);
      assert ns == init + [last];
    }
  }

  /** ... each of them once when the nodes are distinct, */
  lemma {:induction false} AtStationDistinct(ns: seq<Vertex>, s: string)
    requires Distinct(ns)
    ensures Distinct(AtStation(ns, s))
  {
    if ns != [] {
      var init, last := ns[..|ns| - 1], ns[|ns| - 1];
      assert Distinct(init);
      AtStationDistinct(init, s);
      AtStationIn(init, s);
      assert last !in init;
    }
  }

  /** ... and is empty exactly when no node is at that station. */
  lemma AtStationEmpty(ns: seq<Vertex>, s: string)
    ensures AtStation(ns, s) == [] <==> forall v :: v in ns ==> StationOf(v) != s
  {
    AtStationIn(ns, s);
    if AtStation(ns, s) != [] {
      assert AtStation(ns, s)[0] in AtStation(ns, s);
    }
  }

  lemma AtStationSnoc(ns: seq<Vertex>, v: Vertex, s: string)
    ensures AtStation(ns + [v], s) == AtStation(ns, s) + (if StationOf(v) == s then [v] else [])
  {
    assert (ns + [v])[..|ns|] == ns;
  }

  /** The station index (lines 57-60): every node, in node order, appended to
      the list of its station; `order` lists the stations as they first appear. */
  method IndexStations(nodes: seq<Vertex>) returns (order: seq<string>, index: StationIndex)
    ensures forall s :: s in index <==> exists v :: v in nodes && StationOf(v) == s
    ensures forall s :: s in index ==> index[s] == AtStation(nodes, s)
    ensures Distinct(order) && forall s :: s in order <==> s in index
  {
    order, index := [], map[];
    for i := 0 to |nodes|
      invariant forall s :: s in index <==> AtStation(nodes[..i], s) != []
      invariant forall s :: s in index ==> index[s] == AtStation(nodes[..i], s)
      invariant Distinct(order) && forall s :: s in order <==> s in index
    {
      var v := nodes[i];
      var s := StationOf(v);
      assert nodes[..i + 1] == nodes[..i] + [v];
      forall t ensures AtStation(nodes[..i + 1], t) == AtStation(nodes[..i], t) + (if StationOf(v) == t then [v] else []) {
        AtStationSnoc(nodes[..i], v, t);
      }
      if s in index {
        index := index[s := index[s] + [v]];
      } else {
        index := index[s := [v]];
        order := order + [s];
      }
    }
    assert nodes[..|nodes|] == nodes;
    forall s ensures AtStation(nodes, s) != [] <==> exists v :: v in nodes && StationOf(v) == s {
      AtStationEmpty(nodes, s);
    }
  }

  /** The transfer edges from the `i`-th node of a station to the nodes
      after it (the inner loop of lines 66-68). */
  method AddTransfersFrom(g: Graph, ns: seq<Vertex>, i: nat)
    requires g.Valid() && i < |ns| && Distinct(ns)
    requires forall v :: v in ns ==> v in g.nodes && v.Real?
    requires forall j :: 0 <= j < |ns| ==> StationOf(ns[j]) == StationOf(ns[i])
    requires Consistent(g.adj)
    modifies g
    ensures g.Valid()
    ensures g.nodes == old(g.nodes) && g.pos == old(g.pos)
    ensures forall e :: e in old(g.adj) ==> e in g.adj
    ensures forall q :: i < q < |ns| ==> (ns[i], ns[q]) in g.adj && (ns[q], ns[i]) in g.adj
    ensures forall u, v :: (u, v) in g.adj ==> (u, v) in old(g.adj) || (u in ns && v in ns && u != v)
    ensures Consistent(g.adj)
  {
    for j := i + 1 to |ns|
      invariant g.Valid()
      invariant g.nodes == old(g.nodes) && g.pos == old(g.pos)
      invariant forall e :: e in old(g.adj) ==> e in g.adj
      invariant forall q :: i < q < j ==> (ns[i], ns[q]) in g.adj && (ns[q], ns[i]) in g.adj
      invariant forall u, v :: (u, v) in g.adj ==> (u, v) in old(g.adj) || (u in ns && v in ns && u != v)
      invariant Consistent(g.adj)
    {
      var a, b := ns[i], ns[j];
      assert a in ns && b in ns && a != b;
      assert LineOf(a) != LineOf(b);
      ConsistentAdded(g.adj, a, b);
      g.AddEdge(a, b, TransferEdge());
    }
  }

  /** Every node of `ns` before position `i` is joined both ways to every node after it. */
  ghost predicate PairsFrom(adj: EdgeMap, ns: seq<Vertex>, i: nat) {
    forall p, q :: 0 <= p < i && p < q < |ns| ==> (ns[p], ns[q]) in adj && (ns[q], ns[p]) in adj
  }

  lemma PairsGrow(before: EdgeMap, after: EdgeMap, ns: seq<Vertex>, i: nat)
    requires PairsFrom(before, ns, i) && forall e :: e in before ==> e in after
    requires forall q :: i < q < |ns| ==> (ns[i], ns[q]) in after && (ns[q], ns[i]) in after
    ensures PairsFrom(after, ns, i + 1)
  {
  }

  /** With every position done, every two different nodes of `ns` are joined. */
  lemma PairsAll(adj: EdgeMap, ns: seq<Vertex>)
    requires PairsFrom(adj, ns, |ns|)
    ensures forall u, v :: u in ns && v in ns && u != v ==> (u, v) in adj
  {
    forall u, v | u in ns && v in ns && u != v
      ensures (u, v) in adj
    {
      var p :| 0 <= p < |ns| && ns[p] == u;
      var q :| 0 <= q < |ns| && ns[q] == v;
    }
  }

  /** The transfer edges of one station (lines 64-68): one between every
      two different nodes of `ns`. */
  method AddStationTransfers(g: Graph, ns: seq<Vertex>)
    requires g.Valid()
    requires Distinct(ns)
    requires forall v :: v in ns ==> v in g.nodes && v.Real?
    requires forall i, j :: 0 <= i < |ns| && 0 <= j < |ns| ==> StationOf(ns[i]) == StationOf(ns[j])
    requires Consistent(g.adj)
    modifies g
    ensures g.Valid()
    ensures g.nodes == old(g.nodes) && g.pos == old(g.pos)
    ensures forall u, v :: (u, v) in g.adj <==> (u, v) in old(g.adj) || (u in ns && v in ns && u != v)
    ensures Consistent(g.adj)
  {
    if |ns| > 1 {
      for i := 0 to |ns|
        invariant g.Valid()
        invariant g.nodes == old(g.nodes) && g.pos == old(g.pos)
        invariant forall u, v :: (u, v) in g.adj ==> (u, v) in old(g.adj) || (u in ns && v in ns && u != v)
        invariant forall e :: e in old(g.adj) ==> e in g.adj
        invariant PairsFrom(g.adj, ns, i)
        invariant Consistent(g.adj)
      {
        ghost var before := g.adj;
        AddTransfersFrom(g, ns, i);
        PairsGrow(before, g.adj, ns, i);
      }
    }
    PairsAll(g.adj, ns);
  }

  /** `u` and `v` are two different entries of one station's list. */
  ghost predicate SharedStation(index: StationIndex, u: Vertex, v: Vertex) {
    StationOf(u) in index && u in index[StationOf(u)] && v in index[StationOf(u)] && u != v
  }

  /** The transfer edges of every station, station by station (lines 62-68). */
  method AddTransfers(g: Graph, order: seq<string>, index: StationIndex)
    requires g.Valid()
    requires forall s :: s in index <==> s in order
    requires forall s :: s in index ==> Distinct(index[s])
    requires forall s, v :: s in index && v in index[s] ==> v in g.nodes && v.Real? && StationOf(v) == s
    requires Consistent(g.adj)
    modifies g
    ensures g.Valid()
    ensures g.nodes == old(g.nodes) && g.pos == old(g.pos)
    ensures forall u, v :: (u, v) in g.adj <==> (u, v) in old(g.adj) || SharedStation(index, u, v)
    ensures Consistent(g.adj)
  {
    for si := 0 to |order|
      invariant g.Valid()
      invariant g.nodes == old(g.nodes) && g.pos == old(g.pos)
      invariant forall u, v :: (u, v) in g.adj ==> (u, v) in old(g.adj) || SharedStation(index, u, v)
      invariant forall u, v :: SharedStation(index, u, v) && StationOf(u) in order[..si] ==> (u, v) in g.adj
      invariant forall e :: e in old(g.adj) ==> e in g.adj
      invariant Consistent(g.adj)
    {
      var s := order[si];
      AddStationTransfers(g, index[s]);
      assert order[..si + 1] == order[..si] + [s];
    }
    assert order[..|order|] == order;
  }

  /** The whole base network and its station index (lines 34-68). */
  method BuildNetwork(lines: seq<LineDef>) returns (g: Graph, index: StationIndex)
    requires WellFormed(lines)
    ensures fresh(g) && IsNetwork(g, index)
    ensures g.nodes == Vertices(lines)
    ensures forall m, i :: 0 <= m < |lines| && 0 <= i < |lines[m].stations| ==>
              At(lines[m], i) in g.pos && g.pos[At(lines[m], i)] == Scale(lines[m].stations[i])
    ensures forall u, v :: (u, v) in g.adj <==> IsRail(lines, u, v) || IsRail(lines, v, u) || IsTransfer(lines, u, v)
    ensures Consistent(g.adj)
    ensures forall s :: s in index <==> exists v :: v in g.nodes && StationOf(v) == s
    ensures forall s :: s in index ==> index[s] == AtStation(Vertices(lines), s)
  {
    g := BuildGraph(lines);
    var order;
    order, index := IndexStations(g.nodes);
    VerticesAreReal(lines);
    forall s | s in index ensures Distinct(index[s]) && forall v :: v in index[s] <==> v in g.nodes && StationOf(v) == s {
      AtStationIn(g.nodes, s);
      AtStationDistinct(g.nodes, s);
    }
    AddTransfers(g, order, index);
    forall u, v ensures SharedStation(index, u, v) <==> IsTransfer(lines, u, v) {
    }
    forall e | e in g.adj ensures RailOrTransfer(e.0, e.1, g.adj[e]) {
      var (u, v) := e;
      if LineOf(u) != LineOf(v) {
        RailSameLine(lines, u, v);
        RailSameLine(lines, v, u);
      }
    }
  }
}
