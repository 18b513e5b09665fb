/**
 * The undirected weighted graph the planner builds and searches: the part of
 * a networkx `Graph` that the planner uses (add_node, add_edge, copy and edge
 * lookup), with the attribute dictionaries replaced by fixed records.
 */
module Graphs {
  import opened Wrappers

  /** A network node: one per (station, line) pair. */
  datatype Node = Node(station: string, line: string)

  /** A vertex of a routing graph: a real node, or one of the two virtual
      endpoints added to the per-query copy. */
  datatype Vertex = Real(node: Node) | Src | Tgt

  /** The first component of a vertex, as `st1, _ = a` reads it; the virtual
      endpoints are the tuples ("SRC", "SRC") and ("TGT", "TGT"). */
  function StationOf(v: Vertex): string {
    match v
    case Real(n) => n.station
    case Src => "SRC"
    case Tgt => "TGT"
  }

  /** The second component of a vertex. */
  function LineOf(v: Vertex): string {
    match v
    case Real(n) => n.line
    case Src => "SRC"
    case Tgt => "TGT"
  }

  predicate IsVirtual(v: Vertex) {
    v == Src || v == Tgt
  }

  /** The values the "type" attribute of an edge or of a step takes. */
  datatype Kind = Rail | Transfer | Boarding | Walk

  /** An edge's attribute dictionary: "weight" is always set, "type" and
      "line" only by some of the calls that add edges. */
  datatype EdgeData = EdgeData(weight: int, kind: Option<Kind>, line: Option<string>)

  /** A planar position in pixels. */
  type Point = (real, real)

  /** Edge attributes by ordered endpoint pair; an undirected edge is stored
      under both of its orientations, sharing one record. */
  type EdgeMap = map<(Vertex, Vertex), EdgeData>

  predicate Distinct<T(==)>(s: seq<T>) {
    forall i, j :: 0 <= i < j < |s| ==> s[i] != s[j]
  }

  /** `datadict.update(attr)`: the new attributes win, the old ones that the
      new call does not set survive. */
  function Update(prev: EdgeData, attrs: EdgeData): EdgeData {
    EdgeData(attrs.weight,
             if attrs.kind.Some? then attrs.kind else prev.kind,
             if attrs.line.Some? then attrs.line else prev.line)
  }

  /** The node sequence after an `add_node` of `v`: appended once, never moved. */
  function Extend(nodes: seq<Vertex>, v: Vertex): (r: seq<Vertex>)
    ensures v in r && forall x :: x in r <==> x in nodes || x == v
    ensures Distinct(nodes) ==> Distinct(r)
  {
    if v in nodes then nodes else nodes + [v]
  }

  /** The edge map after `add_edge(u, v, **d)`. */
  function Added(adj: EdgeMap, u: Vertex, v: Vertex, d: EdgeData): (r: EdgeMap)
    ensures (u, v) in r && (v, u) in r
    ensures r[(u, v)] == r[(v, u)] == (if (u, v) in adj then Update(adj[(u, v)], d) else d)
    ensures forall e :: e in r <==> e in adj || e == (u, v) || e == (v, u)
    ensures forall e :: e in adj && e != (u, v) && e != (v, u) ==> r[e] == adj[e]
  {
    var m := if (u, v) in adj then Update(adj[(u, v)], d) else d;
    adj[(u, v) := m][(v, u) := m]
  }

  ghost predicate Symmetric(adj: EdgeMap) {
    forall u, v :: (u, v) in adj ==> (v, u) in adj && adj[(v, u)] == adj[(u, v)]
  }

  ghost predicate Closed(nodes: seq<Vertex>, adj: EdgeMap) {
    forall e :: e in adj ==> e.0 in nodes && e.1 in nodes
  }

  /** Adding an edge together with its endpoints keeps every edge between
      listed nodes. */
  lemma AddedClosed(nodes: seq<Vertex>, adj: EdgeMap, u: Vertex, v: Vertex, d: EdgeData)
    requires Closed(nodes, adj)
    ensures Closed(Extend(Extend(nodes, u), v), Added(adj, u, v, d))
  {
    var nodes', adj' := Extend(Extend(nodes, u), v), Added(adj, u, v, d);
    forall e | e in adj' ensures e.0 in nodes' && e.1 in nodes' {
      if e in adj {
        assert e.0 in nodes && e.1 in nodes;
      }
    }
  }

  /** Adding an edge keeps both orientations of every edge, with one record. */
  lemma AddedSymmetric(adj: EdgeMap, u: Vertex, v: Vertex, d: EdgeData)
    requires Symmetric(adj)
    ensures Symmetric(Added(adj, u, v, d))
  {
    var adj' := Added(adj, u, v, d);
    forall x, y | (x, y) in adj' ensures (y, x) in adj' && adj'[(y, x)] == adj'[(x, y)] {
      if (x, y) != (u, v) && (x, y) != (v, u) {
        assert (x, y) in adj && (y, x) in adj;
      }
    }
  }

  class Graph {
    /** The nodes in insertion order. */
    var nodes: seq<Vertex>
    /** The "pos" attribute of the nodes that have one. */
    var pos: map<Vertex, Point>
    /** The edges with their attributes. */
    var adj: EdgeMap

    ghost predicate Valid()
      reads this
    {
      Distinct(nodes) && Closed(nodes, adj) && Symmetric(adj)
    }

    /** `nx.Graph()`: no nodes, no edges. */
    constructor ()
      ensures Valid()
      ensures nodes == [] && pos == map[] && adj == map[]
    {
      nodes, pos, adj := [], map[], map[];
    }

    /** `add_node(v, pos=p)`: adds `v` if it is new and updates its attributes. */
    method AddNode(v: Vertex, p: Option<Point>)
      requires Valid()
      modifies this
      ensures Valid()
      ensures nodes == Extend(old(nodes), v)
      ensures pos == (if p.Some? then old(pos)[v := p.value] else old(pos))
      ensures adj == old(adj)
    {
      nodes := Extend(nodes, v);
      if p.Some? {
        pos := pos[v := p.value];
      }
    }

    /** `add_edge(u, v, **d)`: adds the endpoints that are missing, then
        merges `d` into the (possibly new) attribute record of the edge. */
    method AddEdge(u: Vertex, v: Vertex, d: EdgeData)
      requires Valid()
      modifies this
      ensures Valid()
      ensures nodes == Extend(Extend(old(nodes), u), v)
      ensures pos == old(pos)
      ensures adj == Added(old(adj), u, v, d)
    {
      AddedClosed(nodes, adj, u, v, d);
      AddedSymmetric(adj, u, v, d);
      nodes := Extend(Extend(nodes, u), v);
      adj := Added(adj, u, v, d);
    }

    /** `G.copy()`: a new graph with the same nodes, attributes and edges. */
    method Copy() returns (h: Graph)
      requires Valid()
      ensures fresh(h) && h.Valid()
      ensures h.nodes == nodes && h.pos == pos && h.adj == adj
    {
      h := new Graph();
      h.nodes, h.pos, h.adj := nodes, pos, adj;
    }
  }
}
