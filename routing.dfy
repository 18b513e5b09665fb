/**
 * One route query (app.py, lines 92-149 and 169-186): the per-query copy of
 * the network with the virtual origin and destination, the search between
 * them, the steps reported for the route found, and the choice between that
 * route and walking.
 */
module Routing {
  import opened Wrappers
  import opened Graphs
  import opened Network
  import opened Paths
  import opened Geometry

  const BOARD_TIME: int := 2

  /** The attributes of an edge from the virtual origin to an origin node. */
  function Board(): EdgeData {
    EdgeData(BOARD_TIME, Some(Boarding), None)
  }

  /** The attributes of an edge from a destination node to the virtual destination. */
  function Alight(): EdgeData {
    EdgeData(0, None, None)
  }

  /** Edges joining `x` to every node of `ns`, in both orientations, all with attributes `d`. */
  function Attach(x: Vertex, ns: seq<Vertex>, d: EdgeData): (m: EdgeMap)
    ensures forall e :: e in m <==> (e.0 == x && e.1 in ns) || (e.1 == x && e.0 in ns)
    ensures forall e :: e in m ==> m[e] == d
  {
    var keys := (set n | n in ns :: (x, n)) + (set n | n in ns :: (n, x));
    map e | e in keys :: d
  }

  /** The per-query graph's edges: the base edges, a boarding edge from the
      virtual origin to every origin node and an alighting edge from every
      destination node to the virtual destination. */
  function Augment(base: EdgeMap, origins: seq<Vertex>, dests: seq<Vertex>): EdgeMap {
    base + Attach(Src, origins, Board()) + Attach(Tgt, dests, Alight())
  }

  /** No base edge touches `x`. */
  ghost predicate Untouched(adj: EdgeMap, x: Vertex) {
    forall e :: e in adj ==> e.0 != x && e.1 != x
  }

  /** The edges of `x` to one more node. */
  lemma AttachSnoc(x: Vertex, ns: seq<Vertex>, i: nat, d: EdgeData)
    requires i < |ns|
    ensures Attach(x, ns[..i + 1], d) == Attach(x, ns[..i], d)[(x, ns[i]) := d][(ns[i], x) := d]
  {
    assert ns[..i + 1] == ns[..i] + [ns[i]];
  }

  /** Adding the edge between `x` and `ns[i]`, in either orientation, to the
      edges of `x` to `ns[..i]` gives the edges of `x` to `ns[..i + 1]`. */
  lemma AttachStep(base: EdgeMap, x: Vertex, ns: seq<Vertex>, i: nat, d: EdgeData)
    requires i < |ns| && Untouched(base, x)
    ensures Added(base + Attach(x, ns[..i], d), x, ns[i], d) == base + Attach(x, ns[..i + 1], d)
    ensures Added(base + Attach(x, ns[..i], d), ns[i], x, d) == base + Attach(x, ns[..i + 1], d)
  {
    var n, att := ns[i], Attach(x, ns[..i], d);
    var adj := base + att;
    AttachSnoc(x, ns, i, d);
    var both: EdgeMap := adj[(x, n) := d][(n, x) := d];
    var swapped: EdgeMap := adj[(n, x) := d][(x, n) := d];
    var att': EdgeMap := att[(x, n) := d][(n, x) := d];
    assert base + att' == both;
    assert (x, n) in adj ==> adj[(x, n)] == d;
    assert (n, x) in adj ==> adj[(n, x)] == d;
    assert Update(d, d) == d;
    assert swapped == both;
  }

  /** The base graph's edges join real nodes and are rail or transfer edges. */
  ghost predicate IsBase(base: EdgeMap) {
    forall e :: e in base ==> e.0.Real? && e.1.Real? && RailOrTransfer(e.0, e.1, base[e])
  }

  lemma NetworkIsBase(g: Graph, index: StationIndex)
    requires IsNetwork(g, index)
    ensures IsBase(g.adj)
    ensures forall s, v :: s in index && v in index[s] ==> v.Real?
  {
  }

  /** Every edge weight of a query graph, base or added, is non-negative. */
  lemma AugmentNonNegative(base: EdgeMap, origins: seq<Vertex>, dests: seq<Vertex>)
    requires IsBase(base)
    ensures NonNegative(Augment(base, origins, dests))
  {
  }

  /** One of the loops of lines 106-110: an edge between `x` and every node
      of `ns`, added as `add_edge(n, x)` when `inward` and as
      `add_edge(x, n)` otherwise. */
  method AttachEdges(h: Graph, x: Vertex, ns: seq<Vertex>, d: EdgeData, inward: bool)
    requires h.Valid() && x in h.nodes && Untouched(h.adj, x)
    requires forall v :: v in ns ==> v in h.nodes
    modifies h
    ensures h.Valid() && h.nodes == old(h.nodes) && h.pos == old(h.pos)
    ensures h.adj == old(h.adj) + Attach(x, ns, d)
  {
    for i := 0 to |ns|
      invariant h.Valid() && h.nodes == old(h.nodes) && h.pos == old(h.pos)
      invariant h.adj == old(h.adj) + Attach(x, ns[..i], d)
    {
      AttachStep(old(h.adj), x, ns, i, d);
      if inward {
        h.AddEdge(ns[i], x, d);
      } else {
        h.AddEdge(x, ns[i], d);
      }
    }
    assert ns[..|ns|] == ns;
  }

  /** The per-query copy (lines 99-110): the base graph with the virtual
      origin and destination and their edges; the base graph itself is
      not changed. */
  method BuildQueryGraph(g: Graph, index: StationIndex, origin: string, destination: string) returns (h: Graph)
    requires IsNetwork(g, index) && origin in index && destination in index
    ensures fresh(h) && h.Valid()
    ensures h.nodes == g.nodes + [Src, Tgt] && h.pos == g.pos
    ensures h.adj == Augment(g.adj, index[origin], index[destination])
  {
    h := g.Copy();
    h.AddNode(Src, None);
    h.AddNode(Tgt, None);
    assert Untouched(h.adj, Src) && Untouched(h.adj, Tgt);
    AttachEdges(h, Src, index[origin], Board(), false);
    assert Untouched(h.adj, Tgt);
    AttachEdges(h, Tgt, index[destination], Alight(), true);
  }

  // ---------------------------------------------------------------------
  // Steps (app.py, lines 124-149)

  /** One entry of the list of steps of an answer. */
  datatype Step = Step(from: string, to: string, time: real, kind: Kind)

  /** The step for the edge from `a` to `b`: the stations of both ends, the
      edge's weight, and its "type", which is "rail" when the edge has none. */
  function StepOf(a: Vertex, b: Vertex, d: EdgeData): Step {
    Step(StationOf(a), StationOf(b), d.weight as real, d.kind.GetOr(Rail))
  }

  /** The steps of the walk `p`: one per edge, except the edges that touch
      a virtual endpoint. */
  function Steps(E: EdgeMap, p: seq<Vertex>): seq<Step>
    requires forall k :: 0 < k < |p| ==> (p[k - 1], p[k]) in E
  {
    if |p| <= 1 then []
    else
      var a, b := p[|p| - 2], p[|p| - 1];
      Steps(E, p[..|p| - 1]) + (if IsVirtual(a) || IsVirtual(b) then [] else [StepOf(a, b, E[(a, b)])])
  }

  /** The loop of lines 125-141 over consecutive pairs of the path. */
  method ExtractSteps(E: EdgeMap, p: seq<Vertex>) returns (steps: seq<Step>)
    requires |p| >= 1 && Linked(E, p)
    ensures steps == Steps(E, p)
  {
    steps := [];
    for i := 1 to |p|
      invariant steps == Steps(E, p[..i])
    {
      var a, b := p[i - 1], p[i];
      assert p[..i + 1][..i] == p[..i];
      if !(IsVirtual(a) || IsVirtual(b)) {
        steps := steps + [StepOf(a, b, E[(a, b)])];
      }
    }
    assert p[..|p|] == p;
  }

  /** The sum of the step times (line 143). */
  function TotalTime(steps: seq<Step>): real {
    if steps == [] then 0.0 else TotalTime(steps[..|steps| - 1]) + steps[|steps| - 1].time
  }

  /** What the search returns when it finds a route (lines 145-149). */
  datatype PathResult = PathResult(steps: seq<Step>, distance: real, walkDirect: real)

  /** A walk from the virtual origin to the virtual destination without
      repeated vertices that costs no more than any other such walk. */
  ghost predicate Optimal(E: EdgeMap, p: seq<Vertex>) {
    IsWalk(E, p, Src, Tgt) && Distinct(p) && forall q :: IsWalk(E, q, Src, Tgt) ==> Cost(E, p) <= Cost(E, q)
  }

  /** One more edge between real nodes adds one step. */
  lemma StepsSnoc(E: EdgeMap, p: seq<Vertex>, j: nat)
    requires Linked(E, p) && 2 <= j <= |p| && p[j - 2].Real? && p[j - 1].Real?
    ensures Linked(E, p[..j - 1]) && Linked(E, p[..j])
    ensures Steps(E, p[..j]) == Steps(E, p[..j - 1]) + [StepOf(p[j - 2], p[j - 1], E[(p[j - 2], p[j - 1])])]
  {
    var q := p[..j];
    assert q[..j - 1] == p[..j - 1];
    assert q[j - 2] == p[j - 2] && q[j - 1] == p[j - 1];
  }

  /** The first edge of a walk that leaves a virtual vertex gives no step. */
  lemma StepsFirst(E: EdgeMap, p: seq<Vertex>)
    requires Linked(E, p) && 2 <= |p| && IsVirtual(p[0])
    ensures Linked(E, p[..2]) && Steps(E, p[..2]) == []
  {
    var q := p[..2];
    assert q[..1] == [p[0]];
    assert Steps(E, q[..1]) == [];
  }

  /** Along a walk that leaves a virtual vertex and then visits only real
      nodes, the first `j` vertices give one step per edge but the first. */
  lemma {:induction false} StepsPrefix(E: EdgeMap, p: seq<Vertex>, j: nat)
    requires Linked(E, p) && 2 <= j <= |p|
    requires IsVirtual(p[0]) && forall k :: 0 < k < j ==> p[k].Real?
    ensures Linked(E, p[..j])
    ensures |Steps(E, p[..j])| == j - 2
    ensures forall i :: 0 <= i < j - 2 ==> Steps(E, p[..j])[i] == StepOf(p[i + 1], p[i + 2], E[(p[i + 1], p[i + 2])])
  {
    if j == 2 {
      StepsFirst(E, p);
    } else {
      StepsPrefix(E, p, j - 1);
      StepsSnoc(E, p, j);
    }
  }

  /** The steps' times of those first `j` vertices sum to their cost
      without the first edge. */
  lemma {:induction false} TimePrefix(E: EdgeMap, p: seq<Vertex>, j: nat)
    requires Linked(E, p) && 2 <= j <= |p|
    requires IsVirtual(p[0]) && forall k :: 0 < k < j ==> p[k].Real?
    ensures Linked(E, p[..j])
    ensures TotalTime(Steps(E, p[..j])) == (Cost(E, p[..j]) - E[(p[0], p[1])].weight) as real
  {
    if j == 2 {
      StepsFirst(E, p);
      assert p[..2][..1] == [p[0]];
    } else {
      TimePrefix(E, p, j - 1);
      StepsSnoc(E, p, j);
      var prev := Steps(E, p[..j - 1]);
      var s := StepOf(p[j - 2], p[j - 1], E[(p[j - 2], p[j - 1])]);
      assert (prev + [s])[..|prev|] == prev;
      assert p[..j][..j - 1] == p[..j - 1];
    }
  }

  /** A route found for a query: it boards at an origin node, alights from a
      destination node, and in between visits real nodes over base edges. */
  lemma RouteShape(base: EdgeMap, os: seq<Vertex>, ds: seq<Vertex>, p: seq<Vertex>)
    requires IsBase(base) && (forall v :: v in os ==> v.Real?) && (forall v :: v in ds ==> v.Real?)
    requires IsWalk(Augment(base, os, ds), p, Src, Tgt) && Distinct(p)
    ensures |p| >= 3 && p[1] in os && p[|p| - 2] in ds
    ensures forall k :: 0 < k < |p| - 1 ==> p[k].Real?
    ensures forall k :: 1 < k < |p| - 1 ==>
              (p[k - 1], p[k]) in base && Augment(base, os, ds)[(p[k - 1], p[k])] == base[(p[k - 1], p[k])]
    ensures Augment(base, os, ds)[(p[0], p[1])] == Board()
    ensures Augment(base, os, ds)[(p[|p| - 2], p[|p| - 1])] == Alight()
  {
    var A := Augment(base, os, ds);
    forall k | 0 < k < |p| - 1 ensures p[k].Real? {
      assert p[k] != p[0] && p[k] != p[|p| - 1];
    }
    assert p[0] != p[1];
    assert (p[0], p[1]) in A;
    assert p[1] in os;
    var n := |p|;
    assert p[n - 2] != p[n - 1];
    assert (p[n - 2], p[n - 1]) in A;
    assert p[n - 2] in ds;
  }

  /** The steps of a route found: one per edge between real nodes, with the
      stations at both ends and the edge's weight and type, and their times
      sum to the route's cost less the boarding time. */
  lemma RouteSteps(base: EdgeMap, os: seq<Vertex>, ds: seq<Vertex>, p: seq<Vertex>)
    requires IsBase(base) && (forall v :: v in os ==> v.Real?) && (forall v :: v in ds ==> v.Real?)
    requires IsWalk(Augment(base, os, ds), p, Src, Tgt) && Distinct(p)
    ensures |Steps(Augment(base, os, ds), p)| == |p| - 3
    ensures forall i :: 0 <= i < |p| - 3 ==>
              Steps(Augment(base, os, ds), p)[i] == StepOf(p[i + 1], p[i + 2], base[(p[i + 1], p[i + 2])])
    ensures TotalTime(Steps(Augment(base, os, ds), p)) == (Cost(Augment(base, os, ds), p) - BOARD_TIME) as real
  {
    RouteShape(base, os, ds, p);
    InnerSteps(Augment(base, os, ds), base, p);
    InnerTime(Augment(base, os, ds), p);
  }

  /** The steps of a walk whose first and last edges touch virtual vertices
      and whose other edges are base edges between real nodes. */
  lemma InnerSteps(E: EdgeMap, base: EdgeMap, p: seq<Vertex>)
    requires |p| >= 3 && Linked(E, p) && IsVirtual(p[0]) && IsVirtual(p[|p| - 1])
    requires forall k :: 0 < k < |p| - 1 ==> p[k].Real?
    requires forall k :: 1 < k < |p| - 1 ==> (p[k - 1], p[k]) in base && E[(p[k - 1], p[k])] == base[(p[k - 1], p[k])]
    ensures |Steps(E, p)| == |p| - 3
    ensures forall i :: 0 <= i < |p| - 3 ==> Steps(E, p)[i] == StepOf(p[i + 1], p[i + 2], base[(p[i + 1], p[i + 2])])
  {
    StepsPrefix(E, p, |p| - 1);
    StepsLast(E, p);
  }

  /** Their times sum to the walk's cost without boarding and alighting. */
  lemma InnerTime(E: EdgeMap, p: seq<Vertex>)
    requires |p| >= 3 && Linked(E, p) && IsVirtual(p[0]) && IsVirtual(p[|p| - 1])
    requires forall k :: 0 < k < |p| - 1 ==> p[k].Real?
    requires E[(p[0], p[1])].weight == BOARD_TIME && E[(p[|p| - 2], p[|p| - 1])].weight == 0
    ensures TotalTime(Steps(E, p)) == (Cost(E, p) - BOARD_TIME) as real
  {
    var n := |p|;
    TimePrefix(E, p, n - 1);
    StepsLast(E, p);
    assert Cost(E, p) == Cost(E, p[..n - 1]) + E[(p[n - 2], p[n - 1])].weight;
  }

  /** An edge into a virtual vertex adds no step. */
  lemma StepsLast(E: EdgeMap, p: seq<Vertex>)
    requires |p| >= 2 && Linked(E, p) && IsVirtual(p[|p| - 1])
    ensures Linked(E, p[..|p| - 1]) && Steps(E, p) == Steps(E, p[..|p| - 1])
  {
    assert Steps(E, p) == Steps(E, p[..|p| - 1]) + [];
  }

  /** Every step of a route found rides one rail hop or makes one transfer
      within a station; boarding and alighting are never steps. */
  lemma StepKinds(base: EdgeMap, os: seq<Vertex>, ds: seq<Vertex>, p: seq<Vertex>)
    requires IsBase(base) && (forall v :: v in os ==> v.Real?) && (forall v :: v in ds ==> v.Real?)
    requires IsWalk(Augment(base, os, ds), p, Src, Tgt) && Distinct(p)
    ensures forall s :: s in Steps(Augment(base, os, ds), p) ==>
              (s.kind == Rail && s.time == TIME_BETWEEN_STATIONS as real) ||
              (s.kind == Transfer && s.time == TIME_TRANSFER as real && s.from == s.to)
  {
    RouteSteps(base, os, ds, p);
    RouteShape(base, os, ds, p);
    BaseStepKinds(base, p, Steps(Augment(base, os, ds), p));
  }

  /** Steps taken from base edges only ride or transfer. */
  lemma BaseStepKinds(base: EdgeMap, p: seq<Vertex>, steps: seq<Step>)
    requires IsBase(base) && |p| >= 3 && |steps| == |p| - 3
    requires forall k :: 1 < k < |p| - 1 ==> (p[k - 1], p[k]) in base
    requires forall i :: 0 <= i < |p| - 3 ==> steps[i] == StepOf(p[i + 1], p[i + 2], base[(p[i + 1], p[i + 2])])
    ensures forall s :: s in steps ==>
              (s.kind == Rail && s.time == TIME_BETWEEN_STATIONS as real) ||
              (s.kind == Transfer && s.time == TIME_TRANSFER as real && s.from == s.to)
  {
    forall s | s in steps
      ensures (s.kind == Rail && s.time == TIME_BETWEEN_STATIONS as real) ||
              (s.kind == Transfer && s.time == TIME_TRANSFER as real && s.from == s.to)
    {
      var i :| 0 <= i < |steps| && steps[i] == s;
      assert (p[i + 1], p[i + 2]) in base;
    }
  }

  /** With every step time at least `m >= 0`, the total is never negative
      and, for a non-empty list, at least `m`. */
  lemma {:induction false} TotalTimeAtLeast(steps: seq<Step>, m: real)
    requires m >= 0.0 && forall s :: s in steps ==> s.time >= m
    ensures TotalTime(steps) >= 0.0
    ensures steps != [] ==> TotalTime(steps) >= m
  {
    if steps != [] {
      var init := steps[..|steps| - 1];
      assert forall s :: s in init ==> s in steps;
      TotalTimeAtLeast(init, m);
      assert steps[|steps| - 1] in steps;
    }
  }

  /** A node shared by the origin and the destination gives a walk that
      boards and alights there, costing only the boarding time. */
  lemma SharedNodeWalk(base: EdgeMap, os: seq<Vertex>, ds: seq<Vertex>, n: Vertex)
    requires IsBase(base) && n.Real?
    ensures n in os && n in ds ==>
              IsWalk(Augment(base, os, ds), [Src, n, Tgt], Src, Tgt) &&
              Cost(Augment(base, os, ds), [Src, n, Tgt]) == BOARD_TIME
  {
    if n in os && n in ds {
      var A := Augment(base, os, ds);
      assert A[(Src, n)] == Board() && A[(n, Tgt)] == Alight();
      TwoEdges(A, Src, n, Tgt);
    }
  }

  /** A route that costs no more than boarding has no steps. */
  lemma NoStepsWhenCheap(base: EdgeMap, os: seq<Vertex>, ds: seq<Vertex>, p: seq<Vertex>)
    requires IsBase(base) && (forall v :: v in os ==> v.Real?) && (forall v :: v in ds ==> v.Real?)
    requires IsWalk(Augment(base, os, ds), p, Src, Tgt) && Distinct(p)
    requires Cost(Augment(base, os, ds), p) <= BOARD_TIME
    ensures Steps(Augment(base, os, ds), p) == []
  {
    RouteSteps(base, os, ds, p);
    StepKinds(base, os, ds, p);
    CheapSteps(Steps(Augment(base, os, ds), p), Cost(Augment(base, os, ds), p));
  }

  /** Rides and transfers whose times sum to at most nothing are no steps at all. */
  lemma CheapSteps(steps: seq<Step>, cost: int)
    requires forall s :: s in steps ==>
               (s.kind == Rail && s.time == TIME_BETWEEN_STATIONS as real) ||
               (s.kind == Transfer && s.time == TIME_TRANSFER as real && s.from == s.to)
    requires TotalTime(steps) == (cost - BOARD_TIME) as real && cost <= BOARD_TIME
    ensures steps == []
  {
    assert forall s :: s in steps ==> s.time >= 2.0;
    TotalTimeAtLeast(steps, 2.0);
  }

  /** A query from a station to itself is answered with no steps and a
      distance of 0. */
  lemma SameStationRoute(base: EdgeMap, os: seq<Vertex>, p: seq<Vertex>)
    requires IsBase(base) && os != [] && forall v :: v in os ==> v.Real?
    requires Optimal(Augment(base, os, os), p)
    ensures Steps(Augment(base, os, os), p) == []
  {
    SharedNodeWalk(base, os, os, os[0]);
    assert Cost(Augment(base, os, os), p) <= BOARD_TIME;
    NoStepsWhenCheap(base, os, os, p);
  }

  /** A walk of the network from an origin node to a destination node,
      with boarding before it and alighting after it. */
  lemma WalkLifts(base: EdgeMap, os: seq<Vertex>, ds: seq<Vertex>, o: Vertex, d: Vertex, w: seq<Vertex>)
    requires o in os && d in ds && IsWalk(base, w, o, d)
    ensures IsWalk(Augment(base, os, ds), [Src] + w + [Tgt], Src, Tgt)
  {
    var A, q := Augment(base, os, ds), [Src] + w + [Tgt];
    forall k | 0 < k < |q| ensures (q[k - 1], q[k]) in A {
      if 1 < k < |q| - 1 {
        assert q[k - 1] == w[k - 2] && q[k] == w[k - 1];
      }
    }
  }

  /** A walk of a query graph between the virtual endpoints contains a
      walk of the network from an origin node to a destination node: the
      part between the last visit of the virtual origin before the first
      visit of the virtual destination and that visit. */
  lemma WalkLowers(E: EdgeMap, base: EdgeMap, os: seq<Vertex>, ds: seq<Vertex>, q: seq<Vertex>)
    requires (forall v :: v in os ==> v.Real?) && (forall v :: v in ds ==> v.Real?)
    requires forall v :: (Src, v) in E ==> v in os
    requires forall v :: (v, Tgt) in E ==> v in ds
    requires forall u: Vertex, v: Vertex :: u.Real? && v.Real? && (u, v) in E ==> (u, v) in base
    requires IsWalk(E, q, Src, Tgt)
    ensures exists o, d, w :: o in os && d in ds && IsWalk(base, w, o, d)
  {
    var i, j := Between(q);
    assert (q[i], q[i + 1]) in E && (q[j - 1], q[j]) in E;
    var o, d, w := q[i + 1], q[j - 1], q[i + 1..j];
    forall k | 0 < k < |w| ensures (w[k - 1], w[k]) in base {
      assert w[k - 1] == q[i + k] && w[k] == q[i + k + 1];
      assert (q[i + k], q[i + k + 1]) in E;
    }
    assert |w| >= 1 && w[0] == o && w[|w| - 1] == d;
    assert IsWalk(base, w, o, d);
  }

  /** The last visit of the virtual origin before the first visit of the
      virtual destination, and that visit: only real nodes lie between. */
  lemma Between(q: seq<Vertex>) returns (i: nat, j: nat)
    requires |q| >= 1 && q[0] == Src && q[|q| - 1] == Tgt
    ensures i < j < |q| && q[i] == Src && q[j] == Tgt
    ensures forall k :: i < k < j ==> q[k].Real?
  {
    j := 0;
    while q[j] != Tgt
      invariant 0 <= j < |q| && forall k :: 0 <= k < j ==> q[k] != Tgt
      decreases |q| - j
    {
      j := j + 1;
    }
    i := j - 1;
    while q[i] != Src
      invariant 0 <= i < j && forall k :: i < k < j ==> q[k] != Src
      decreases i
    {
      i := i - 1;
    }
  }

  /** The virtual origin's edges lead to origin nodes. */
  lemma EdgeFromSrc(base: EdgeMap, os: seq<Vertex>, ds: seq<Vertex>, v: Vertex)
    requires IsBase(base) && (forall v :: v in os ==> v.Real?) && (forall v :: v in ds ==> v.Real?)
    requires (Src, v) in Augment(base, os, ds)
    ensures v in os
  {
  }

  /** The edges into the virtual destination come from destination nodes. */
  lemma EdgeToTgt(base: EdgeMap, os: seq<Vertex>, ds: seq<Vertex>, v: Vertex)
    requires IsBase(base) && (forall v :: v in os ==> v.Real?) && (forall v :: v in ds ==> v.Real?)
    requires (v, Tgt) in Augment(base, os, ds)
    ensures v in ds
  {
  }

  /** A query graph's edges between real nodes are the base edges. */
  lemma RealEdge(base: EdgeMap, os: seq<Vertex>, ds: seq<Vertex>, u: Vertex, v: Vertex)
    requires u.Real? && v.Real? && (u, v) in Augment(base, os, ds)
    ensures (u, v) in base
  {
  }

  /** The query graph joins the virtual endpoints exactly when the network
      joins a node of the origin to a node of the destination: the search
      finds nothing only when no rides and transfers connect the stations. */
  lemma RouteExists(base: EdgeMap, os: seq<Vertex>, ds: seq<Vertex>)
    requires IsBase(base) && (forall v :: v in os ==> v.Real?) && (forall v :: v in ds ==> v.Real?)
    ensures (exists q :: IsWalk(Augment(base, os, ds), q, Src, Tgt)) <==>
            (exists o, d, w :: o in os && d in ds && IsWalk(base, w, o, d))
  {
    if o, d, w :| o in os && d in ds && IsWalk(base, w, o, d) {
      WalkLifts(base, os, ds, o, d, w);
    }
    if q :| IsWalk(Augment(base, os, ds), q, Src, Tgt) {
      var A := Augment(base, os, ds);
      forall v | (Src, v) in A ensures v in os {
        EdgeFromSrc(base, os, ds, v);
      }
      forall v | (v, Tgt) in A ensures v in ds {
        EdgeToTgt(base, os, ds, v);
      }
      forall u: Vertex, v: Vertex | u.Real? && v.Real? && (u, v) in A ensures (u, v) in base {
        RealEdge(base, os, ds, u, v);
      }
      WalkLowers(A, base, os, ds, q);
    }
  }

  // ---------------------------------------------------------------------
  // The search (app.py, lines 92-149)

  /** `find_best_path(origin, destination)`. The search is `Dijkstra` where
      the source calls A*; both stations must be known, because the source
      divides by zero for an unknown one. */
  method FindBestPath(g: Graph, index: StationIndex, origin: string, destination: string,
                      hypot: (real, real) -> real)
    returns (r: Option<PathResult>)
    requires IsNetwork(g, index) && origin in index && destination in index
    ensures r.None? <==> forall q :: !IsWalk(Augment(g.adj, index[origin], index[destination]), q, Src, Tgt)
    ensures r.Some? ==> exists p :: Optimal(Augment(g.adj, index[origin], index[destination]), p) &&
                                    r.value.steps == Steps(Augment(g.adj, index[origin], index[destination]), p)
    ensures r.Some? ==> r.value.distance == TotalTime(r.value.steps)
    ensures r.Some? ==> forall q :: IsWalk(Augment(g.adj, index[origin], index[destination]), q, Src, Tgt) ==>
              r.value.distance <= (Cost(Augment(g.adj, index[origin], index[destination]), q) - BOARD_TIME) as real
    ensures r.Some? ==> r.value.walkDirect == WalkingTime(Centroid(Positions(g.pos, index[origin])),
                                                          Centroid(Positions(g.pos, index[destination])), hypot)
    ensures origin == destination ==> r.Some? && r.value.steps == [] && r.value.distance == 0.0
  {
    var originPos := StationPixelPosition(g, index, origin);
    var destPos := StationPixelPosition(g, index, destination);
    var walkDirect := WalkingTime(originPos, destPos, hypot);
    var h := BuildQueryGraph(g, index, origin, destination);
    ghost var os, ds := index[origin], index[destination];
    NetworkIsBase(g, index);
    AugmentNonNegative(g.adj, os, ds);
    SharedNodeWalk(g.adj, os, ds, os[0]);
    forall u, v | (u, v) in h.adj ensures u in h.nodes && v in h.nodes {
      assert (u, v).0 == u && (u, v).1 == v;
    }
    var raw := Dijkstra(h.nodes, h.adj, Src, Tgt);
    if raw.None? {
      return None;
    }
    var path := raw.value;
    var steps := ExtractSteps(h.adj, path);
    RouteSteps(g.adj, os, ds, path);
    assert Optimal(h.adj, path);
    if origin == destination {
      SameStationRoute(g.adj, os, path);
    }
    r := Some(PathResult(steps, TotalTime(steps), walkDirect));
  }

  // ---------------------------------------------------------------------
  // The A* heuristic as written (app.py, lines 113-117)

  /** `h(a, b)`: zero at the virtual endpoints, elsewhere the walking time
      from the node's position to the destination's position. */
  function Heuristic(pos: map<Vertex, Point>, a: Vertex, destPos: Point, hypot: (real, real) -> real): real
    requires a.Real? ==> a in pos
  {
    if IsVirtual(a) then 0.0 else WalkingTime(pos[a], destPos, hypot)
  }

  /** The heuristic can exceed the cost still to go, which A* needs it never
      to do to return a cheapest route: on a line "L" whose first station
      "A" is at the image's corner and whose second station "B" is at the
      other end of its top edge, a query from A to B has one hop of 2
      minutes left at A, yet the heuristic there is 396 / 20 = 19.8. */
  lemma HeuristicOverestimates(hypot: (real, real) -> real)
    requires IsHypot(hypot)
    ensures var a, b := Real(Node("A", "L")), Real(Node("B", "L"));
            var pos := map[a := Scale(StationDef("A", 0.0, 0.0)), b := Scale(StationDef("B", 1.0, 0.0))];
            var E := Augment(Added(map[], a, b, RailEdge("L")), [a], [b]);
            IsWalk(E, [a, b, Tgt], a, Tgt) && Cost(E, [a, b, Tgt]) == TIME_BETWEEN_STATIONS &&
            Heuristic(pos, a, Centroid([pos[b]]), hypot) == 19.8
  {
    OneHopRoute(Real(Node("A", "L")), Real(Node("B", "L")), "L");
    HypotOnAxis(hypot, 396.0);
    HeuristicAtCorner(hypot);
  }

  /** The heuristic at the corner station, for any `hypot` that gives 396
      for the top edge of the image. */
  lemma HeuristicAtCorner(hypot: (real, real) -> real)
    requires hypot(0.0 - 396.0, 0.0 - 0.0) == 396.0
    ensures var a, b := Real(Node("A", "L")), Real(Node("B", "L"));
            var pos := map[a := Scale(StationDef("A", 0.0, 0.0)), b := Scale(StationDef("B", 1.0, 0.0))];
            Heuristic(pos, a, Centroid([pos[b]]), hypot) == 19.8
  {
    var pa, pb := Scale(StationDef("A", 0.0, 0.0)), Scale(StationDef("B", 1.0, 0.0));
    assert pa == (0.0, 0.0) && pb == (396.0, 0.0);
    CentroidOfOne(pb);
    assert WalkingTime(pa, pb, hypot) == 19.8;
  }

  /** The walk that rides one rail edge from `a` to `b` and alights at `b`. */
  lemma OneHopRoute(a: Vertex, b: Vertex, name: string)
    requires a != b && a.Real? && b.Real?
    ensures var E := Augment(Added(map[], a, b, RailEdge(name)), [a], [b]);
            IsWalk(E, [a, b, Tgt], a, Tgt) && Cost(E, [a, b, Tgt]) == TIME_BETWEEN_STATIONS
  {
    var E := Augment(Added(map[], a, b, RailEdge(name)), [a], [b]);
    assert E[(a, b)] == RailEdge(name) && E[(b, Tgt)] == Alight();
    TwoEdges(E, a, b, Tgt);
  }

  /** A walk over two edges costs their two weights. */
  lemma TwoEdges(E: EdgeMap, a: Vertex, b: Vertex, c: Vertex)
    requires (a, b) in E && (b, c) in E
    ensures IsWalk(E, [a, b, c], a, c) && Cost(E, [a, b, c]) == E[(a, b)].weight + E[(b, c)].weight
  {
    assert [a, b, c][..2] == [a, b] && [a, b][..1] == [a];
    assert Cost(E, [a, b]) == E[(a, b)].weight;
  }

  /** The distance covered by a move of `x` pixels along one axis is `x`. */
  lemma HypotOnAxis(hypot: (real, real) -> real, x: real)
    requires IsHypot(hypot) && x >= 0.0
    ensures hypot(0.0 - x, 0.0 - 0.0) == x
  {
    var d := hypot(0.0 - x, 0.0 - 0.0);
    assert d >= 0.0 && d * d == x * x;
    SquareRootUnique(d, x);
  }

  // ---------------------------------------------------------------------
  // The decision (app.py, lines 169-186)

  /** The answer to a route request. */
  datatype Outcome = NotFound | Found(result: PathResult)

  function Min(a: real, b: real): real {
    if a <= b then a else b
  }

  /** `route`: no route found is "not found"; a direct walk strictly faster
      than the route found replaces it by one walking step; otherwise the
      route found is the answer. */
  function Decide(r: Option<PathResult>, start: string, end: string): (o: Outcome)
    ensures o.NotFound? <==> r.None?
    ensures r.Some? ==> o.result.distance == Min(r.value.distance, r.value.walkDirect)
    ensures r.Some? ==> o.result.walkDirect == r.value.walkDirect
    ensures r.Some? && r.value.distance <= r.value.walkDirect ==> o.result == r.value
    ensures r.Some? && r.value.walkDirect < r.value.distance ==>
              o.result.steps == [Step(start, end, r.value.walkDirect, Walk)]
  {
    match r
    case None => NotFound
    case Some(res) =>
      if res.walkDirect < res.distance then
        var walk := res.walkDirect;
        Found(PathResult([Step(start, end, walk, Walk)], walk, walk))
      else
        Found(res)
  }

  /** An answer's distance is the sum of its step times whenever the
      search's was, so the walking answer is consistent too. */
  lemma DecideConsistent(r: Option<PathResult>, start: string, end: string)
    requires r.Some? ==> r.value.distance == TotalTime(r.value.steps)
    ensures Decide(r, start, end).Found? ==>
              Decide(r, start, end).result.distance == TotalTime(Decide(r, start, end).result.steps)
  {
    if r.Some? && r.value.walkDirect < r.value.distance {
      var w := Step(start, end, r.value.walkDirect, Walk);
      assert [w][..0] == [];
    }
  }
}
