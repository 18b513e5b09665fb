/**
 * Walks in a weighted graph and a shortest-walk search. The planner asks
 * networkx for an A* search from the virtual origin to the virtual
 * destination (app.py, lines 119-122); this module models that call by a
 * Dijkstra search over the same non-negative integer weights, with the
 * result proved to be a cheapest walk, or no walk at all when it fails.
 */
module Paths {
  import opened Wrappers
  import opened Graphs

  /** Every two consecutive vertices of `p` are joined by an edge. */
  ghost predicate Linked(E: EdgeMap, p: seq<Vertex>) {
    forall k :: 0 < k < |p| ==> (p[k - 1], p[k]) in E
  }

  /** `p` is a walk from `s` to `t`. */
  ghost predicate IsWalk(E: EdgeMap, p: seq<Vertex>, s: Vertex, t: Vertex) {
    |p| >= 1 && p[0] == s && p[|p| - 1] == t && Linked(E, p)
  }

  /** The summed weight of the edges of a walk. */
  function Cost(E: EdgeMap, p: seq<Vertex>): int
    requires forall k :: 0 < k < |p| ==> (p[k - 1], p[k]) in E
  {
    if |p| <= 1 then 0 else Cost(E, p[..|p| - 1]) + E[(p[|p| - 2], p[|p| - 1])].weight
  }

  ghost predicate NonNegative(E: EdgeMap) {
    forall e :: e in E ==> E[e].weight >= 0
  }

  /** Every edge joins two vertices of `vs`. */
  ghost predicate ClosedIn(vs: seq<Vertex>, E: EdgeMap) {
    forall u, v :: (u, v) in E ==> u in vs && v in vs
  }

  /** With non-negative weights no walk costs less than nothing. */
  lemma {:induction false} CostNonNegative(E: EdgeMap, p: seq<Vertex>)
    requires NonNegative(E) && Linked(E, p)
    ensures Cost(E, p) >= 0
  {
    if |p| > 1 {
      CostNonNegative(E, p[..|p| - 1]);
      assert (p[|p| - 2], p[|p| - 1]) in E;
    }
  }

  /** Extending a walk by one edge adds the edge's weight. */
  lemma CostSnoc(E: EdgeMap, p: seq<Vertex>, v: Vertex)
    requires |p| >= 1 && Linked(E, p) && (p[|p| - 1], v) in E
    ensures Linked(E, p + [v])
    ensures Cost(E, p + [v]) == Cost(E, p) + E[(p[|p| - 1], v)].weight
  {
    assert (p + [v])[..|p|] == p;
  }

  /** A prefix of a walk is a walk, and costs no more when weights are non-negative. */
  lemma {:induction false} CostPrefix(E: EdgeMap, p: seq<Vertex>, j: nat)
    requires NonNegative(E) && Linked(E, p) && 1 <= j <= |p|
    ensures Linked(E, p[..j]) && Cost(E, p[..j]) <= Cost(E, p)
    decreases |p|
  {
    if j < |p| {
      var init := p[..|p| - 1];
      assert init[..j] == p[..j];
      CostPrefix(E, init, j);
      assert (p[|p| - 2], p[|p| - 1]) in E;
    } else {
      assert p[..j] == p;
    }
  }

  // ---------------------------------------------------------------------
  // The search state

  /** `p` is a walk from `s` to `v` of cost `d`, without repeated vertices,
      whose vertices before `v` are all settled. */
  ghost predicate Entry(E: EdgeMap, s: Vertex, done: set<Vertex>, p: seq<Vertex>, v: Vertex, d: int) {
    IsWalk(E, p, s, v) && Cost(E, p) == d && d >= 0 &&
    Distinct(p) && forall k :: 0 <= k < |p| - 1 ==> p[k] in done
  }

  /** Every reached vertex carries the walk that reached it. */
  ghost predicate Tentative(E: EdgeMap, s: Vertex, done: set<Vertex>,
                            dist: map<Vertex, int>, path: map<Vertex, seq<Vertex>>)
  {
    dist.Keys == path.Keys && s in dist && dist[s] == 0 && done <= dist.Keys &&
    forall v :: v in dist ==> Entry(E, s, done, path[v], v, dist[v])
  }

  /** A settled vertex's distance is the cost of a cheapest walk to it. */
  ghost predicate Settled(E: EdgeMap, s: Vertex, done: set<Vertex>, dist: map<Vertex, int>)
    requires done <= dist.Keys
  {
    forall x, q :: x in done && IsWalk(E, q, s, x) ==> dist[x] <= Cost(E, q)
  }

  /** Every edge from a settled to an unsettled vertex has been relaxed. */
  ghost predicate Relaxed(E: EdgeMap, done: set<Vertex>, dist: map<Vertex, int>)
    requires done <= dist.Keys
  {
    forall x, y :: x in done && (x, y) in E && y !in done ==> y in dist && dist[y] <= dist[x] + E[(x, y)].weight
  }

  /** A walk from `s` that ends outside the settled set passes through a
      reached, unsettled vertex no farther than the walk's cost. */
  lemma {:induction false} Frontier(E: EdgeMap, s: Vertex, done: set<Vertex>,
                                    dist: map<Vertex, int>, path: map<Vertex, seq<Vertex>>,
                                    q: seq<Vertex>, x: Vertex)
    requires NonNegative(E)
    requires Tentative(E, s, done, dist, path) && Settled(E, s, done, dist) && Relaxed(E, done, dist)
    requires IsWalk(E, q, s, x) && x !in done
    ensures exists y :: y in dist && y !in done && dist[y] <= Cost(E, q)
    decreases |q|
  {
    CostNonNegative(E, q);
    if |q| == 1 {
      assert s !in done && dist[s] <= Cost(E, q);
    } else {
      var init := q[..|q| - 1];
      var w := q[|q| - 2];
      assert IsWalk(E, init, s, w);
      assert Cost(E, q) == Cost(E, init) + E[(w, x)].weight;
      if w in done {
        assert dist[w] <= Cost(E, init);
        assert x in dist && dist[x] <= dist[w] + E[(w, x)].weight;
      } else {
        Frontier(E, s, done, dist, path, init, w);
      }
    }
  }

  /** Once nothing is left to settle, every vertex a walk from `s` reaches
      has been reached. */
  lemma {:induction false} Reached(E: EdgeMap, s: Vertex, done: set<Vertex>,
                                   dist: map<Vertex, int>, q: seq<Vertex>, x: Vertex)
    requires s in dist && done <= dist.Keys && dist.Keys <= done
    requires Relaxed(E, done, dist)
    ensures IsWalk(E, q, s, x) ==> x in dist
    decreases |q|
  {
    if |q| > 1 && IsWalk(E, q, s, x) {
      var init := q[..|q| - 1];
      assert IsWalk(E, init, s, q[|q| - 2]);
      Reached(E, s, done, dist, init, q[|q| - 2]);
    }
  }

  /** The reached, unsettled vertex of least distance. */
  method PickMin(dist: map<Vertex, int>, frontier: set<Vertex>) returns (u: Vertex)
    requires frontier != {} && frontier <= dist.Keys
    ensures u in frontier && forall y :: y in frontier ==> dist[u] <= dist[y]
  {
    u :| u in frontier;
    var rest := frontier - {u};
    while rest != {}
      invariant rest <= frontier && u in frontier
      invariant forall y :: y in frontier - rest ==> dist[u] <= dist[y]
      decreases |rest|
    {
      var y :| y in rest;
      if dist[y] < dist[u] {
        u := y;
      }
      rest := rest - {y};
    }
  }

  /** Settling a reached vertex keeps every reached vertex's walk valid. */
  lemma TentativeGrow(E: EdgeMap, s: Vertex, done: set<Vertex>,
                      dist: map<Vertex, int>, path: map<Vertex, seq<Vertex>>, u: Vertex)
    requires Tentative(E, s, done, dist, path) && u in dist
    ensures Tentative(E, s, done + {u}, dist, path)
  {
    forall v | v in dist ensures Entry(E, s, done + {u}, path[v], v, dist[v]) {
      assert Entry(E, s, done, path[v], v, dist[v]);
    }
  }

  /** Routing `v` through the settled `u` gives it a walk `Entry` accepts. */
  lemma EntryExtend(E: EdgeMap, s: Vertex, done: set<Vertex>, p: seq<Vertex>, u: Vertex, d: int, v: Vertex)
    requires NonNegative(E) && Entry(E, s, done, p, u, d)
    requires u in done && v !in done && (u, v) in E
    ensures Entry(E, s, done, p + [v], v, d + E[(u, v)].weight)
  {
    CostSnoc(E, p, v);
    assert forall k :: 0 <= k < |p| ==> p[k] in done;
  }

  /** The state of the relaxation of the edges out of `u` once the
      candidates `seen` were visited. */
  ghost predicate Relaxing(E: EdgeMap, s: Vertex, done: set<Vertex>, u: Vertex, dist0: map<Vertex, int>,
                           dist: map<Vertex, int>, path: map<Vertex, seq<Vertex>>, vs: seq<Vertex>, seen: set<Vertex>)
  {
    Tentative(E, s, done, dist, path) && Lowered(done, u, dist0, dist, vs) && Visited(E, done, u, dist, seen)
  }

  /** Settled distances are kept, the others only fall, and every new key is a candidate. */
  ghost predicate Lowered(done: set<Vertex>, u: Vertex, dist0: map<Vertex, int>, dist: map<Vertex, int>, vs: seq<Vertex>) {
    u in done && done <= dist0.Keys && done <= dist.Keys &&
    (forall x :: x in done ==> dist[x] == dist0[x]) &&
    (forall y :: y in dist0 ==> y in dist && dist[y] <= dist0[y]) &&
    (forall v :: v in dist ==> v in dist0 || v in vs)
  }

  /** The edges from `u` to the visited candidates are relaxed. */
  ghost predicate Visited(E: EdgeMap, done: set<Vertex>, u: Vertex, dist: map<Vertex, int>, seen: set<Vertex>)
    requires u in dist
  {
    forall y :: y in seen && (u, y) in E && y !in done ==> y in dist && dist[y] <= dist[u] + E[(u, y)].weight
  }

  /** Whether visiting `v` improves its distance. */
  ghost predicate Improves(E: EdgeMap, done: set<Vertex>, u: Vertex, v: Vertex, dist: map<Vertex, int>)
    requires u in dist
  {
    (u, v) in E && v !in done && (v !in dist || dist[u] + E[(u, v)].weight < dist[v])
  }

  /** Visiting a candidate whose distance improves keeps `Relaxing`. */
  lemma RelaxImprove(E: EdgeMap, s: Vertex, done: set<Vertex>, u: Vertex, dist0: map<Vertex, int>,
                     dist: map<Vertex, int>, path: map<Vertex, seq<Vertex>>, vs: seq<Vertex>, seen: set<Vertex>,
                     v: Vertex, dist': map<Vertex, int>, path': map<Vertex, seq<Vertex>>)
    requires NonNegative(E) && v in vs
    requires Relaxing(E, s, done, u, dist0, dist, path, vs, seen)
    requires Improves(E, done, u, v, dist)
    requires dist' == dist[v := dist[u] + E[(u, v)].weight] && path' == path[v := path[u] + [v]]
    ensures Relaxing(E, s, done, u, dist0, dist', path', vs, seen + {v})
  {
    TentativeImprove(E, s, done, u, dist, path, v, dist', path');
    LoweredImprove(done, u, dist0, dist, vs, v, dist');
    VisitedImprove(E, done, u, dist, seen, v, dist');
  }

  lemma LoweredImprove(done: set<Vertex>, u: Vertex, dist0: map<Vertex, int>, dist: map<Vertex, int>, vs: seq<Vertex>,
                       v: Vertex, dist': map<Vertex, int>)
    requires Lowered(done, u, dist0, dist, vs) && v in vs && v !in done
    requires v in dist' && dist' == dist[v := dist'[v]] && (v in dist ==> dist'[v] < dist[v])
    ensures Lowered(done, u, dist0, dist', vs)
  {
    forall y | y in dist0 ensures y in dist' && dist'[y] <= dist0[y] {
      assert y in dist && dist[y] <= dist0[y];
    }
  }

  lemma VisitedImprove(E: EdgeMap, done: set<Vertex>, u: Vertex, dist: map<Vertex, int>, seen: set<Vertex>,
                       v: Vertex, dist': map<Vertex, int>)
    requires u in done && done <= dist.Keys && Visited(E, done, u, dist, seen)
    requires Improves(E, done, u, v, dist)
    requires dist' == dist[v := dist[u] + E[(u, v)].weight]
    ensures Visited(E, done, u, dist', seen + {v})
  {
    assert u != v && dist'[u] == dist[u];
    forall y | y in seen + {v} && (u, y) in E && y !in done
      ensures y in dist' && dist'[y] <= dist'[u] + E[(u, y)].weight
    {
      if y != v {
        assert y in seen && dist'[y] == dist[y];
      }
    }
  }

  /** Routing an improved `v` through the settled `u` keeps `Tentative`. */
  lemma TentativeImprove(E: EdgeMap, s: Vertex, done: set<Vertex>, u: Vertex,
                         dist: map<Vertex, int>, path: map<Vertex, seq<Vertex>>, v: Vertex,
                         dist': map<Vertex, int>, path': map<Vertex, seq<Vertex>>)
    requires NonNegative(E) && Tentative(E, s, done, dist, path) && u in done
    requires Improves(E, done, u, v, dist)
    requires dist' == dist[v := dist[u] + E[(u, v)].weight] && path' == path[v := path[u] + [v]]
    ensures Tentative(E, s, done, dist', path')
  {
    assert Entry(E, s, done, path[u], u, dist[u]);
    EntryExtend(E, s, done, path[u], u, dist[u], v);
    assert v != s;
    forall x | x in dist' ensures Entry(E, s, done, path'[x], x, dist'[x]) {
      if x != v {
        assert path'[x] == path[x] && dist'[x] == dist[x];
      }
    }
  }

  /** Visiting any other candidate keeps `Relaxing` without a change. */
  lemma RelaxKeep(E: EdgeMap, s: Vertex, done: set<Vertex>, u: Vertex, dist0: map<Vertex, int>,
                  dist: map<Vertex, int>, path: map<Vertex, seq<Vertex>>, vs: seq<Vertex>, seen: set<Vertex>, v: Vertex)
    requires Relaxing(E, s, done, u, dist0, dist, path, vs, seen)
    requires !Improves(E, done, u, v, dist)
    ensures Relaxing(E, s, done, u, dist0, dist, path, vs, seen + {v})
  {
  }

  /** Relaxes every edge out of the newly settled vertex `u`, visiting the
      candidate neighbours in the order of `vs`. */
  method RelaxFrom(vs: seq<Vertex>, E: EdgeMap, s: Vertex, done: set<Vertex>, u: Vertex,
                   dist0: map<Vertex, int>, path0: map<Vertex, seq<Vertex>>)
    returns (dist: map<Vertex, int>, path: map<Vertex, seq<Vertex>>)
    requires NonNegative(E) && ClosedIn(vs, E)
    requires u in done
    requires Tentative(E, s, done, dist0, path0)
    requires Relaxed(E, done - {u}, dist0)
    ensures Tentative(E, s, done, dist, path) && Relaxed(E, done, dist)
    ensures forall x :: x in done ==> dist[x] == dist0[x]
    ensures forall v :: v in dist ==> v in dist0 || v in vs
  {
    dist, path := dist0, path0;
    ghost var seen: set<Vertex> := {};
    for k := 0 to |vs|
      invariant Relaxing(E, s, done, u, dist0, dist, path, vs, seen)
      invariant Covers(vs, k, seen)
    {
      var v := vs[k];
      if (u, v) in E && v !in done && (v !in dist || dist[u] + E[(u, v)].weight < dist[v]) {
        var dist', path' := dist[v := dist[u] + E[(u, v)].weight], path[v := path[u] + [v]];
        RelaxImprove(E, s, done, u, dist0, dist, path, vs, seen, v, dist', path');
        dist, path := dist', path';
      } else {
        RelaxKeep(E, s, done, u, dist0, dist, path, vs, seen, v);
      }
      CoversStep(vs, k, seen);
      seen := seen + {v};
    }
    RelaxComplete(vs, E, s, done, u, dist0, dist, path, seen);
  }

  /** The first `k` candidates were visited. */
  ghost predicate Covers(vs: seq<Vertex>, k: nat, seen: set<Vertex>)
    requires k <= |vs|
  {
    forall j :: 0 <= j < k ==> vs[j] in seen
  }

  lemma CoversStep(vs: seq<Vertex>, k: nat, seen: set<Vertex>)
    requires k < |vs| && Covers(vs, k, seen)
    ensures Covers(vs, k + 1, seen + {vs[k]})
  {
  }

  /** Once every candidate was visited, the edges out of `u` are relaxed. */
  lemma RelaxComplete(vs: seq<Vertex>, E: EdgeMap, s: Vertex, done: set<Vertex>, u: Vertex,
                      dist0: map<Vertex, int>, dist: map<Vertex, int>, path: map<Vertex, seq<Vertex>>, seen: set<Vertex>)
    requires Relaxing(E, s, done, u, dist0, dist, path, vs, seen) && done <= dist.Keys
    requires ClosedIn(vs, E) && Relaxed(E, done - {u}, dist0)
    requires Covers(vs, |vs|, seen)
    ensures Relaxed(E, done, dist)
  {
    forall y | (u, y) in E && y !in done ensures y in seen {
      var j :| 0 <= j < |vs| && vs[j] == y;
    }
    RelaxedAfter(E, done, u, dist0, dist);
  }

  /** Distances only fall for unsettled vertices, so relaxed edges stay relaxed. */
  lemma RelaxedAfter(E: EdgeMap, done: set<Vertex>, u: Vertex, dist0: map<Vertex, int>, dist: map<Vertex, int>)
    requires u in done && done <= dist0.Keys && done <= dist.Keys
    requires Relaxed(E, done - {u}, dist0)
    requires forall x :: x in done ==> dist[x] == dist0[x]
    requires forall y :: y in dist0 ==> y in dist && dist[y] <= dist0[y]
    requires forall y :: (u, y) in E && y !in done ==> y in dist && dist[y] <= dist[u] + E[(u, y)].weight
    ensures Relaxed(E, done, dist)
  {
  }

  /** The state the search keeps between rounds, over the vertex set `V`. */
  ghost predicate Search(E: EdgeMap, s: Vertex, V: set<Vertex>, done: set<Vertex>,
                         dist: map<Vertex, int>, path: map<Vertex, seq<Vertex>>)
  {
    done <= V && dist.Keys <= V &&
    Tentative(E, s, done, dist, path) && Settled(E, s, done, dist) && Relaxed(E, done, dist)
  }

  /** Relaxing keeps the search state: settled distances do not change and
      only vertices of `vs` are reached. */
  lemma SearchAfter(E: EdgeMap, s: Vertex, vs: seq<Vertex>, V: set<Vertex>, done: set<Vertex>,
                    dist0: map<Vertex, int>, dist: map<Vertex, int>, path: map<Vertex, seq<Vertex>>)
    requires (forall v :: v in vs ==> v in V) && done <= V && dist0.Keys <= V
    requires done <= dist0.Keys && Settled(E, s, done, dist0)
    requires Tentative(E, s, done, dist, path) && Relaxed(E, done, dist)
    requires forall x :: x in done ==> dist[x] == dist0[x]
    requires forall v :: v in dist ==> v in dist0 || v in vs
    ensures Search(E, s, V, done, dist, path)
  {
  }

  /** Dijkstra's search from `s` to `t` over the vertices `vs`. It returns a
      cheapest walk without repeated vertices, or `None` exactly when no walk
      from `s` reaches `t`. */
  method Dijkstra(vs: seq<Vertex>, E: EdgeMap, s: Vertex, t: Vertex) returns (r: Option<seq<Vertex>>)
    requires s in vs && ClosedIn(vs, E) && NonNegative(E)
    ensures r.None? <==> forall q :: !IsWalk(E, q, s, t)
    ensures r.Some? ==> IsWalk(E, r.value, s, t) && Distinct(r.value)
    ensures r.Some? ==> forall q :: IsWalk(E, q, s, t) ==> Cost(E, r.value) <= Cost(E, q)
  {
    var dist: map<Vertex, int> := map[s := 0];
    var path: map<Vertex, seq<Vertex>> := map[s := [s]];
    var done: set<Vertex> := {};
    ghost var V := set v | v in vs;
    assert Entry(E, s, done, [s], s, 0);
    while true
      invariant Search(E, s, V, done, dist, path) && t !in done
      decreases V - done
    {
      var frontier := dist.Keys - done;
      if frontier == {} {
        forall q ensures IsWalk(E, q, s, t) ==> t in dist {
          Reached(E, s, done, dist, q, t);
        }
        return None;
      }
      var u := PickMin(dist, frontier);
      Settle(E, s, done, dist, path, u);
      if u == t {
        assert Entry(E, s, done, path[t], t, dist[t]);
        return Some(path[t]);
      }
      assert V - (done + {u}) < V - done by {
        assert u in V - done;
      }
      TentativeGrow(E, s, done, dist, path, u);
      assert (done + {u}) - {u} == done;
      done := done + {u};
      ghost var dist0 := dist;
      dist, path := RelaxFrom(vs, E, s, done, u, dist, path);
      SearchAfter(E, s, vs, V, done, dist0, dist, path);
    }
  }

  /** The reached, unsettled vertex of least distance may be settled. */
  lemma Settle(E: EdgeMap, s: Vertex, done: set<Vertex>,
               dist: map<Vertex, int>, path: map<Vertex, seq<Vertex>>, u: Vertex)
    requires NonNegative(E)
    requires Tentative(E, s, done, dist, path) && Settled(E, s, done, dist) && Relaxed(E, done, dist)
    requires u in dist && u !in done && forall y :: y in dist && y !in done ==> dist[u] <= dist[y]
    ensures Settled(E, s, done + {u}, dist)
  {
    forall q | IsWalk(E, q, s, u) ensures dist[u] <= Cost(E, q) {
      Frontier(E, s, done, dist, path, q, u);
    }
  }
}
