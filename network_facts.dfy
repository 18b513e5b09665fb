/**
 * What the construction of app.py, lines 34-68, promises about the network
 * it builds: one node per (station, line), rail edges only between
 * neighbouring stations of a line, n - 1 of them per line, k (k - 1) / 2
 * transfer edges at a station with k nodes, and no pair that is both.
 */
module NetworkFacts {
  import opened Graphs
  import opened Network

  /** Two nodes of the network are joined by an edge. */
  ghost predicate Connected(lines: seq<LineDef>, u: Vertex, v: Vertex) {
    IsRail(lines, u, v) || IsRail(lines, v, u) || IsTransfer(lines, u, v)
  }

  /** A (station, line) position names one node and no other. */
  lemma AtInjective(lines: seq<LineDef>, m: nat, i: nat, n: nat, j: nat)
    requires WellFormed(lines)
    requires m < |lines| && i < |lines[m].stations| && n < |lines| && j < |lines[n].stations|
    ensures At(lines[m], i) == At(lines[n], j) <==> m == n && i == j
  {
    if m != n || i != j {
      AtDistinct(lines, m, i, n, j);
    }
  }

  lemma NameInjective(lines: seq<LineDef>, m: nat, n: nat)
    requires WellFormed(lines) && m < |lines| && n < |lines|
    ensures lines[m].name == lines[n].name <==> m == n
  {
    if m < n {
      assert lines[m].name != lines[n].name;
    } else if n < m {
      assert lines[n].name != lines[m].name;
    }
  }

  /** Every node appears once. */
  lemma {:induction false} VerticesDistinct(lines: seq<LineDef>)
    requires WellFormed(lines)
    ensures Distinct(Vertices(lines))
  {
    if lines != [] {
      var l := |lines| - 1;
      var init := lines[..l];
      assert WellFormed(init) by {
        assert forall a :: 0 <= a < l ==> init[a] == lines[a];
      }
      VerticesDistinct(init);
      var line := lines[l];
      forall p, q | 0 <= p < q < |line.stations| ensures LineVertices(line)[p] != LineVertices(line)[q] {
        AtDistinct(lines, l, p, l, q);
      }
      forall k | 0 <= k < |line.stations| ensures LineVertices(line)[k] !in Vertices(init) {
        NewVertex(lines, l, k);
      }
      DistinctConcat(Vertices(init), LineVertices(line));
    }
  }

  lemma DistinctConcat(a: seq<Vertex>, b: seq<Vertex>)
    requires Distinct(a) && Distinct(b)
    requires forall k :: 0 <= k < |b| ==> b[k] !in a
    ensures Distinct(a + b)
  {
    forall p, q | 0 <= p < q < |a + b| ensures (a + b)[p] != (a + b)[q] {
      if q >= |a| && p < |a| {
        assert (a + b)[q] == b[q - |a|] && (a + b)[p] == a[p];
      }
    }
  }

  /** A rail pair joins two stations of one line; a transfer pair two lines
      at one station; so no pair is both, and neither overwrites the other. */
  lemma RailNotTransfer(lines: seq<LineDef>, u: Vertex, v: Vertex)
    requires IsRail(lines, u, v)
    ensures !IsTransfer(lines, u, v) && !IsTransfer(lines, v, u)
  {
    var m :| 0 <= m < |lines| && LineHop(lines[m], u, v);
    var k :| 0 < k < |lines[m].stations| && Hop(lines[m], k) == (u, v);
    assert LineOf(u) == LineOf(v) == lines[m].name && u.Real? && v.Real?;
  }

  /** Two nodes of one line are joined exactly when their stations are
      neighbours on that line: no rail edge skips a station. */
  lemma SameLineEdges(lines: seq<LineDef>, m: nat, i: nat, j: nat)
    requires WellFormed(lines)
    requires m < |lines| && i < |lines[m].stations| && j < |lines[m].stations|
    ensures Connected(lines, At(lines[m], i), At(lines[m], j)) <==> i + 1 == j || j + 1 == i
  {
    var u, v := At(lines[m], i), At(lines[m], j);
    RailOnLine(lines, m, i, j);
    RailOnLine(lines, m, j, i);
    assert !IsTransfer(lines, u, v) by {
      AtInjective(lines, m, i, m, j);
    }
  }

  /** The ordered rail pair (i, j) of one line exists exactly when j = i + 1. */
  lemma RailOnLine(lines: seq<LineDef>, m: nat, i: nat, j: nat)
    requires WellFormed(lines)
    requires m < |lines| && i < |lines[m].stations| && j < |lines[m].stations|
    ensures IsRail(lines, At(lines[m], i), At(lines[m], j)) <==> i + 1 == j
  {
    var u, v := At(lines[m], i), At(lines[m], j);
    if IsRail(lines, u, v) {
      var n :| 0 <= n < |lines| && LineHop(lines[n], u, v);
      var k :| 0 < k < |lines[n].stations| && Hop(lines[n], k) == (u, v);
      AtInjective(lines, n, k - 1, m, i);
      AtInjective(lines, n, k, m, j);
    }
    if i + 1 == j {
      assert Hop(lines[m], j) == (u, v);
      assert LineHop(lines[m], u, v);
    }
  }

  // ---------------------------------------------------------------------
  // Counting rail edges

  /** The rail pairs of a line, in the order the construction adds them. */
  function Hops(line: LineDef): seq<(Vertex, Vertex)> {
    seq(if |line.stations| == 0 then 0 else |line.stations| - 1,
        k requires 0 <= k && k + 1 < |line.stations| => Hop(line, k + 1))
  }

  /** A line of n stations contributes n - 1 rail edges: `Hops` lists every
      rail pair of the line once, and never both orientations of one. */
  lemma RailCount(line: LineDef)
    requires UniqueStations(line)
    ensures |Hops(line)| == if |line.stations| == 0 then 0 else |line.stations| - 1
    ensures forall u, v :: LineHop(line, u, v) <==> (u, v) in Hops(line)
    ensures Distinct(Hops(line))
    ensures forall u, v :: (u, v) in Hops(line) ==> (v, u) !in Hops(line) && u != v
  {
    var n := |line.stations|;
    var h := Hops(line);
    forall u, v ensures LineHop(line, u, v) <==> (u, v) in h {
      if LineHop(line, u, v) {
        var k :| 0 < k < n && Hop(line, k) == (u, v);
        assert h[k - 1] == (u, v);
      }
    }
    forall p, q | 0 <= p < |h| && 0 <= q < |h| && h[p].0 == h[q].0 ensures p == q {
      StationsInjective(line, p, q);
    }
    forall p, q | 0 <= p < |h| && 0 <= q < |h| ensures h[p].1 != h[q].0 || q == p + 1 {
      StationsInjective(line, p + 1, q);
    }
  }

  lemma StationsInjective(line: LineDef, i: nat, j: nat)
    requires UniqueStations(line) && i < |line.stations| && j < |line.stations|
    ensures At(line, i) == At(line, j) <==> i == j
  {
    if i < j {
      assert line.stations[i].name != line.stations[j].name;
    } else if j < i {
      assert line.stations[j].name != line.stations[i].name;
    }
  }

  // ---------------------------------------------------------------------
  // Counting transfer edges

  /** The transfer pairs of one station's nodes, in the order of the nested
      loops of lines 66-68: (ns[i], ns[j]) for i < j. */
  function Pairs(ns: seq<Vertex>): seq<(Vertex, Vertex)> {
    if |ns| <= 1 then []
    else seq(|ns| - 1, j requires 0 <= j < |ns| - 1 => (ns[0], ns[j + 1])) + Pairs(ns[1..])
  }

  /** k nodes give k (k - 1) / 2 pairs. */
  lemma {:induction false} PairsCount(ns: seq<Vertex>)
    ensures |Pairs(ns)| * 2 == |ns| * (|ns| - 1)
  {
    if |ns| > 1 {
      PairsCount(ns[1..]);
    }
  }

  /** The pairs are exactly the (ns[p], ns[q]) with p < q. */
  lemma {:induction false} PairsIn(ns: seq<Vertex>, u: Vertex, v: Vertex)
    ensures (u, v) in Pairs(ns) <==> exists p, q :: 0 <= p < q < |ns| && ns[p] == u && ns[q] == v
  {
    if |ns| > 1 {
      var tl := ns[1..];
      PairsIn(tl, u, v);
      var head := seq(|ns| - 1, j requires 0 <= j < |ns| - 1 => (ns[0], ns[j + 1]));
      assert Pairs(ns) == head + Pairs(tl);
      if (u, v) in head {
        var j :| 0 <= j < |head| && head[j] == (u, v);
        assert ns[0] == u && ns[j + 1] == v;
      }
      if (u, v) in Pairs(tl) {
        var p, q :| 0 <= p < q < |tl| && tl[p] == u && tl[q] == v;
        assert ns[p + 1] == u && ns[q + 1] == v;
      }
      if exists p, q :: 0 <= p < q < |ns| && ns[p] == u && ns[q] == v {
        var p, q :| 0 <= p < q < |ns| && ns[p] == u && ns[q] == v;
        if p == 0 {
          assert head[q - 1] == (u, v);
        } else {
          assert tl[p - 1] == u && tl[q - 1] == v;
        }
      }
    }
  }

  /** For distinct nodes, every two different nodes form one pair in exactly
      one orientation, and no pair is a self-loop: the transfer edges of a
      station with k nodes are k (k - 1) / 2 undirected edges. */
  lemma TransferCount(ns: seq<Vertex>)
    requires Distinct(ns)
    ensures |Pairs(ns)| * 2 == |ns| * (|ns| - 1)
    ensures forall u, v :: (u, v) in Pairs(ns) || (v, u) in Pairs(ns) <==> u in ns && v in ns && u != v
    ensures forall u, v :: (u, v) in Pairs(ns) ==> (v, u) !in Pairs(ns) && u != v
  {
    PairsCount(ns);
    forall u, v ensures ((u, v) in Pairs(ns) || (v, u) in Pairs(ns) <==> u in ns && v in ns && u != v)
                    && ((u, v) in Pairs(ns) ==> (v, u) !in Pairs(ns) && u != v)
    {
      PairsIn(ns, u, v);
      PairsIn(ns, v, u);
      if u in ns && v in ns && u != v {
        var p :| 0 <= p < |ns| && ns[p] == u;
        var q :| 0 <= q < |ns| && ns[q] == v;
        assert p != q;
      }
      if (u, v) in Pairs(ns) {
        var p, q :| 0 <= p < q < |ns| && ns[p] == u && ns[q] == v;
        forall p', q' | 0 <= p' < q' < |ns| && ns[p'] == v ensures ns[q'] != u {
          assert p' == q && q' != p;
        }
      }
    }
  }

  /** The transfer pairs of the network at station `s` are the pairs of its
      index entry in either orientation. */
  lemma TransfersAtStation(lines: seq<LineDef>, s: string, u: Vertex, v: Vertex)
    requires WellFormed(lines)
    ensures IsTransfer(lines, u, v) && StationOf(u) == s <==>
            (u, v) in Pairs(AtStation(Vertices(lines), s)) || (v, u) in Pairs(AtStation(Vertices(lines), s))
  {
    var ns := AtStation(Vertices(lines), s);
    VerticesDistinct(lines);
    AtStationIn(Vertices(lines), s);
    AtStationDistinct(Vertices(lines), s);
    TransferCount(ns);
  }

  // ---------------------------------------------------------------------
  // The station index

  /** A station's index entry holds one node for each line serving the
      station, and no two of them on the same line. */
  lemma OnePerLine(lines: seq<LineDef>, s: string)
    requires WellFormed(lines)
    ensures forall m :: 0 <= m < |lines| ==>
              (Real(Node(s, lines[m].name)) in AtStation(Vertices(lines), s) <==>
               exists i :: 0 <= i < |lines[m].stations| && lines[m].stations[i].name == s)
    ensures forall v :: v in AtStation(Vertices(lines), s) ==>
              exists m :: 0 <= m < |lines| && v == Real(Node(s, lines[m].name))
    ensures forall p, q :: 0 <= p < q < |AtStation(Vertices(lines), s)| ==>
              LineOf(AtStation(Vertices(lines), s)[p]) != LineOf(AtStation(Vertices(lines), s)[q])
  {
    var ns := AtStation(Vertices(lines), s);
    AtStationIn(Vertices(lines), s);
    VerticesDistinct(lines);
    AtStationDistinct(Vertices(lines), s);
    forall m | 0 <= m < |lines|
      ensures Real(Node(s, lines[m].name)) in ns <==> exists i :: 0 <= i < |lines[m].stations| && lines[m].stations[i].name == s
    {
      InVertices(lines, Real(Node(s, lines[m].name)));
      if Real(Node(s, lines[m].name)) in ns {
        var n, i :| 0 <= n < |lines| && 0 <= i < |lines[n].stations| && At(lines[n], i) == Real(Node(s, lines[m].name));
        NameInjective(lines, n, m);
        assert At(lines[n], i) == At(lines[m], i);
      }
      if exists i :: 0 <= i < |lines[m].stations| && lines[m].stations[i].name == s {
        var i :| 0 <= i < |lines[m].stations| && lines[m].stations[i].name == s;
        assert At(lines[m], i) == Real(Node(s, lines[m].name));
      }
    }
    forall v | v in ns ensures exists m :: 0 <= m < |lines| && v == Real(Node(s, lines[m].name)) {
      InVertices(lines, v);
      var m, i :| 0 <= m < |lines| && 0 <= i < |lines[m].stations| && At(lines[m], i) == v;
    }
    forall p, q | 0 <= p < q < |ns| ensures LineOf(ns[p]) != LineOf(ns[q]) {
      assert ns[p] in ns && ns[q] in ns && ns[p] != ns[q];
      VerticesAreReal(lines);
    }
  }
}
