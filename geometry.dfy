/**
 * Distances on the map image (app.py, lines 74-86): the pixel distance of
 * two points, the walking time it stands for, and the position of a station
 * as the mean of the positions of its nodes.
 */
module Geometry {
  import opened Graphs
  import opened Network

  const WALK_SPEED: real := 20.0

  /** `h` behaves as `math.hypot`: its value is the non-negative square root
      of the sum of the squares of its arguments. */
  ghost predicate IsHypot(h: (real, real) -> real) {
    forall x: real, y: real :: h(x, y) >= 0.0 && h(x, y) * h(x, y) == x * x + y * y
  }

  function PixelDistance(a: Point, b: Point, hypot: (real, real) -> real): real {
    hypot(a.0 - b.0, a.1 - b.1)
  }

  function WalkingTime(a: Point, b: Point, hypot: (real, real) -> real): real {
    PixelDistance(a, b, hypot) / WALK_SPEED
  }

  /** A non-negative number is determined by its square. */
  lemma SquareRootUnique(x: real, y: real)
    requires x >= 0.0 && y >= 0.0 && x * x == y * y
    ensures x == y
  {
    assert (x - y) * (x + y) == 0.0;
    assert x - y == 0.0 || x + y == 0.0;
  }

  /** The pixel distance is never negative, the same in both directions,
      and zero from a point to itself. */
  lemma PixelDistanceMetric(a: Point, b: Point, hypot: (real, real) -> real)
    requires IsHypot(hypot)
    ensures PixelDistance(a, b, hypot) >= 0.0
    ensures PixelDistance(a, b, hypot) == PixelDistance(b, a, hypot)
    ensures a == b ==> PixelDistance(a, b, hypot) == 0.0
  {
    var d, e := PixelDistance(a, b, hypot), PixelDistance(b, a, hypot);
    var dx, dy := a.0 - b.0, a.1 - b.1;
    assert d * d == dx * dx + dy * dy;
    assert e * e == (-dx) * (-dx) + (-dy) * (-dy);
    SquareRootUnique(d, e);
    if a == b {
      assert d * d == 0.0 * 0.0;
      SquareRootUnique(d, 0.0);
    }
  }

  /** The walking time between two points is the time to cover their
      straight-line distance at `WALK_SPEED` pixels per minute, the same in
      both directions and zero from a point to itself. */
  lemma WalkingTimeFacts(a: Point, b: Point, hypot: (real, real) -> real)
    requires IsHypot(hypot)
    ensures WalkingTime(a, b, hypot) >= 0.0
    ensures WalkingTime(a, b, hypot) == WalkingTime(b, a, hypot)
    ensures a == b ==> WalkingTime(a, b, hypot) == 0.0
    ensures var t := WalkingTime(a, b, hypot) * WALK_SPEED;
            t * t == (a.0 - b.0) * (a.0 - b.0) + (a.1 - b.1) * (a.1 - b.1)
  {
    PixelDistanceMetric(a, b, hypot);
  }

  // ---------------------------------------------------------------------
  // Station positions (app.py, lines 80-86)

  /** The positions of the nodes `ns`, in order. */
  function Positions(pos: map<Vertex, Point>, ns: seq<Vertex>): (ps: seq<Point>)
    requires forall v :: v in ns ==> v in pos
    ensures |ps| == |ns| && forall i :: 0 <= i < |ns| ==> ps[i] == pos[ns[i]]
  {
    seq(|ns|, i requires 0 <= i < |ns| => pos[ns[i]])
  }

  function Sum(xs: seq<real>): real {
    if xs == [] then 0.0 else Sum(xs[..|xs| - 1]) + xs[|xs| - 1]
  }

  /** The first and the second coordinates of a list of points. */
  function Xs(ps: seq<Point>): (xs: seq<real>)
    ensures |xs| == |ps| && forall i :: 0 <= i < |ps| ==> xs[i] == ps[i].0
  {
    seq(|ps|, i requires 0 <= i < |ps| => ps[i].0)
  }

  function Ys(ps: seq<Point>): (ys: seq<real>)
    ensures |ys| == |ps| && forall i :: 0 <= i < |ps| ==> ys[i] == ps[i].1
  {
    seq(|ps|, i requires 0 <= i < |ps| => ps[i].1)
  }

  /** The arithmetic mean of a non-empty list of points. */
  function Centroid(ps: seq<Point>): Point
    requires |ps| > 0
  {
    (Sum(Xs(ps)) / |ps| as real, Sum(Ys(ps)) / |ps| as real)
  }

  /** `station_pixel_position(st)`: the coordinates of the station's nodes
      summed in index order, then divided by their number. The source
      divides by zero for a station without nodes, so the station must be
      in the index. */
  method StationPixelPosition(g: Graph, index: StationIndex, st: string) returns (p: Point)
    requires IsNetwork(g, index) && st in index
    ensures p == Centroid(Positions(g.pos, index[st]))
  {
    var ns := index[st];
    ghost var ps := Positions(g.pos, ns);
    var xs, ys := 0.0, 0.0;
    for i := 0 to |ns|
      invariant xs == Sum(Xs(ps)[..i]) && ys == Sum(Ys(ps)[..i])
    {
      var (x, y) := g.pos[ns[i]];
      assert Xs(ps)[..i + 1][..i] == Xs(ps)[..i];
      assert Ys(ps)[..i + 1][..i] == Ys(ps)[..i];
      xs, ys := xs + x, ys + y;
    }
    assert Xs(ps)[..|ns|] == Xs(ps) && Ys(ps)[..|ns|] == Ys(ps);
    p := (xs / |ns| as real, ys / |ns| as real);
  }

  /** Bounds on every term bound the sum. */
  lemma {:induction false} SumBounds(xs: seq<real>, lo: real, hi: real)
    requires forall i :: 0 <= i < |xs| ==> lo <= xs[i] <= hi
    ensures |xs| as real * lo <= Sum(xs) <= |xs| as real * hi
  {
    if xs != [] {
      var init := xs[..|xs| - 1];
      assert forall i :: 0 <= i < |init| ==> init[i] == xs[i];
      SumBounds(init, lo, hi);
      assert |xs| as real * lo == |init| as real * lo + lo;
      assert |xs| as real * hi == |init| as real * hi + hi;
    }
  }

  /** The mean of non-empty values lies between bounds on every value. */
  lemma MeanWithin(xs: seq<real>, lo: real, hi: real)
    requires |xs| > 0 && forall i :: 0 <= i < |xs| ==> lo <= xs[i] <= hi
    ensures lo <= Sum(xs) / |xs| as real <= hi
  {
    SumBounds(xs, lo, hi);
    DivideBounds(Sum(xs), |xs| as real, lo, hi);
  }

  /** A station's position lies within the bounding box of its nodes'
      positions; with all nodes at one point it is that point. */
  lemma CentroidWithin(ps: seq<Point>, lo: Point, hi: Point)
    requires |ps| > 0
    requires forall i :: 0 <= i < |ps| ==> lo.0 <= ps[i].0 <= hi.0 && lo.1 <= ps[i].1 <= hi.1
    ensures lo.0 <= Centroid(ps).0 <= hi.0 && lo.1 <= Centroid(ps).1 <= hi.1
  {
    var xs, ys := Xs(ps), Ys(ps);
    MeanWithin(xs, lo.0, hi.0);
    MeanWithin(ys, lo.1, hi.1);
  }

  lemma DivideBounds(s: real, n: real, lo: real, hi: real)
    requires n > 0.0 && n * lo <= s <= n * hi
    ensures lo <= s / n <= hi
  {
    var c := s / n;
    assert c * n == s;
    assert n * (c - lo) >= 0.0 && n * (hi - c) >= 0.0;
  }

  /** A station served by one line sits at the position of its only node. */
  lemma CentroidOfOne(q: Point)
    ensures Centroid([q]) == q
  {
    assert Xs([q]) == [q.0] && Ys([q]) == [q.1];
    assert [q.0][..0] == [] && [q.1][..0] == [];
    assert Sum([q.0]) == q.0 && Sum([q.1]) == q.1;
    assert (q.0 / 1.0, q.1 / 1.0) == q;
  }
}
