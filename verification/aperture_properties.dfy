/**
 * Properties relating the aperture samplers to each other and to the geometry they
 * are meant to describe.
 */
module ApertureProperties {
  import opened Wrappers
  import opened Grids
  import opened Trig
  import opened Apertures

  // ---------------------------------------------------------------------------
  // Circle: the Cartesian and the polar paths

  /** `r` is the distance of the Cartesian point `c` from the origin: `r = sqrt(x^2 + y^2)`. */
  predicate IsRadiusOf(r: real, c: Point)
  {
    r >= 0.0 && r * r == c.u * c.u + c.v * c.v
  }

  /** Squaring preserves and reflects order on non-negative reals. */
  lemma SquareMonotone(a: real, b: real)
    requires a >= 0.0 && b >= 0.0
    ensures a <= b <==> a * a <= b * b
  {
    if a <= b {
      SquareLe(a, b);
    } else {
      SquareLt(b, a);
    }
  }

  /** `0 <= a <= b` implies `a^2 <= b^2`. */
  lemma SquareLe(a: real, b: real)
    requires 0.0 <= a <= b
    ensures a * a <= b * b
  {
    var x, y, z := a * a, a * b, b * b;
    assert x <= y <= z;
  }

  /** `0 <= a < b` implies `a^2 < b^2`. */
  lemma SquareLt(a: real, b: real)
    requires 0.0 <= a < b
    ensures a * a < b * b
  {
    var x, y, z := a * a, a * b, b * b;
    assert x <= y < z;
  }

  /**
   * For a non-negative diameter the two paths of the circle sampler agree at every
   * point: sampling a polar grid by its native radius gives the same values as sampling
   * its Cartesian conversion by `x^2 + y^2 <= (d/2)^2`, provided each native radius is
   * the distance of the converted point from the origin.
   */
  lemma CircularPathsAgree(diameter: real, g: Grid)
    requires g.system == Polar
    requires diameter >= 0.0
    requires forall i :: 0 <= i < |g.points| ==> IsRadiusOf(g.points[i].u, g.toCartesian(g.points[i]))
    ensures SampleCircular(diameter, g).values == SampleCircular(diameter, AsCartesian(g)).values
  {
    var polar := SampleCircular(diameter, g).values;
    var cart := SampleCircular(diameter, AsCartesian(g)).values;
    var c := AsCartesian(g);
    forall i | 0 <= i < |polar|
      ensures polar[i] == cart[i]
    {
      var p := c.points[i];
      SquareMonotone(g.points[i].u, diameter / 2.0);
      assert g.points[i].u <= diameter / 2.0 <==> InDiscSquared(diameter, p.u, p.v);
    }
  }

  /**
   * For a negative diameter the paths disagree. The polar path compares a non-negative
   * radius with a negative half-diameter and so gives `0.0` at every point, while the
   * Cartesian path squares the half-diameter and so samples the disc of diameter `-d`.
   * In particular a point at the origin gets `0.0` on one path and `1.0` on the other.
   */
  lemma CircularPathsDifferForNegativeDiameter(diameter: real, g: Grid, i: int)
    requires g.system == Polar
    requires diameter < 0.0
    requires forall j :: 0 <= j < |g.points| ==> g.points[j].u >= 0.0
    requires 0 <= i < |g.points| && g.toCartesian(g.points[i]) == Origin
    ensures forall j :: 0 <= j < |g.points| ==> SampleCircular(diameter, g).values[j] == 0.0
    ensures SampleCircular(diameter, AsCartesian(g)).values == SampleCircular(-diameter, AsCartesian(g)).values
    ensures SampleCircular(diameter, g).values[i] == 0.0
    ensures SampleCircular(diameter, AsCartesian(g)).values[i] == 1.0
  {
    var c := AsCartesian(g);
    forall j | 0 <= j < |c.points|
      ensures SampleCircular(diameter, c).values[j] == SampleCircular(-diameter, c).values[j]
    {
      assert (diameter / 2.0) * (diameter / 2.0) == (-diameter / 2.0) * (-diameter / 2.0);
    }
    assert c.points[i] == Origin;
  }

  // ---------------------------------------------------------------------------
  // Rectangle

  /** The `center` argument of `rectangular_aperture` has no effect on any sampled field. */
  lemma RectangleCenterIgnored(size: RectSize, c1: Option<Point>, c2: Option<Point>, g: Grid)
    ensures Sample(RectangularAperture(size, c1), g) == Sample(RectangularAperture(size, c2), g)
  {
  }

  /**
   * A scalar size is the square of that edge length, and a point is inside iff
   * `|x| <= s/2` and `|y| <= s/2` in Cartesian coordinates.
   */
  lemma RectangleScalarBroadcast(s: real, center: Option<Point>, g: Grid)
    ensures Sample(RectangularAperture(Scalar(s), center), g) == Sample(RectangularAperture(PerAxis(s, s), center), g)
    ensures forall i :: 0 <= i < g.Size() ==>
      (Sample(RectangularAperture(Scalar(s), center), g).values[i] == 1.0 <==>
        Abs(AsCartesian(g).points[i].u) <= s / 2.0 && Abs(AsCartesian(g).points[i].v) <= s / 2.0)
  {
  }

  // ---------------------------------------------------------------------------
  // Regular polygon

  /** `hexagonal_aperture(D)` samples every grid exactly as `regular_polygon_aperture(6, D)`. */
  lemma HexagonIsSixSidedPolygon(t: Trig, circumDiameter: real, g: Grid)
    ensures RegularPolygonAperture(t, 6, circumDiameter).Success?
    ensures Sample(HexagonalAperture(t, circumDiameter).value, g)
         == Sample(RegularPolygonAperture(t, 6, circumDiameter).value, g)
  {
  }

  /**
   * The even-branch condition written out: `|cos(theta_k) x + sin(theta_k) y| < a`
   * (strict) for every `k < n/2`, with `theta_k = k pi / (n/2)`.
   */
  ghost predicate EvenBranchHolds(t: Trig, n: int, a: real, q: Point)
    requires n >= 2
  {
    forall k :: 0 <= k < n / 2 ==> EvenEdgeTest(t, EvenTheta(t.pi, n, k), a, q)
  }

  /**
   * The odd-branch condition written out: `|sin(theta_k) x| - cos(theta_k) y < a`
   * for every `k <= n/2` (integer division), with `theta_k = k (n - 2) pi / (n / 2)`
   * (real division).
   */
  ghost predicate OddBranchHolds(t: Trig, n: int, a: real, q: Point)
    requires n >= 1
  {
    forall k :: 0 <= k <= n / 2 ==> OddEdgeTest(t, OddTheta(t.pi, n, k), a, q)
  }

  /** A point's sampled value is `1.0` iff it lies in the prefilter rectangle and passes every edge test. */
  lemma PolygonValueAt(p: Polygon, g: Grid, i: int)
    requires 0 <= i < g.Size()
    ensures SamplePolygon(p, g).values[i] == 1.0
        <==> InPrefilter(p, AsCartesian(g).points[i]) && PassesAllEdges(p, AsCartesian(g).points[i])
  {
  }

  /** For even `n`, the edge tests are `|cos(theta_k) x + sin(theta_k) y| < apothem` for `k < n/2`. */
  lemma EvenEdges(p: Polygon, q: Point, t: Trig, n: int, a: real)
    requires p.numSides == n && p.trig == t && p.apothem == a
    requires n >= 3 && n % 2 == 0
    requires p.thetas == PolygonThetas(t, n)
    ensures PassesAllEdges(p, q) <==> EvenBranchHolds(t, n, a, q)
  {
    if PassesAllEdges(p, q) {
      forall k | 0 <= k < n / 2
        ensures EvenEdgeTest(t, EvenTheta(t.pi, n, k), a, q)
      {
        EvenEdgeAt(p, q, t, n, a, k);
      }
    }
    if EvenBranchHolds(t, n, a, q) {
      forall k | 0 <= k < |p.thetas|
        ensures PassesEdge(p, p.thetas[k], q)
      {
        EvenEdgeAt(p, q, t, n, a, k);
      }
    }
  }

  /** The even-branch test of the `k`-th captured angle, written out. */
  lemma EvenEdgeAt(p: Polygon, q: Point, t: Trig, n: int, a: real, k: int)
    requires p.numSides == n && p.trig == t && p.apothem == a
    requires n >= 3 && n % 2 == 0
    requires p.thetas == PolygonThetas(t, n)
    requires 0 <= k < n / 2
    ensures k < |p.thetas|
    ensures PassesEdge(p, p.thetas[k], q)
      <==> EvenEdgeTest(t, EvenTheta(t.pi, n, k), a, q)
  {
    assert p.thetas[k] == EvenTheta(t.pi, n, k);
  }

  /** For odd `n`, the edge tests are `|sin(theta_k) x| - cos(theta_k) y < apothem` for `k <= n/2`. */
  lemma OddEdges(p: Polygon, q: Point, t: Trig, n: int, a: real)
    requires p.numSides == n && p.trig == t && p.apothem == a
    requires n >= 3 && n % 2 != 0
    requires p.thetas == PolygonThetas(t, n)
    ensures PassesAllEdges(p, q) <==> OddBranchHolds(t, n, a, q)
  {
    if PassesAllEdges(p, q) {
      forall k | 0 <= k <= n / 2
        ensures OddEdgeTest(t, OddTheta(t.pi, n, k), a, q)
      {
        OddEdgeAt(p, q, t, n, a, k);
      }
    }
    if OddBranchHolds(t, n, a, q) {
      forall k | 0 <= k < |p.thetas|
        ensures PassesEdge(p, p.thetas[k], q)
      {
        OddEdgeAt(p, q, t, n, a, k);
      }
    }
  }

  /** The odd-branch test of the `k`-th captured angle, written out. */
  lemma OddEdgeAt(p: Polygon, q: Point, t: Trig, n: int, a: real, k: int)
    requires p.numSides == n && p.trig == t && p.apothem == a
    requires n >= 3 && n % 2 != 0
    requires p.thetas == PolygonThetas(t, n)
    requires 0 <= k <= n / 2
    ensures k < |p.thetas|
    ensures PassesEdge(p, p.thetas[k], q)
      <==> OddEdgeTest(t, OddTheta(t.pi, n, k), a, q)
  {
    assert p.thetas[k] == OddTheta(t.pi, n, k);
  }

  /** `EvenPolygonSample` for a polygon given by its captured parameters. */
  lemma EvenPolygonAt(p: Polygon, t: Trig, n: int, circumDiameter: real, a: real, g: Grid, i: int)
    requires n >= 3 && n % 2 == 0
    requires 0 <= i < g.Size()
    requires p.thetas == PolygonThetas(t, n) && p.trig == t && p.numSides == n
    requires p.apothem == a && p.circumDiameter == circumDiameter
    ensures
      var q := AsCartesian(g).points[i];
      Sample(RegularPolygon(p), g).values[i] == 1.0
      <==>
      && Abs(q.u) <= circumDiameter * 4.0 / 2.0
      && Abs(q.v) <= circumDiameter * 4.0 / 2.0
      && EvenBranchHolds(t, n, a, q)
  {
    var q := AsCartesian(g).points[i];
    var v := Sample(RegularPolygon(p), g).values[i];
    assert v == SamplePolygon(p, g).values[i];
    PolygonValueAt(p, g, i);
    var inBox := Abs(q.u) <= circumDiameter * 4.0 / 2.0 && Abs(q.v) <= circumDiameter * 4.0 / 2.0;
    assert InPrefilter(p, q) == inBox;
    EvenEdges(p, q, t, n, a);
  }

  /** `OddPolygonSample` for a polygon given by its captured parameters. */
  lemma OddPolygonAt(p: Polygon, t: Trig, n: int, circumDiameter: real, a: real, g: Grid, i: int)
    requires n >= 3 && n % 2 != 0
    requires 0 <= i < g.Size()
    requires p.thetas == PolygonThetas(t, n) && p.trig == t && p.numSides == n
    requires p.apothem == a && p.circumDiameter == circumDiameter
    ensures
      var q := AsCartesian(g).points[i];
      Sample(RegularPolygon(p), g).values[i] == 1.0
      <==>
      && Abs(q.u) <= circumDiameter * 4.0 / 2.0
      && Abs(q.v) <= circumDiameter * 4.0 / 2.0
      && OddBranchHolds(t, n, a, q)
  {
    var q := AsCartesian(g).points[i];
    var v := Sample(RegularPolygon(p), g).values[i];
    assert v == SamplePolygon(p, g).values[i];
    PolygonValueAt(p, g, i);
    var inBox := Abs(q.u) <= circumDiameter * 4.0 / 2.0 && Abs(q.v) <= circumDiameter * 4.0 / 2.0;
    assert InPrefilter(p, q) == inBox;
    OddEdges(p, q, t, n, a);
  }

  /**
   * End to end for even `n`: a point is inside iff `|x| <= 2D`, `|y| <= 2D` and, for
   * every `k < n/2`, `|cos(theta_k) x + sin(theta_k) y| < cos(pi/n) D / 2` (strict),
   * with `theta_k = k pi / (n/2)`.
   */
  lemma EvenPolygonSample(t: Trig, n: int, circumDiameter: real, g: Grid, i: int)
    requires n >= 3 && n % 2 == 0
    requires 0 <= i < g.Size()
    ensures RegularPolygonAperture(t, n, circumDiameter).Success?
    ensures
      var q := AsCartesian(g).points[i];
      var a := CosPiOver(t, n) * circumDiameter / 2.0;
      Sample(RegularPolygonAperture(t, n, circumDiameter).value, g).values[i] == 1.0
      <==>
      && Abs(q.u) <= circumDiameter * 4.0 / 2.0
      && Abs(q.v) <= circumDiameter * 4.0 / 2.0
      && EvenBranchHolds(t, n, a, q)
  {
    var p := RegularPolygonAperture(t, n, circumDiameter).value.polygon;
    EvenPolygonAt(p, t, n, circumDiameter, CosPiOver(t, n) * circumDiameter / 2.0, g, i);
  }

  /**
   * End to end for odd `n`: a point is inside iff `|x| <= 2D`, `|y| <= 2D` and, for
   * every `k <= n/2` (integer division), `|sin(theta_k) x| - cos(theta_k) y < cos(pi/n) D / 2`
   * with `theta_k = k (n - 2) pi / (n / 2)` (real division).
   */
  lemma OddPolygonSample(t: Trig, n: int, circumDiameter: real, g: Grid, i: int)
    requires n >= 3 && n % 2 != 0
    requires 0 <= i < g.Size()
    ensures RegularPolygonAperture(t, n, circumDiameter).Success?
    ensures
      var q := AsCartesian(g).points[i];
      var a := CosPiOver(t, n) * circumDiameter / 2.0;
      Sample(RegularPolygonAperture(t, n, circumDiameter).value, g).values[i] == 1.0
      <==>
      && Abs(q.u) <= circumDiameter * 4.0 / 2.0
      && Abs(q.v) <= circumDiameter * 4.0 / 2.0
      && OddBranchHolds(t, n, a, q)
  {
    var p := RegularPolygonAperture(t, n, circumDiameter).value.polygon;
    OddPolygonAt(p, t, n, circumDiameter, CosPiOver(t, n) * circumDiameter / 2.0, g, i);
  }

  /**
   * With `cos(pi/n) > 0` and a positive circumscribed diameter, a grid point whose
   * Cartesian conversion is the origin is inside the polygon, in both branches.
   */
  lemma PolygonContainsOrigin(t: Trig, n: int, circumDiameter: real, g: Grid, i: int)
    requires CosPositive(t)
    requires n >= 3 && circumDiameter > 0.0
    requires 0 <= i < g.Size() && AsCartesian(g).points[i] == Origin
    ensures RegularPolygonAperture(t, n, circumDiameter).Success?
    ensures Sample(RegularPolygonAperture(t, n, circumDiameter).value, g).values[i] == 1.0
  {
    var p := RegularPolygonAperture(t, n, circumDiameter).value.polygon;
    var q := AsCartesian(g).points[i];
    assert CosPiOver(t, n) > 0.0;
    assert p.apothem > 0.0 by {
      PositiveProduct(CosPiOver(t, n), circumDiameter);
    }
    forall k | 0 <= k < |p.thetas|
      ensures PassesEdge(p, p.thetas[k], q)
    {
      var th := p.thetas[k];
      assert t.cos(th) * q.u + t.sin(th) * q.v == 0.0;
      assert t.sin(th) * q.u == 0.0 && -t.cos(th) * q.v == 0.0;
    }
    assert InPrefilter(p, q);
  }

  /**
   * `hexagonal_aperture(2.0)` has circumradius 1 and a vertex at angle `pi/6`. A grid point
   * converting to a point beyond that vertex, at radius `1 + e` along the same direction,
   * is outside: the edge test of angle 0, `|x| < cos(pi/6)`, fails there.
   */
  lemma HexagonExcludesBeyondVertex(t: Trig, e: real, g: Grid, i: int)
    requires CosPositive(t) && t.cos(0.0) == 1.0 && t.sin(0.0) == 0.0
    requires e > 0.0
    requires 0 <= i < g.Size()
    requires AsCartesian(g).points[i] == Point(CosPiOver(t, 6) * (1.0 + e), t.sin(t.pi / 6.0) * (1.0 + e))
    ensures Sample(HexagonalAperture(t, 2.0).value, g).values[i] == 0.0
  {
    var p := HexagonalAperture(t, 2.0).value.polygon;
    var q := AsCartesian(g).points[i];
    var c := CosPiOver(t, 6);
    assert c > 0.0;
    assert p.apothem == c;
    assert p.thetas[0] == 0.0;
    assert t.cos(0.0) * q.u + t.sin(0.0) * q.v == c * (1.0 + e);
    assert c * (1.0 + e) > c;
    assert !PassesEdge(p, p.thetas[0], q);
    PolygonValueAt(p, g, i);
  }

  /** The product of two positive reals, halved, is positive. */
  lemma PositiveProduct(a: real, b: real)
    requires a > 0.0 && b > 0.0
    ensures a * b / 2.0 > 0.0
  {
  }
}
