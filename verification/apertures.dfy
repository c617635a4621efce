/**
 * The aperture factories of `hcipy/aperture/generic.py`. Each factory checks its
 * shape parameters once and returns an `Aperture` value holding what the Python
 * closure captures; `Sample` is that closure applied to a grid. Every sampler maps
 * each grid point to exactly `0.0` or `1.0` and tags the field with the grid it was
 * given, not with the converted one.
 */
module Apertures {
  import opened Wrappers
  import opened Grids
  import opened Trig

  /** The `size` argument of `rectangular_aperture`: one edge length, or one per axis. */
  datatype RectSize = Scalar(edge: real) | PerAxis(width: real, height: real)

  /**
   * What `regular_polygon_aperture` captures: the side count, the circumscribed
   * diameter, the apothem, the symmetry-reduced edge angles and the trigonometry used.
   */
  datatype Polygon = Polygon(numSides: int, circumDiameter: real, apothem: real, thetas: seq<real>, trig: Trig)

  /** A sampling function returned by one of the factories. */
  datatype Aperture =
    | Circular(diameter: real)
    | Rectangular(width: real, height: real)
    | RegularPolygon(polygon: Polygon)

  /** Errors raised when an aperture is constructed (`ValueError`). */
  datatype ApertureError = InvalidArgument(message: string)

  // ---------------------------------------------------------------------------
  // Circle

  /**
   * `circular_aperture(diameter)`: nothing is checked at construction, so every diameter,
   * zero and negative ones included, gives a sampler, and that sampler is the circle test
   * with the given diameter.
   */
  function CircularAperture(diameter: real): (a: Aperture)
    ensures a.Circular? && a.diameter == diameter
    ensures forall g :: Sample(a, g) == SampleCircular(diameter, g)
  {
    Circular(diameter)
  }

  /** The Cartesian test of `circular_aperture`: `x^2 + y^2 <= (d/2)^2`, boundary included. */
  predicate InDiscSquared(diameter: real, x: real, y: real)
  {
    x * x + y * y <= (diameter / 2.0) * (diameter / 2.0)
  }

  /**
   * The circle sampler. On a Cartesian grid a point is inside iff `x^2 + y^2 <= (d/2)^2`;
   * on any other grid iff its native radius is at most `d/2`.
   */
  function SampleCircular(diameter: real, g: Grid): (f: Field)
    ensures f.grid == g && FitsGrid(f)
    ensures forall i :: 0 <= i < |f.values| ==> IsBinary(f.values[i])
    ensures g.system == Cartesian ==>
      forall i :: 0 <= i < |f.values| ==>
        (f.values[i] == 1.0 <==> InDiscSquared(diameter, g.points[i].u, g.points[i].v))
    ensures g.system != Cartesian ==>
      forall i :: 0 <= i < |f.values| ==> (f.values[i] == 1.0 <==> g.points[i].u <= diameter / 2.0)
  {
    if g.system == Cartesian then
      Field(seq(|g.points|, i requires 0 <= i < |g.points| =>
        Indicator(InDiscSquared(diameter, g.points[i].u, g.points[i].v))), g)
    else
      Field(seq(|g.points|, i requires 0 <= i < |g.points| => Indicator(g.points[i].u <= diameter / 2.0)), g)
  }

  // ---------------------------------------------------------------------------
  // Rectangle

  /** `size * np.ones(2)`: a scalar edge length is used for both axes. */
  function Broadcast(size: RectSize): (dim: (real, real))
  {
    match size
    case Scalar(s) => (s, s)
    case PerAxis(w, h) => (w, h)
  }

  /**
   * `rectangular_aperture(size, center)`. The scalar `size` is broadcast to both axes.
   * `center` is accepted and never used.
   */
  function RectangularAperture(size: RectSize, center: Option<Point>): (a: Aperture)
    ensures a.Rectangular?
    ensures size.Scalar? ==> a.width == size.edge && a.height == size.edge
    ensures size.PerAxis? ==> a.width == size.width && a.height == size.height
  {
    var dim := Broadcast(size);
    Rectangular(dim.0, dim.1)
  }

  /** The rectangle test: `|x| <= w/2` and `|y| <= h/2`, boundary included. */
  predicate InRectangle(width: real, height: real, p: Point)
  {
    Abs(p.u) <= width / 2.0 && Abs(p.v) <= height / 2.0
  }

  /** The rectangle sampler: the test runs on the grid converted to Cartesian coordinates. */
  function SampleRectangular(width: real, height: real, g: Grid): (f: Field)
    ensures f.grid == g && FitsGrid(f)
    ensures forall i :: 0 <= i < |f.values| ==> IsBinary(f.values[i])
    ensures forall i :: 0 <= i < |f.values| ==>
      var p := AsCartesian(g).points[i];
      f.values[i] == 1.0 <==> -width / 2.0 <= p.u <= width / 2.0 && -height / 2.0 <= p.v <= height / 2.0
  {
    var c := AsCartesian(g);
    Field(seq(|c.points|, i requires 0 <= i < |c.points| => Indicator(InRectangle(width, height, c.points[i]))), g)
  }

  // ---------------------------------------------------------------------------
  // Regular polygon

  /** The `k`-th even-side angle, `k * pi / int(n/2)`. */
  function EvenTheta(pi: real, n: int, k: int): real
    requires n >= 2
  {
    (k as real) * pi / ((n / 2) as real)
  }

  /**
   * The `k`-th odd-side angle, `k * (n - 2) * pi / (n / 2)`, where the last division
   * is real division (the source enables true division).
   */
  function OddTheta(pi: real, n: int, k: int): real
    requires n >= 1
  {
    (k as real) * ((n - 2) as real) * pi / ((n as real) / 2.0)
  }

  /** The number of symmetry-reduced angles: `int(n/2)` for even `n`, `int(n/2) + 1` for odd `n`. */
  function ThetaCount(n: int): nat
    requires n >= 3
  {
    if n % 2 == 0 then n / 2 else n / 2 + 1
  }

  /** The `k`-th symmetry-reduced angle of an `n`-sided polygon. */
  function Theta(t: Trig, n: int, k: int): real
    requires n >= 3
  {
    if n % 2 == 0 then EvenTheta(t.pi, n, k) else OddTheta(t.pi, n, k)
  }

  /** The step between consecutive symmetry-reduced angles. */
  function ThetaStep(t: Trig, n: int): real
    requires n >= 3
  {
    if n % 2 == 0 then t.pi / ((n / 2) as real) else ((n - 2) as real) * t.pi / ((n as real) / 2.0)
  }

  /** The `k`-th angle is `k * step`: the angles start at zero and are evenly spaced. */
  predicate EvenlySpaced(thetas: seq<real>, step: real)
  {
    forall k :: 0 <= k < |thetas| ==> thetas[k] == (k as real) * step
  }

  /**
   * Which edge normal of the `n`-gon with an edge facing `+x` the `k`-th angle points
   * along, counted in steps of `2 pi / n`: `k` for even `n`, `k (n - 2)` for odd `n`.
   */
  function NormalIndex(n: int, k: int): int
  {
    if n % 2 == 0 then k else k * (n - 2)
  }

  /**
   * The symmetry-reduced edge angles (`thetas` in the source): `int(n/2)` of them for even
   * `n` and `int(n/2) + 1` for odd `n`, starting at zero and evenly spaced by `ThetaStep`.
   * Each is a whole number of `n`-th turns, so it is the normal direction of one edge of
   * the regular `n`-gon whose first edge faces `+x`.
   */
  function PolygonThetas(t: Trig, n: int): (th: seq<real>)
    requires n >= 3
    ensures |th| == ThetaCount(n)
    ensures EvenlySpaced(th, ThetaStep(t, n))
    ensures forall k :: 0 <= k < |th| ==> th[k] == Turns(t, NormalIndex(n, k)) / (n as real)
  {
    var th := seq(ThetaCount(n), k requires 0 <= k < ThetaCount(n) => Theta(t, n, k));
    ThetasSpaced(t, n, th);
    ThetasAsTurns(t, n, th);
    th
  }

  /** `(a * b) / m == a * (b / m)`. */
  lemma MulDiv(a: real, b: real, m: real)
    requires m != 0.0
    ensures (a * b) / m == a * (b / m)
  {
  }

  /**
   * `regular_polygon_aperture(num_sides, circum_diameter)`: fails at construction when
   * `num_sides < 3`; otherwise the apothem is `cos(pi / n) * D / 2`, and the angles are
   * the first `ThetaCount(n)` multiples of `ThetaStep(n)`: `n/2` multiples of `pi / (n/2)`
   * for even `n`, and `n/2 + 1` multiples of `(n - 2) * pi / (n / 2)` for odd `n`.
   */
  function RegularPolygonAperture(t: Trig, numSides: int, circumDiameter: real): (r: Result<Aperture, ApertureError>)
    ensures r.Failure? <==> numSides < 3
    ensures r.Success? ==>
      && r.value.RegularPolygon?
      && r.value.polygon.numSides == numSides
      && r.value.polygon.circumDiameter == circumDiameter
      && r.value.polygon.trig == t
      && r.value.polygon.apothem == CosPiOver(t, numSides) * circumDiameter / 2.0
    ensures r.Success? ==>
      && |r.value.polygon.thetas| == ThetaCount(numSides)
      && EvenlySpaced(r.value.polygon.thetas, ThetaStep(t, numSides))
  {
    if numSides < 3 then
      Failure(InvalidArgument("The number of sides for a regular polygon has to greater or equal to 3."))
    else
      Success(RegularPolygon(Polygon(numSides, circumDiameter, CosPiOver(t, numSides) * circumDiameter / 2.0,
        PolygonThetas(t, numSides), t)))
  }

  /** The `k`-th even-side angle is `k` steps of `pi / int(n/2)`. */
  lemma EvenThetaSpaced(pi: real, n: int, k: int)
    requires n >= 2
    ensures EvenTheta(pi, n, k) == (k as real) * (pi / ((n / 2) as real))
  {
    MulDiv(k as real, pi, (n / 2) as real);
  }

  /** The `k`-th odd-side angle is `k` steps of `(n - 2) * pi / (n / 2)`. */
  lemma OddThetaSpaced(pi: real, n: int, k: int)
    requires n >= 1
    ensures OddTheta(pi, n, k) == (k as real) * (((n - 2) as real) * pi / ((n as real) / 2.0))
  {
    var d := (n - 2) as real;
    assert (k as real) * d * pi == (k as real) * (d * pi);
    MulDiv(k as real, d * pi, (n as real) / 2.0);
  }

  /** Angles given by `Theta` are multiples of `ThetaStep`. */
  lemma ThetasSpaced(t: Trig, n: int, th: seq<real>)
    requires n >= 3
    requires forall k :: 0 <= k < |th| ==> th[k] == Theta(t, n, k)
    ensures EvenlySpaced(th, ThetaStep(t, n))
  {
    forall k | 0 <= k < |th|
      ensures th[k] == (k as real) * ThetaStep(t, n)
    {
      if n % 2 == 0 {
        EvenThetaSpaced(t.pi, n, k);
      } else {
        OddThetaSpaced(t.pi, n, k);
      }
    }
  }

  /** `x p / (n / 2) == 2 p x / n`. */
  lemma HalfDenominator(p: real, x: real, n: real)
    requires n != 0.0
    ensures x * p / (n / 2.0) == 2.0 * p * x / n
  {
    var l := x * p / (n / 2.0);
    var r := 2.0 * p * x / n;
    assert l * (n / 2.0) == x * p;
    assert l * n == 2.0 * (x * p);
    assert r * n == 2.0 * p * x;
    assert (l - r) * n == 0.0;
  }

  /** The even branch's `k`-th angle is `2 pi k / n`. */
  lemma EvenThetaAsTurns(t: Trig, n: int, k: int)
    requires n >= 2 && n % 2 == 0
    ensures EvenTheta(t.pi, n, k) == Turns(t, k) / (n as real)
  {
    assert ((n / 2) as real) == (n as real) / 2.0;
    HalfDenominator(t.pi, k as real, n as real);
  }

  /** The odd branch's `k`-th angle is `2 pi c / n` with the integer `c = k (n - 2)`. */
  lemma OddThetaAsTurns(t: Trig, n: int, k: int)
    requires n >= 1
    ensures OddTheta(t.pi, n, k) == Turns(t, k * (n - 2)) / (n as real)
  {
    var x := (k as real) * ((n - 2) as real);
    assert ((k * (n - 2)) as real) == x;
    HalfDenominator(t.pi, x, n as real);
  }

  /** Angles given by `Theta` are whole numbers of `n`-th turns. */
  lemma ThetasAsTurns(t: Trig, n: int, th: seq<real>)
    requires n >= 3
    requires forall k :: 0 <= k < |th| ==> th[k] == Theta(t, n, k)
    ensures forall k :: 0 <= k < |th| ==> th[k] == Turns(t, NormalIndex(n, k)) / (n as real)
  {
    forall k | 0 <= k < |th|
      ensures th[k] == Turns(t, NormalIndex(n, k)) / (n as real)
    {
      if n % 2 == 0 {
        EvenThetaAsTurns(t, n, k);
      } else {
        OddThetaAsTurns(t, n, k);
      }
    }
  }

  /** `hexagonal_aperture(circum_diameter)`: the six-sided regular polygon. */
  function HexagonalAperture(t: Trig, circumDiameter: real): (r: Result<Aperture, ApertureError>)
    ensures r.Success? && r.value.RegularPolygon?
    ensures r.value.polygon.numSides == 6
    ensures r.value.polygon.thetas == [0.0, t.pi / 3.0, 2.0 * t.pi / 3.0]
    ensures r.value.polygon.apothem == CosPiOver(t, 6) * circumDiameter / 2.0
  {
    var r := RegularPolygonAperture(t, 6, circumDiameter);
    assert r.value.polygon.thetas == [0.0, t.pi / 3.0, 2.0 * t.pi / 3.0] by {
      var th := r.value.polygon.thetas;
      assert |th| == 3 && th[0] == 0.0 && th[1] == t.pi / 3.0 && th[2] == 2.0 * t.pi / 3.0;
    }
    r
  }

  /** The even-branch test of angle `theta`: `|cos(theta) x + sin(theta) y| < a`, strict. */
  predicate EvenEdgeTest(t: Trig, theta: real, a: real, q: Point)
  {
    Abs(t.cos(theta) * q.u + t.sin(theta) * q.v) < a
  }

  /** The odd-branch test of angle `theta`: `|sin(theta) x| - cos(theta) y < a`, strict. */
  predicate OddEdgeTest(t: Trig, theta: real, a: real, q: Point)
  {
    Abs(t.sin(theta) * q.u) + -t.cos(theta) * q.v < a
  }

  /** The half-plane test of one angle; the two parities use different formulas. */
  predicate PassesEdge(p: Polygon, theta: real, q: Point)
  {
    if p.numSides % 2 == 0 then EvenEdgeTest(p.trig, theta, p.apothem, q)
    else OddEdgeTest(p.trig, theta, p.apothem, q)
  }

  /** The point passes the half-plane test of every captured angle. */
  predicate PassesAllEdges(p: Polygon, q: Point)
  {
    forall k :: 0 <= k < |p.thetas| ==> PassesEdge(p, p.thetas[k], q)
  }

  /** The prefilter: the rectangle of edge `4 * circum_diameter`. */
  predicate InPrefilter(p: Polygon, q: Point)
  {
    InRectangle(p.circumDiameter * 4.0, p.circumDiameter * 4.0, q)
  }

  /**
   * The polygon sampler, point by point: a converted point is inside iff it lies in the
   * prefilter rectangle and passes every half-plane test. Whatever the angle tests say,
   * a point with `|x| > 2D` or `|y| > 2D` gets `0.0`.
   */
  function SamplePolygon(p: Polygon, g: Grid): (f: Field)
    ensures f.grid == g && FitsGrid(f)
    ensures forall i :: 0 <= i < |f.values| ==> IsBinary(f.values[i])
    ensures forall i :: 0 <= i < |f.values| ==>
      var q := AsCartesian(g).points[i];
      Abs(q.u) > 2.0 * p.circumDiameter || Abs(q.v) > 2.0 * p.circumDiameter ==> f.values[i] == 0.0
  {
    var c := AsCartesian(g);
    Field(seq(|c.points|, i requires 0 <= i < |c.points| =>
      Indicator(InPrefilter(p, c.points[i]) && PassesAllEdges(p, c.points[i]))), g)
  }

  /**
   * The sampler loop as the source runs it: start from ones, zero the points outside
   * the prefilter mask, then multiply in one half-plane indicator per angle, on the
   * masked points only. It computes exactly the field values of `SamplePolygon`.
   */
  method SamplePolygonLoop(p: Polygon, g: Grid) returns (f: seq<real>)
    ensures |f| == g.Size()
    ensures forall i :: 0 <= i < |f| ==>
      (f[i] == 1.0 <==> InPrefilter(p, AsCartesian(g).points[i]) && PassesAllEdges(p, AsCartesian(g).points[i]))
    ensures forall i :: 0 <= i < |f| ==> IsBinary(f[i])
    ensures f == SamplePolygon(p, g).values
  {
    var c := AsCartesian(g);
    var mask := SampleRectangular(p.circumDiameter * 4.0, p.circumDiameter * 4.0, c);
    var m := seq(|mask.values|, i requires 0 <= i < |mask.values| => mask.values[i] != 0.0);
    f := seq(g.Size(), i => 1.0);
    f := seq(|f|, i requires 0 <= i < |f| => if m[i] then f[i] else 0.0);
    var t := 0;
    while t < |p.thetas|
      invariant 0 <= t <= |p.thetas|
      invariant |f| == |c.points|
      invariant forall i :: 0 <= i < |f| ==>
        f[i] == Indicator(m[i] && forall k :: 0 <= k < t ==> PassesEdge(p, p.thetas[k], c.points[i]))
    {
      var theta := p.thetas[t];
      f := seq(|f|, i requires 0 <= i < |f| =>
        if m[i] then f[i] * Indicator(PassesEdge(p, theta, c.points[i])) else f[i]);
      t := t + 1;
    }
  }

  // ---------------------------------------------------------------------------
  // All samplers

  /** Applies the sampling function a factory returned to a grid. */
  function Sample(a: Aperture, g: Grid): (f: Field)
    ensures f.grid == g && FitsGrid(f)
    ensures forall i :: 0 <= i < |f.values| ==> IsBinary(f.values[i])
  {
    match a
    case Circular(d) => SampleCircular(d, g)
    case Rectangular(w, h) => SampleRectangular(w, h, g)
    case RegularPolygon(p) => SamplePolygon(p, g)
  }
}
