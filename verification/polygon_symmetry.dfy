/**
 * The symmetry reduction of `regular_polygon_aperture` checked against a reference
 * that tests all `n` edges of a regular polygon, one half-plane per edge.
 *
 * Under the laws of `Trig.TrigLaws`, and with exact arithmetic, both branches test
 * exactly the `n` half-planes `cos(phi_j) x + sin(phi_j) y < apothem` with normals
 * `phi_j = offset + 2 pi j / n`, `j = 0 .. n-1`: the even branch with `offset = 0`
 * (an edge facing the +x axis) and the odd branch with `offset = -pi/2` (an edge facing
 * the -y axis). The odd branch's different angle formula and test formula are therefore
 * a rotated but complete description of the same kind of polygon.
 */
module PolygonSymmetry {
  import opened Grids
  import opened Trig
  import opened Apertures
  import opened ApertureProperties

  /** The normal angle of edge `j` of a regular `n`-gon rotated by `offset`: `offset + 2 pi j / n`. */
  function EdgeNormal(t: Trig, n: int, offset: real, j: int): real
    requires n >= 1
  {
    offset + Turns(t, j) / (n as real)
  }

  /** The open half-plane with outward normal angle `phi` at distance `a` from the origin. */
  predicate HalfPlane(t: Trig, phi: real, a: real, q: Point)
  {
    t.cos(phi) * q.u + t.sin(phi) * q.v < a
  }

  /** The reference: `q` lies strictly inside all `n` edges of the regular polygon with apothem `a`. */
  ghost predicate InsideAllEdges(t: Trig, n: int, offset: real, a: real, q: Point)
    requires n >= 1
  {
    forall j :: 0 <= j < n ==> HalfPlane(t, EdgeNormal(t, n, offset, j), a, q)
  }

  /** The rotation of the even branch's polygon. */
  const EvenOffset: real := 0.0

  /** The rotation of the odd branch's polygon, `-pi/2`. */
  function OddOffset(t: Trig): real
  {
    -(t.pi / 2.0)
  }

  // ---------------------------------------------------------------------------
  // Arithmetic on angles

  /** `2 p x / (2 m) == x p / m`. */
  lemma HalveBoth(p: real, x: real, m: real)
    requires m != 0.0
    ensures (2.0 * p * x) / (2.0 * m) == x * p / m
  {
    var l := (2.0 * p * x) / (2.0 * m);
    var r := x * p / m;
    assert l * (2.0 * m) == 2.0 * p * x;
    assert r * m == x * p;
    assert (l - r) * m == 0.0;
  }

  /** `(x + m) p / m == x p / m + p`. */
  lemma ShiftByDenominator(p: real, x: real, m: real)
    requires m != 0.0
    ensures (x + m) * p / m == x * p / m + p
  {
    var l := (x + m) * p / m;
    var r := x * p / m;
    assert l * m == x * p + m * p;
    assert r * m == x * p;
    assert (l - r - p) * m == 0.0;
  }

  /** Edge `j < n/2` of the even reference is the branch's `j`-th angle. */
  lemma EvenNormalLow(t: Trig, n: int, j: int)
    requires n >= 2 && n % 2 == 0 && 0 <= j < n / 2
    ensures EdgeNormal(t, n, EvenOffset, j) == EvenTheta(t.pi, n, j)
  {
    var m := (n / 2) as real;
    assert (n as real) == 2.0 * m;
    HalveBoth(t.pi, j as real, m);
  }

  /** Edge `k + n/2` of the even reference is the branch's `k`-th angle turned by `pi`. */
  lemma EvenNormalHigh(t: Trig, n: int, k: int)
    requires n >= 2 && n % 2 == 0 && 0 <= k < n / 2
    ensures EdgeNormal(t, n, EvenOffset, k + n / 2) == EvenTheta(t.pi, n, k) + t.pi
  {
    var m := (n / 2) as real;
    assert (n as real) == 2.0 * m;
    assert ((k + n / 2) as real) == (k as real) + m;
    HalveBoth(t.pi, (k as real) + m, m);
    ShiftByDenominator(t.pi, k as real, m);
  }

  // ---------------------------------------------------------------------------
  // Even number of sides

  /**
   * One test of the even branch, `|cos(theta_k) x + sin(theta_k) y| < a`, is the pair of
   * opposite edges `k` and `k + n/2` of the reference.
   */
  lemma EvenEdgePair(t: Trig, n: int, a: real, q: Point, k: int)
    requires TrigLaws(t)
    requires n >= 2 && n % 2 == 0 && 0 <= k < n / 2
    ensures EvenEdgeTest(t, EvenTheta(t.pi, n, k), a, q)
      <==> (HalfPlane(t, EdgeNormal(t, n, EvenOffset, k), a, q)
            && HalfPlane(t, EdgeNormal(t, n, EvenOffset, k + n / 2), a, q))
  {
    EvenNormalLow(t, n, k);
    EvenNormalHigh(t, n, k);
    var theta := EvenTheta(t.pi, n, k);
    assert HalfTurn(t, theta);
    var c, s := t.cos(theta), t.sin(theta);
    var v := c * q.u + s * q.v;
    assert (-c) * q.u + (-s) * q.v == -v;
    assert HalfPlane(t, theta, a, q) <==> v < a;
    assert HalfPlane(t, theta + t.pi, a, q) <==> -v < a;
    assert EvenEdgeTest(t, theta, a, q) <==> Abs(v) < a;
  }

  /**
   * With an even number of sides, the `n/2` absolute-value tests of
   * `regular_polygon_aperture` are exactly the `n` edges of the regular polygon with an
   * edge facing the +x axis.
   */
  lemma EvenBranchIsAllEdges(t: Trig, n: int, a: real, q: Point)
    requires TrigLaws(t)
    requires n >= 2 && n % 2 == 0
    ensures EvenBranchHolds(t, n, a, q) <==> InsideAllEdges(t, n, EvenOffset, a, q)
  {
    if EvenBranchHolds(t, n, a, q) {
      forall j | 0 <= j < n
        ensures HalfPlane(t, EdgeNormal(t, n, EvenOffset, j), a, q)
      {
        EvenEdgeCovered(t, n, a, q, j);
      }
    }
    if InsideAllEdges(t, n, EvenOffset, a, q) {
      forall k | 0 <= k < n / 2
        ensures EvenEdgeTest(t, EvenTheta(t.pi, n, k), a, q)
      {
        EvenEdgePair(t, n, a, q, k);
      }
    }
  }

  /** Every edge `j` of the reference is one of the two edges of some test of the even branch. */
  lemma EvenEdgeCovered(t: Trig, n: int, a: real, q: Point, j: int)
    requires TrigLaws(t)
    requires n >= 2 && n % 2 == 0 && 0 <= j < n
    requires EvenBranchHolds(t, n, a, q)
    ensures HalfPlane(t, EdgeNormal(t, n, EvenOffset, j), a, q)
  {
    if j < n / 2 {
      EvenEdgePair(t, n, a, q, j);
    } else {
      EvenEdgePair(t, n, a, q, j - n / 2);
    }
  }

  // ---------------------------------------------------------------------------
  // Odd number of sides

  /** Turning by `-c / n` of a full turn is the negation of turning by `c / n`. */
  lemma TurnsNegate(t: Trig, n: int, c: int)
    requires n >= 1
    ensures Turns(t, -c) / (n as real) == -(Turns(t, c) / (n as real))
  {
    var y := Turns(t, c);
    assert Turns(t, -c) == -y;
    var l := Turns(t, -c) / (n as real);
    assert l * (n as real) == -y;
    assert (l + y / (n as real)) * (n as real) == 0.0;
  }

  /** `2 pi (r + n q) / n == 2 pi r / n + 2 pi q`. */
  lemma TurnsSplit(t: Trig, n: int, c: int, r: int, q: int)
    requires n >= 1 && c == r + n * q
    ensures Turns(t, c) / (n as real) == Turns(t, r) / (n as real) + Turns(t, q)
  {
    var nn := n as real;
    assert (c as real) == (r as real) + nn * (q as real);
    var tau := 2.0 * t.pi;
    var l := Turns(t, c) / nn;
    var m := Turns(t, r) / nn;
    assert l * nn == tau * (r as real) + nn * (tau * (q as real));
    assert m * nn == tau * (r as real);
    assert (l - m - Turns(t, q)) * nn == 0.0;
  }

  /** A normal `offset + 2 pi c / n` is edge `r` of the reference whenever `c = r + n q`. */
  lemma ShiftedNormal(t: Trig, n: int, offset: real, c: int, r: int, q: int, a: real, pt: Point)
    requires TrigLaws(t)
    requires n >= 1 && 0 <= r < n && c == r + n * q
    ensures HalfPlane(t, offset + Turns(t, c) / (n as real), a, pt)
      <==> HalfPlane(t, EdgeNormal(t, n, offset, r), a, pt)
  {
    TurnsSplit(t, n, c, r, q);
    FullTurns(t, EdgeNormal(t, n, offset, r), q);
    assert offset + Turns(t, c) / (n as real) == EdgeNormal(t, n, offset, r) + Turns(t, q);
  }

  /** The reference edge that the first half of the odd branch's `k`-th test stands for. */
  function OddFirstEdge(n: int, k: int): int
  {
    if k == 0 then 0 else n - 2 * k
  }

  /** The first half of the odd branch's `k`-th test is the edge with normal `theta_k - pi/2`. */
  lemma OddFirstHalf(t: Trig, n: int, a: real, pt: Point, k: int)
    requires TrigLaws(t)
    requires n >= 3 && n % 2 == 1 && 0 <= k <= n / 2
    ensures HalfPlane(t, EdgeNormal(t, n, OddOffset(t), OddFirstEdge(n, k)), a, pt)
      <==> t.sin(OddTheta(t.pi, n, k)) * pt.u + -t.cos(OddTheta(t.pi, n, k)) * pt.v < a
  {
    var c := k * (n - 2);
    var theta := OddTheta(t.pi, n, k);
    OddThetaAsTurns(t, n, k);
    assert QuarterTurn(t, theta);
    assert theta - t.pi / 2.0 == OddOffset(t) + Turns(t, c) / (n as real);
    assert c == k * n - 2 * k;
    if k == 0 {
      ShiftedNormal(t, n, OddOffset(t), c, 0, 0, a, pt);
    } else {
      ShiftedNormal(t, n, OddOffset(t), c, n - 2 * k, k - 1, a, pt);
    }
  }

  /** The normal `-theta - pi/2` as a half-plane test in terms of `theta`. */
  lemma MirroredQuarterTurn(t: Trig, theta: real, a: real, pt: Point)
    requires TrigLaws(t)
    ensures HalfPlane(t, -theta - t.pi / 2.0, a, pt)
      <==> -(t.sin(theta) * pt.u) + -t.cos(theta) * pt.v < a
  {
    var s := t.sin(theta);
    assert QuarterTurn(t, -theta);
    assert Mirror(t, theta);
    assert (-s) * pt.u == -(s * pt.u);
  }

  /** The odd branch's `k`-th angle, mirrored and turned by `-pi/2`, is `OddOffset - 2 pi k (n - 2) / n`. */
  lemma OddSecondNormal(t: Trig, n: int, k: int)
    requires n >= 3
    ensures -OddTheta(t.pi, n, k) - t.pi / 2.0 == OddOffset(t) + Turns(t, -(k * (n - 2))) / (n as real)
  {
    OddThetaAsTurns(t, n, k);
    TurnsNegate(t, n, k * (n - 2));
  }

  /** The second half of the odd branch's `k`-th test is the edge with normal `-theta_k - pi/2`. */
  lemma OddSecondHalf(t: Trig, n: int, a: real, pt: Point, k: int)
    requires TrigLaws(t)
    requires n >= 3 && n % 2 == 1 && 0 <= k <= n / 2
    ensures HalfPlane(t, EdgeNormal(t, n, OddOffset(t), 2 * k), a, pt)
      <==> -(t.sin(OddTheta(t.pi, n, k)) * pt.u) + -t.cos(OddTheta(t.pi, n, k)) * pt.v < a
  {
    var c := k * (n - 2);
    MirroredQuarterTurn(t, OddTheta(t.pi, n, k), a, pt);
    OddSecondNormal(t, n, k);
    assert -c == 2 * k + n * (-k);
    ShiftedNormal(t, n, OddOffset(t), -c, 2 * k, -k, a, pt);
  }

  /**
   * One test of the odd branch, `|sin(theta_k) x| - cos(theta_k) y < a`, is the pair of
   * edges `OddFirstEdge(n, k)` and `2k` of the reference rotated by `-pi/2`.
   */
  lemma OddEdgePair(t: Trig, n: int, a: real, pt: Point, k: int)
    requires TrigLaws(t)
    requires n >= 3 && n % 2 == 1 && 0 <= k <= n / 2
    ensures OddEdgeTest(t, OddTheta(t.pi, n, k), a, pt)
      <==> (HalfPlane(t, EdgeNormal(t, n, OddOffset(t), OddFirstEdge(n, k)), a, pt)
            && HalfPlane(t, EdgeNormal(t, n, OddOffset(t), 2 * k), a, pt))
  {
    OddFirstHalf(t, n, a, pt, k);
    OddSecondHalf(t, n, a, pt, k);
  }

  /**
   * With an odd number of sides, the `n/2 + 1` tests of `regular_polygon_aperture`, with
   * its angle formula `k (n - 2) pi / (n / 2)`, are exactly the `n` edges of the regular
   * polygon with an edge facing the -y axis: the angles `2 pi k (n - 2) / n` and their
   * mirror images reach every multiple of `2 pi / n`.
   */
  lemma OddBranchIsAllEdges(t: Trig, n: int, a: real, pt: Point)
    requires TrigLaws(t)
    requires n >= 3 && n % 2 == 1
    ensures OddBranchHolds(t, n, a, pt) <==> InsideAllEdges(t, n, OddOffset(t), a, pt)
  {
    if OddBranchHolds(t, n, a, pt) {
      forall j | 0 <= j < n
        ensures HalfPlane(t, EdgeNormal(t, n, OddOffset(t), j), a, pt)
      {
        OddEdgeCovered(t, n, a, pt, j);
      }
    }
    if InsideAllEdges(t, n, OddOffset(t), a, pt) {
      forall k | 0 <= k <= n / 2
        ensures OddEdgeTest(t, OddTheta(t.pi, n, k), a, pt)
      {
        OddTestCovered(t, n, a, pt, k);
      }
    }
  }

  /** Every edge `j` of the rotated reference is one half of some test of the odd branch. */
  lemma OddEdgeCovered(t: Trig, n: int, a: real, pt: Point, j: int)
    requires TrigLaws(t)
    requires n >= 3 && n % 2 == 1 && 0 <= j < n
    requires OddBranchHolds(t, n, a, pt)
    ensures HalfPlane(t, EdgeNormal(t, n, OddOffset(t), j), a, pt)
  {
    var m := n / 2;
    assert n == 2 * m + 1;
    if j % 2 == 0 {
      var k := j / 2;
      assert 2 * k == j && 0 <= k <= m;
      OddEdgePair(t, n, a, pt, k);
    } else {
      var k := (n - j) / 2;
      assert 2 * k == n - j && 1 <= k <= m;
      assert OddFirstEdge(n, k) == j;
      OddEdgePair(t, n, a, pt, k);
    }
  }

  /** Every test of the odd branch holds once all edges of the rotated reference do. */
  lemma OddTestCovered(t: Trig, n: int, a: real, pt: Point, k: int)
    requires TrigLaws(t)
    requires n >= 3 && n % 2 == 1 && 0 <= k <= n / 2
    requires InsideAllEdges(t, n, OddOffset(t), a, pt)
    ensures OddEdgeTest(t, OddTheta(t.pi, n, k), a, pt)
  {
    var m := n / 2;
    assert n == 2 * m + 1;
    assert 0 <= OddFirstEdge(n, k) < n && 0 <= 2 * k < n;
    OddEdgePair(t, n, a, pt, k);
  }

  // ---------------------------------------------------------------------------
  // End to end

  /** The rotation of the polygon that `regular_polygon_aperture` draws for `n` sides. */
  function PolygonOffset(t: Trig, n: int): real
  {
    if n % 2 == 0 then EvenOffset else OddOffset(t)
  }

  /**
   * Whatever the parity of `n >= 3`, a grid point is inside the sampled regular polygon
   * iff it is within the `4 D` wide prefilter square and strictly inside all `n` edges of
   * the regular polygon with apothem `cos(pi/n) D / 2` and edge normals
   * `PolygonOffset(t, n) + 2 pi j / n`.
   */
  lemma RegularPolygonIsAllEdges(t: Trig, n: int, circumDiameter: real, g: Grid, i: int)
    requires TrigLaws(t)
    requires n >= 3
    requires 0 <= i < g.Size()
    ensures RegularPolygonAperture(t, n, circumDiameter).Success?
    ensures
      var q := AsCartesian(g).points[i];
      var a := CosPiOver(t, n) * circumDiameter / 2.0;
      Sample(RegularPolygonAperture(t, n, circumDiameter).value, g).values[i] == 1.0
      <==>
      && Abs(q.u) <= circumDiameter * 2.0
      && Abs(q.v) <= circumDiameter * 2.0
      && InsideAllEdges(t, n, PolygonOffset(t, n), a, q)
  {
    var q := AsCartesian(g).points[i];
    var a := CosPiOver(t, n) * circumDiameter / 2.0;
    assert circumDiameter * 4.0 / 2.0 == circumDiameter * 2.0;
    if n % 2 == 0 {
      EvenPolygonSample(t, n, circumDiameter, g, i);
      EvenBranchIsAllEdges(t, n, a, q);
    } else {
      OddPolygonSample(t, n, circumDiameter, g, i);
      OddBranchIsAllEdges(t, n, a, q);
    }
  }
}
