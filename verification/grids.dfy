/**
 * Coordinate grids and fields, as the aperture samplers consume and produce them.
 * The grid classes themselves are external to the model: a grid is reduced to its
 * native coordinate system, its ordered sample points and a given conversion of a
 * native point to Cartesian coordinates.
 */
module Grids {

  /** The coordinate system a grid natively exposes (`grid.is_('cartesian')`). */
  datatype CoordSystem = Cartesian | Polar

  /**
   * One sample point in the grid's native coordinates:
   * `(u, v) = (x, y)` on a Cartesian grid and `(u, v) = (r, theta)` on a polar one.
   */
  datatype Point = Point(u: real, v: real)

  /** The origin of the Cartesian plane. */
  const Origin: Point := Point(0.0, 0.0)

  /**
   * A grid: its native coordinate system, its sample points in order, and the
   * conversion of a native point to Cartesian coordinates that `grid.as_('cartesian')`
   * applies.
   */
  datatype Grid = Grid(system: CoordSystem, points: seq<Point>, toCartesian: Point -> Point)
  {
    /** The number of sample points (`grid.size`). */
    function Size(): nat { |points| }
  }

  /**
   * `grid.as_('cartesian')`: a Cartesian grid is returned as it is; any other grid
   * is converted point by point, keeping the point order.
   */
  function AsCartesian(g: Grid): (c: Grid)
    ensures c.system == Cartesian
    ensures c.Size() == g.Size()
    ensures g.system == Cartesian ==> c == g
    ensures g.system != Cartesian ==>
      forall i :: 0 <= i < |g.points| ==> c.points[i] == g.toCartesian(g.points[i])
  {
    if g.system == Cartesian then g
    else Grid(Cartesian, seq(|g.points|, i requires 0 <= i < |g.points| => g.toCartesian(g.points[i])), p => p)
  }

  /**
   * A field: one value per sample point, in the grid's point order, tagged with the
   * grid it was sampled on.
   */
  datatype Field = Field(values: seq<real>, grid: Grid)

  /** A field fits its grid when it holds exactly one value per sample point. */
  predicate FitsGrid(f: Field)
  {
    |f.values| == f.grid.Size()
  }

  /** A hard-edged transmission value: exactly `0.0` or exactly `1.0`. */
  predicate IsBinary(x: real)
  {
    x == 0.0 || x == 1.0
  }

  /** `b.astype('float')`: `1.0` for true, `0.0` for false. */
  function Indicator(b: bool): (x: real)
    ensures IsBinary(x)
    ensures x == 1.0 <==> b
  {
    if b then 1.0 else 0.0
  }

  /** `np.abs` on a real. */
  function Abs(x: real): (a: real)
    ensures a >= 0.0
    ensures a == x || a == -x
  {
    if x < 0.0 then -x else x
  }
}
