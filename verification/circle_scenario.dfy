/**
 * A concrete scenario for the circle sampler: a circle of diameter 2 sampled on a 5 x 5
 * Cartesian grid.
 */
module CircleScenario {
  import opened Grids
  import opened Apertures

  /** The coordinates along each axis of the 5 x 5 grid over `[-1, 1]^2`. */
  const FiveTicks: seq<real> := [-1.0, -0.5, 0.0, 0.5, 1.0]

  /** The 5 x 5 Cartesian grid spanning `[-1, 1]^2` with spacing `0.5`, row by row in `y`. */
  function FiveByFiveGrid(): Grid
  {
    Grid(Cartesian, seq(25, i requires 0 <= i < 25 => Point(FiveTicks[i % 5], FiveTicks[i / 5])), p => p)
  }

  /** The expected circle of diameter 2 on the 5 x 5 grid. */
  const FiveByFiveCircle: seq<real> :=
    [0.0, 0.0, 1.0, 0.0, 0.0,
     0.0, 1.0, 1.0, 1.0, 0.0,
     1.0, 1.0, 1.0, 1.0, 1.0,
     0.0, 1.0, 1.0, 1.0, 0.0,
     0.0, 0.0, 1.0, 0.0, 0.0]

  /**
   * A circle of diameter `2` on the 5 x 5 grid over `[-1, 1]^2`: the centre, the points
   * at distance `0.5`, `sqrt(0.5)` and the four points at distance exactly `1` (boundary
   * included) are inside; the corners at distance `sqrt(2)` and the points at distance
   * `sqrt(1.25)` are outside.
   */
  lemma CircleOnFiveByFiveGrid()
    ensures SampleCircular(2.0, FiveByFiveGrid()).values == FiveByFiveCircle
  {
    var f := SampleCircular(2.0, FiveByFiveGrid());
    forall i | 0 <= i < 25
      ensures f.values[i] == FiveByFiveCircle[i]
    {
      CircleOnFiveByFiveGridAt(i / 5, i % 5);
    }
  }

  /** The circle of diameter `2` at row `row` and column `col` of the 5 x 5 grid. */
  lemma CircleOnFiveByFiveGridAt(row: int, col: int)
    requires 0 <= row < 5 && 0 <= col < 5
    ensures SampleCircular(2.0, FiveByFiveGrid()).values[5 * row + col] == FiveByFiveCircle[5 * row + col]
  {
    var g := FiveByFiveGrid();
    var i := 5 * row + col;
    assert i % 5 == col && i / 5 == row;
    assert g.points[i] == Point(FiveTicks[col], FiveTicks[row]);
    var x, y := FiveTicks[col], FiveTicks[row];
    var inside := InDiscSquared(2.0, x, y);
    assert inside <==> FiveByFiveCircle[i] == 1.0 by {
      if row == 0 || row == 4 {
        assert inside <==> col == 2;
      } else if row == 2 {
        assert inside;
      } else {
        assert inside <==> 1 <= col <= 3;
      }
    }
  }
}
