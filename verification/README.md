# Aperture masks and file-format resolution of HCIPy, in Dafny

HCIPy describes optical apertures as functions that map a sampling grid to a field of
transmission values. This project models the generic aperture factories of
`hcipy/aperture/generic.py` and proves what their samplers compute:

- a factory checks its shape parameters once and returns a pure sampler;
- the sampler gives every grid point exactly `0.0` or `1.0`;
- the result is tagged with the input grid;
- every sampler returns one value per grid point.

The factories modelled are `circular_aperture`, `rectangular_aperture`,
`regular_polygon_aperture` and `hexagonal_aperture`. It also models how the grid and field
readers and writers of `hcipy/util/io.py` resolve a file format, which errors they raise
before touching a file, and which single file operation they perform.

Files:

- `wrappers.dfy`: `Option` and `Result`.
- `grids.dfy`: grids, points and fields. A grid is its native coordinate system, its
  ordered points and a conversion of a native point to Cartesian coordinates. It also holds
  the `0.0`/`1.0` indicator.
- `trig.dfy`: `cos`, `sin` and `pi` as an uninterpreted record `Trig` passed to the polygon
  factory. Two sets of laws about it are stated as predicates and required only where used:
  - `CosPositive` says `cos(pi/n) > 0` for `n >= 3`;
  - `TrigLaws` gives the half-turn, mirror and quarter-turn identities. From these, full
    turns are proved to change nothing.
- `apertures.dfy`: the factories, the samplers, and the polygon sampler loop as the source
  runs it.
- `aperture_properties.dfy`: the two circle paths, the rectangle, the hexagon, and the
  polygon branches end to end.
- `circle_scenario.dfy`: a circle of diameter 2 sampled on a concrete 5 x 5 grid.
- `polygon_symmetry.dfy`: each branch of the polygon sampler, with its symmetry-reduced
  angles, compared against a reference that tests all `n` edges of a regular polygon.
- `file_formats.dfy`: suffix guessing, format resolution, the four entry points and
  `write_fits`.

Where the behaviour differs from what one might expect, the model follows the code:

- `rectangular_aperture` accepts `center` and never uses it. The sampler is independent of it.
- The circle sampler tests `x^2 + y^2 <= (d/2)^2` on a Cartesian grid and `r <= d/2` on any
  other grid. The two agree for `d >= 0`. For `d < 0` they differ: at the origin the polar
  path gives `0.0` and the Cartesian path gives `1.0`.
- The odd-`n` polygon branch is kept exactly as written. Its angles are
  `k (n - 2) pi / (n / 2)` with real division, for `k = 0 .. n div 2`, and its test is
  `|sin t x| - cos t y < apothem`. Under exact arithmetic and the trigonometric laws, it
  tests exactly the `n` edges of a regular polygon rotated so that one edge faces `-y`. The
  even branch tests the `n` edges of the polygon with one edge facing `+x`. So the two
  parities draw differently oriented polygons, but both are complete and correct.
- `write_field` to FITS on a grid that is regular but not separated reads the first HDU of
  an empty HDU list. The model gives an `IndexError` there.

## Model

| member | source | states |
|---|---|---|
| `Grids.AsCartesian` | hcipy/aperture/generic.py:21 | converting to Cartesian keeps the number and order of points, leaves a Cartesian grid unchanged, and maps every point of another grid through its conversion |
| `Grids.Indicator` | hcipy/aperture/generic.py:13 | a boolean becomes `1.0` when true and `0.0` when false, and nothing else |
| `Grids.Abs` | hcipy/aperture/generic.py:22 | the absolute value is non-negative and is either `x` or `-x` |
| `Apertures.CircularAperture` | hcipy/aperture/generic.py:5-15 | construction accepts every diameter, zero and negative ones included (unlike `regular_polygon_aperture`, nothing is checked), and the returned sampler is the circle test with that diameter on every grid |
| `Apertures.SampleCircular` | hcipy/aperture/generic.py:5-15 | one value per point, each `0.0` or `1.0`, tagged with the input grid; on a Cartesian grid `1.0` exactly when `x^2 + y^2 <= (d/2)^2` (boundary included), otherwise exactly when the native radius is `<= d/2` |
| `ApertureProperties.CircularPathsAgree` | hcipy/aperture/generic.py:7-11 | for `d >= 0`, on a polar grid whose radii are the distances of the converted points, the polar path and the Cartesian path give the same values at every point |
| `ApertureProperties.CircularPathsDifferForNegativeDiameter` | hcipy/aperture/generic.py:7-11 | for `d < 0`, the polar path rejects every point, the Cartesian path behaves as for `-d`, and at a point converting to the origin they disagree (`0.0` against `1.0`) |
| `CircleScenario.CircleOnFiveByFiveGrid` | hcipy/aperture/generic.py:5-13 | a circle of diameter 2 on the 5 x 5 grid over `[-1, 1]^2` contains the centre and the four points at distance exactly 1, and excludes the corners and the points at distance `sqrt(1.25)` |
| `Apertures.RectangularAperture` | hcipy/aperture/generic.py:17-18 | a scalar size is used as the edge length on both axes; a per-axis size gives width and height |
| `Apertures.SampleRectangular` | hcipy/aperture/generic.py:20-24 | one binary value per point, tagged with the input grid, `1.0` exactly when the converted point has `-w/2 <= x <= w/2` and `-h/2 <= y <= h/2` |
| `ApertureProperties.RectangleCenterIgnored` | hcipy/aperture/generic.py:17-24 | two rectangles that differ only in `center` sample every grid identically |
| `ApertureProperties.RectangleScalarBroadcast` | hcipy/aperture/generic.py:18-22 | a scalar size `s` samples like the per-axis size `(s, s)`, with `1.0` exactly when `|x| <= s/2` and `|y| <= s/2` |
| `Apertures.PolygonThetas` | hcipy/aperture/generic.py:35-38 | there are `n/2` angles for even `n` and `n/2 + 1` for odd `n`; they start at 0 and are evenly spaced; each is a whole number of `n`-th turns (`2 pi k / n` for even `n`, `2 pi k (n - 2) / n` for odd `n`), so each is the normal of an edge of the regular `n`-gon with an edge facing `+x` |
| `Apertures.RegularPolygonAperture` | hcipy/aperture/generic.py:28-38 | fails exactly when `num_sides < 3`, at construction; otherwise the apothem is `cos(pi/n) D / 2` and the angles are evenly spaced multiples of `pi / (n/2)` (even `n`) or of `(n - 2) pi / (n / 2)` (odd `n`), starting at 0 |
| `Apertures.HexagonalAperture` | hcipy/aperture/generic.py:67-68 | always succeeds with a six-sided polygon, apothem `cos(pi/6) D / 2` and angles `0, pi/3, 2 pi/3` |
| `ApertureProperties.HexagonIsSixSidedPolygon` | hcipy/aperture/generic.py:67-68 | the hexagon samples every grid exactly as the six-sided regular polygon |
| `Apertures.SamplePolygon` | hcipy/aperture/generic.py:40-51 | one binary value per point, tagged with the input grid; a point with `|x| > 2D` or `|y| > 2D` gets `0.0` whatever the angle tests say |
| `Apertures.SamplePolygonLoop` | hcipy/aperture/generic.py:42-62 | starting from ones, masking by the `4D` prefilter and multiplying in one indicator per angle yields `1.0` exactly at the points that are in the prefilter and pass every half-plane test, and `0.0` elsewhere; the loop's values are exactly those of the pointwise sampler `SamplePolygon` |
| `ApertureProperties.PolygonValueAt` | hcipy/aperture/generic.py:42-62 | a point's sampled value is `1.0` exactly when it is in the prefilter and passes every half-plane test of the captured angles |
| `ApertureProperties.EvenPolygonSample` | hcipy/aperture/generic.py:54-56 | for even `n`, a point is inside exactly when `|x|, |y| <= 2D` and `|cos t x + sin t y| < cos(pi/n) D / 2` (strict) for every `t = k pi / (n/2)`, `k < n/2` |
| `ApertureProperties.OddPolygonSample` | hcipy/aperture/generic.py:57-60 | for odd `n`, a point is inside exactly when `|x|, |y| <= 2D` and `|sin t x| - cos t y < cos(pi/n) D / 2` for every `t = k (n - 2) pi / (n / 2)`, `k <= n div 2` |
| `ApertureProperties.HexagonExcludesBeyondVertex` | hcipy/aperture/generic.py:32-68 | with `cos(pi/n) > 0` for all `n >= 3`, `cos 0 = 1` and `sin 0 = 0`, a point at radius `1 + e` (`e > 0`) in the direction `pi/6` of a vertex of `hexagonal_aperture(2.0)` samples to `0.0` |
| `ApertureProperties.PolygonContainsOrigin` | hcipy/aperture/generic.py:32-60 | with `cos(pi/n) > 0` and `D > 0`, a point converting to the origin is inside the polygon, for both parities |
| `Apertures.Sample` | hcipy/aperture/generic.py:13 | every sampler returns one value per grid point, each `0.0` or `1.0`, tagged with the input grid rather than the converted one |
| `PolygonSymmetry.EvenEdgePair` | hcipy/aperture/generic.py:56 | one absolute-value test of the even branch is the pair of opposite edges `k` and `k + n/2` of the reference polygon |
| `PolygonSymmetry.EvenBranchIsAllEdges` | hcipy/aperture/generic.py:54-56 | for even `n`, the `n/2` tests hold exactly when the point is strictly inside all `n` edges with normals `2 pi j / n` |
| `PolygonSymmetry.OddEdgePair` | hcipy/aperture/generic.py:60 | one test of the odd branch is the pair of edges with normals `t - pi/2` and `-t - pi/2`, which are edges `n - 2k` (or `0`) and `2k` of the reference rotated by `-pi/2` |
| `PolygonSymmetry.OddBranchIsAllEdges` | hcipy/aperture/generic.py:57-60 | for odd `n`, the `n div 2 + 1` tests hold exactly when the point is strictly inside all `n` edges with normals `-pi/2 + 2 pi j / n` |
| `PolygonSymmetry.RegularPolygonIsAllEdges` | hcipy/aperture/generic.py:28-62 | for every `n >= 3`, a point is inside the sampled polygon exactly when it is in the prefilter square and strictly inside all `n` edges of the regular polygon with apothem `cos(pi/n) D / 2` |
| `FileFormats.EndsWithIffHasSuffix` | hcipy/util/io.py:53-55 | the slice test used for `endswith` holds exactly when the name is some string followed by the suffix |
| `FileFormats.GuessFileFormat` | hcipy/util/io.py:52-58 | a guess, when there is one, is `asdf` or `fits` |
| `FileFormats.AsdfAndFitsSuffixesExclusive` | hcipy/util/io.py:53-55 | no name ends both in `asdf` and in `fits` or `fits.gz` |
| `FileFormats.GuessMatchesSuffixes` | hcipy/util/io.py:52-58 | the guess is `asdf` exactly for names ending in `asdf`, `fits` exactly for names ending in `fits` or `fits.gz`, and none otherwise |
| `FileFormats.GuessExamples` | hcipy/util/io.py:52-58 | `xasdf` is asdf without a dot; `pupil.fits` and `pupil.fits.gz` are fits; `pupil.FITS`, `pupil.fit` and the empty name give no guess |
| `FileFormats.ResolveFormat` | hcipy/util/io.py:77-81 | an explicit format is used as given; without one the guess is used; the call fails, with the `ValueError` message, exactly when no format is given and none is guessed |
| `FileFormats.MakeTree` | hcipy/util/io.py:60-72 | the metadata tree carries the `file_type` tag it is given and holds the object under that key |
| `FileFormats.ReadGrid` | hcipy/util/io.py:74-92 | a resolution error is passed on; asdf and fits both open the file as an ASDF tree and rebuild the grid; any other format is `NotImplementedError` |
| `FileFormats.WriteGrid` | hcipy/util/io.py:94-118 | a resolution error is passed on; asdf writes a plain ASDF file and fits writes ASDF-in-FITS with the given `overwrite`, both with the tree tagged `grid`; any other format is `NotImplementedError` |
| `FileFormats.ReadField` | hcipy/util/io.py:120-146 | like `ReadGrid` for the key `field`, except that the field read from fits is flattened |
| `FileFormats.WriteFieldFits` | hcipy/util/io.py:163-185 | the FITS write has an image HDU exactly when the grid is separated, and then the tree's values come from the image; it has a WCS header exactly when the grid is also regular; a regular grid that is not separated is an `IndexError` |
| `FileFormats.WriteField` | hcipy/util/io.py:148-187 | a resolution error is passed on; asdf writes a plain ASDF file tagged `field`; fits behaves as `WriteFieldFits`; any other format is `NotImplementedError` |
| `FileFormats.WriteFits` | hcipy/util/io.py:19-50 | a given shape wins; without it the shaped view is written exactly for a field on a separated grid and the raw data otherwise; the file is always overwritten |
| `FileFormats.WriteFitsHonouringOverwrite` | hcipy/util/io.py:19-36 | the documented `write_fits`: the same payload, overwriting exactly when asked to |
| `FileFormats.WriteFitsOverwritesWhenAskedNotTo` | hcipy/util/io.py:50 | asked not to overwrite, `write_fits` as written still overwrites, and the documented version does not |
| `FileFormats.EntryPointsShareResolution` | hcipy/util/io.py:74-187 | all four entry points fail exactly when the shared rule predicts a `ValueError` or a `NotImplementedError`, and with that error; `write_field` also fails on FITS for a regular grid that is not separated |
| `FileFormats.ExplicitFormatSkipsGuessing` | hcipy/util/io.py:77-81 | with an explicit format, whether a call fails does not depend on the file name |
| `FileFormats.UnguessableFailsWithValueError` | hcipy/util/io.py:95-99 | a name that gives no guess makes all four entry points fail with the `ValueError` when no format is given |
| `FileFormats.GuessedFormatNeverUnimplemented` | hcipy/util/io.py:123-127 | when the format is guessed, no entry point raises `NotImplementedError` |
| `FileFormats.ReadGridFormatsAgree` | hcipy/util/io.py:83-92 | `read_grid` does the same for asdf and fits, and the same for any guessed format |
| `FileFormats.ReadFieldRavelsOnlyFits` | hcipy/util/io.py:129-144 | `read_field` flattens the field read from fits and not the one read from asdf |
| `FileFormats.WritersTagFileType` | hcipy/util/io.py:101-155 | every tree `write_grid` writes is tagged `grid` and holds the grid; every tree `write_field` writes is tagged `field` and holds the field |
| `FileFormats.OverwriteIgnoredOutsideAsdfInFits` | hcipy/util/io.py:104-116 | `overwrite` has no effect on plain ASDF writes or on `write_fits`, and is passed on to the ASDF-in-FITS write |

## Left out

- `hcipy/optics/optical_element.py` is not part of this model. Its classes are abstract
  bases whose methods raise `NotImplementedError`, with one exception: `OpticalElement.__call__`
  (`hcipy/optics/optical_element.py:3`) does `raise self.forward(wavefront)`. So for a
  subclass whose `forward` returns a wavefront, calling the element raises a `TypeError`
  instead of returning the result.
- The diagnostic `print(theta)` in the odd polygon branch is left out. It has no effect on
  the result.
- Floating-point rounding is not modelled. Coordinates and values are exact reals.
- The actual values of `cos`, `sin` and `pi` are not modelled. They are uninterpreted
  parameters, constrained only where a property requires it.
- The classes `Grid`, `Field` and their coordinate objects are not modelled, since they are
  external. A grid is its points plus a given Cartesian conversion. In the file model, a
  field is its dictionary plus the two flags `is_separated` and `is_regular`.
- Real file I/O is left out: astropy HDUs, asdf open and write, zlib compression, the WCS
  values (`crpix`, `cdelt`, `crval`) and `read_fits`. These are foreign library calls, so
  each is reduced to a `TreeRead`, `Effect` or `FitsWrite` value naming the operation.
- The version string and UTC timestamp in the metadata tree are left out. They depend on
  the environment. Only the `file_type` tag is kept.
- The commented-out mode-basis writer inside a string literal in `hcipy/util/io.py` is left
  out. It is dead code.
- Exceptions raised by missing third-party packages or by the libraries themselves are not
  modelled.
- `Apertures.SamplePolygon`: its own contract states only the prefilter property. The
  complete pointwise characterisation is stated by `SamplePolygonLoop`, `PolygonValueAt`
  and the end-to-end lemmas.
- `FileFormats.GuessFileFormat`: its own contract states only the range of the guess. The
  suffix characterisation is `GuessMatchesSuffixes`.

## Findings

| source | as written | input that shows it | evidently intended | confidence | as-written member | corrected member |
|---|---|---|---|---|---|---|
| hcipy/util/io.py:50 | `write_fits` always writes with `overwrite=True` | `write_fits(data, 'psf.fits', overwrite=False)` overwrites an existing file | the documented `overwrite` argument decides whether an existing file is overwritten | medium, not executed | `FileFormats.WriteFits` (with `FileFormats.WriteFitsOverwritesWhenAskedNotTo`) | `FileFormats.WriteFitsHonouringOverwrite` |
