/**
 * The older revision of the smoothing helpers, `algorithms.go` at the top of
 * the repository: `getMean` sums the points' elevations directly, and
 * `getElevationDiff` takes the two means over points rather than over a
 * collected list of elevations. Both compute what the newer `tools/`
 * revision computes.
 */
module LegacyAlgorithms {
  import opened Geo
  import opened Algorithms

  /**
   * `getMean(points)`: the rounded mean of the points' elevations, NaN for
   * no points.
   */
  method GetMean(points: seq<GeoPoint>) returns (m: Real64)
    ensures m == Mean(Elevations(points))
  {
    ghost var es := Elevations(points);
    var total := 0.0;
    for i := 0 to |points|
      invariant total == Sum(es[..i])
    {
      assert es[..i + 1][..i] == es[..i];
      total := total + points[i].elevation;
    }
    assert es[..|points|] == es;
    if |points| == 0 {
      m := NaN;
    } else {
      m := Num(Round(total / |points| as real));
    }
  }

  /**
   * `getElevationDiff(point, points)`: the rounded mean of `point` followed
   * by all but the last of `points`, minus the rounded mean of `points`; the
   * same difference as the newer revision's. The source slices
   * `[0:len(points)-1]`, which panics on an empty window.
   */
  method GetElevationDiff(point: GeoPoint, points: seq<GeoPoint>) returns (d: real)
    requires |points| >= 1
    ensures d == ElevationDiff(point, points)
  {
    var left := [point] + points[..|points| - 1];
    assert Elevations(left) == LeftElevations(point, points);
    var leftMean := GetMean(left);
    var rightMean := GetMean(points);
    d := leftMean.value - rightMean.value;
  }
}
