/**
 * Track points and the numeric primitives the analyser builds on: Go's
 * `math.Round`, float64 values that may be NaN, running sums, and the
 * timestamp conversions (`Unix`, `Sub`, `Seconds`) of Go's `time` package.
 */
module Geo {

  /** A `gpx.Point`: the location part of a track point, recorded with each extremum. */
  datatype Location = Location(lat: real, lon: real, elevation: real)

  /** The zero `gpx.Point` a fresh stats record holds before any extremum is recorded. */
  const Origin: Location := Location(0.0, 0.0, 0.0)

  /**
   * A `gpx.GPXPoint`: latitude and longitude in degrees, the value its
   * elevation yields, and its timestamp in nanoseconds since the Unix epoch.
   */
  datatype GeoPoint = GeoPoint(lat: real, lon: real, elevation: real, time: int)

  /** The embedded `gpx.Point` of a track point. */
  function Loc(p: GeoPoint): (l: Location)
    ensures l.lat == p.lat && l.lon == p.lon && l.elevation == p.elevation
  {
    Location(p.lat, p.lon, p.elevation)
  }

  /**
   * The great-circle distance `getDistance(lat1, lon1, lat2, lon2)` in metres.
   * Its haversine formula is floating-point trigonometry and is not modelled:
   * every member that needs it takes it as a parameter of this type.
   */
  type Distance = (real, real, real, real) -> real

  /** A float64 result: a number, or the NaN that `0.0 / 0.0` yields. */
  datatype Real64 = Num(value: real) | NaN

  /** `a > b` on float64: false whenever `a` is NaN. */
  predicate Exceeds(a: Real64, b: real)
    ensures a.NaN? ==> !Exceeds(a, b)
  {
    a.Num? && a.value > b
  }

  /** A product with a positive factor is positive only when the other factor is. */
  lemma PositiveFactor(y: real, d: real)
    requires d > 0.0 && y * d > 0.0
    ensures y > 0.0
  {
  }

  const NanosPerSecond: int := 1_000_000_000

  /** `Time.Unix()`: whole seconds since the epoch, rounded towards minus infinity. */
  function Unix(t: int): (s: int)
    ensures s < 0 <==> t < 0
  {
    t / NanosPerSecond
  }

  /** `Duration.Seconds()` of a duration in nanoseconds. */
  function Seconds(d: int): (s: real)
    ensures s > 0.0 <==> d > 0
  {
    d as real / NanosPerSecond as real
  }

  function Abs(x: real): (r: real)
    ensures r >= 0.0 && (r == x || r == -x)
  {
    if x < 0.0 then -x else x
  }

  /** Go's `math.Round`: the nearest integer, halves rounded away from zero. */
  function Round(x: real): (r: real)
    ensures r == r.Floor as real
    ensures x - 0.5 <= r <= x + 0.5
    ensures x >= 0.0 ==> r >= 0.0
    ensures x <= 0.0 ==> r <= 0.0
  {
    if x >= 0.0 then
      var f := (x + 0.5).Floor;
      assert f as real <= x + 0.5 < f as real + 1.0;
      f as real
    else
      var f := (-x + 0.5).Floor;
      assert f as real <= -x + 0.5 < f as real + 1.0;
      assert (-f as real).Floor == -f;
      -(f as real)
  }

  lemma RoundMonotone(x: real, y: real)
    requires x <= y
    ensures Round(x) <= Round(y)
  {
    if x >= 0.0 {
      assert (x + 0.5).Floor <= (y + 0.5).Floor;
    } else if y < 0.0 {
      assert (-y + 0.5).Floor <= (-x + 0.5).Floor;
    }
  }

  /** Rounding leaves whole numbers unchanged. */
  lemma RoundWhole(n: int)
    ensures Round(n as real) == n as real
  {
    if n < 0 {
      assert (-(n as real) + 0.5).Floor == -n;
    } else {
      assert (n as real + 0.5).Floor == n;
    }
  }

  /** The difference of two whole numbers is whole. */
  lemma WholeDifference(x: real, y: real)
    requires x == x.Floor as real && y == y.Floor as real
    ensures x - y == (x - y).Floor as real
  {
    assert x - y == (x.Floor - y.Floor) as real;
  }

  /** The sum of `s`, accumulated left to right as a range loop does. */
  function Sum(s: seq<real>): real
  {
    if s == [] then 0.0 else Sum(s[..|s| - 1]) + s[|s| - 1]
  }

  lemma {:induction false} SumAppend(a: seq<real>, b: seq<real>)
    ensures Sum(a + b) == Sum(a) + Sum(b)
    decreases |b|
  {
    if b != [] {
      assert (a + b)[..|a + b| - 1] == a + b[..|b| - 1];
      SumAppend(a, b[..|b| - 1]);
    } else {
      assert a + b == a;
    }
  }

  /** Every element at least `lo` puts the sum at least `|s| * lo`. */
  lemma {:induction false} SumAtLeast(s: seq<real>, lo: real)
    requires forall i :: 0 <= i < |s| ==> lo <= s[i]
    ensures |s| as real * lo <= Sum(s)
  {
    if s != [] {
      SumAtLeast(s[..|s| - 1], lo);
    }
  }

  /** Every element at most `hi` puts the sum at most `|s| * hi`. */
  lemma {:induction false} SumAtMost(s: seq<real>, hi: real)
    requires forall i :: 0 <= i < |s| ==> s[i] <= hi
    ensures Sum(s) <= |s| as real * hi
  {
    if s != [] {
      SumAtMost(s[..|s| - 1], hi);
    }
  }
}
