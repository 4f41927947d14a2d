/**
 * The smoothing estimators of `tools/algorithms.go`: the rounded mean, the
 * windowed elevation difference and the windowed speed.
 */
module Algorithms {
  import opened Geo

  /**
   * `getMean`: the mean of `values` rounded to the nearest integer. On an
   * empty slice the float64 division `0.0 / 0.0` yields NaN.
   */
  function Mean(values: seq<real>): (m: Real64)
    ensures m.NaN? <==> values == []
    ensures m.Num? ==> m.value == m.value.Floor as real
  {
    if values == [] then NaN else Num(Round(Sum(values) / |values| as real))
  }

  /** The loop of `getMean`, accumulating `total` and dividing once at the end. */
  method GetMean(values: seq<real>) returns (m: Real64)
    ensures m == Mean(values)
  {
    var total := 0.0;
    for i := 0 to |values|
      invariant total == Sum(values[..i])
    {
      assert values[..i + 1][..i] == values[..i];
      total := total + values[i];
    }
    assert values[..|values|] == values;
    if |values| == 0 {
      m := NaN;
    } else {
      m := Num(Round(total / |values| as real));
    }
  }

  /** The mean of one value is that value rounded. */
  lemma MeanOfOne(x: real)
    ensures Mean([x]) == Num(Round(x))
  {
    assert [x][..0] == [];
    assert Sum([x]) == x;
    assert x / 1.0 == x;
  }

  /** A mean is at least the rounded lower bound of the values averaged. */
  lemma MeanAtLeast(values: seq<real>, lo: real)
    requires values != []
    requires forall i :: 0 <= i < |values| ==> lo <= values[i]
    ensures Mean(values).Num? && Round(lo) <= Mean(values).value
  {
    var n := |values| as real;
    SumAtLeast(values, lo);
    var q := Sum(values) / n;
    assert q * n == Sum(values);
    assert (q - lo) * n == Sum(values) - n * lo;
    NonNegativeFactor(q - lo, n);
    RoundMonotone(lo, q);
  }

  /** A mean is at most the rounded upper bound of the values averaged. */
  lemma MeanAtMost(values: seq<real>, hi: real)
    requires values != []
    requires forall i :: 0 <= i < |values| ==> values[i] <= hi
    ensures Mean(values).Num? && Mean(values).value <= Round(hi)
  {
    var n := |values| as real;
    SumAtMost(values, hi);
    var q := Sum(values) / n;
    assert q * n == Sum(values);
    assert (hi - q) * n == n * hi - Sum(values);
    NonNegativeFactor(hi - q, n);
    RoundMonotone(q, hi);
  }

  /** A mean lies between the rounded bounds of the values averaged. */
  lemma MeanBetween(values: seq<real>, lo: real, hi: real)
    requires values != []
    requires forall i :: 0 <= i < |values| ==> lo <= values[i] <= hi
    ensures Mean(values).Num?
    ensures Round(lo) <= Mean(values).value <= Round(hi)
  {
    MeanAtLeast(values, lo);
    MeanAtMost(values, hi);
  }

  lemma NonNegativeFactor(y: real, d: real)
    requires d > 0.0 && y * d >= 0.0
    ensures y >= 0.0
  {
  }

  function Elevations(points: seq<GeoPoint>): (es: seq<real>)
    ensures |es| == |points|
    ensures forall i :: 0 <= i < |points| ==> es[i] == points[i].elevation
  {
    seq(|points|, i requires 0 <= i < |points| => points[i].elevation)
  }

  /**
   * The two neighbourhoods `getElevationDiff` compares: the new point's
   * elevation followed by all but the last window elevation, and every
   * window elevation.
   */
  function LeftElevations(point: GeoPoint, window: seq<GeoPoint>): (l: seq<real>)
    requires |window| >= 1
    ensures |l| == |window|
  {
    [point.elevation] + Elevations(window)[..|window| - 1]
  }

  /**
   * `getElevationDiff(point, points)`: the rounded mean of the left
   * neighbourhood minus the rounded mean of the window. The source slices
   * `[0:len(points)-1]`, which panics on an empty window.
   */
  function ElevationDiff(point: GeoPoint, window: seq<GeoPoint>): (d: real)
    requires |window| >= 1
    ensures d == d.Floor as real
  {
    WholeDifference(Mean(LeftElevations(point, window)).value, Mean(Elevations(window)).value);
    Mean(LeftElevations(point, window)).value - Mean(Elevations(window)).value
  }

  /** The loop of `getElevationDiff` that collects the window's elevations, then the two means. */
  method GetElevationDiff(point: GeoPoint, points: seq<GeoPoint>) returns (d: real)
    requires |points| >= 1
    ensures d == ElevationDiff(point, points)
  {
    var elevationP := point.elevation;
    var elevationPoints := new real[|points|](_ => 0.0);
    for i := 0 to |points|
      invariant forall k :: 0 <= k < i ==> elevationPoints[k] == points[k].elevation
    {
      elevationPoints[i] := points[i].elevation;
    }
    assert elevationPoints[..] == Elevations(points);
    var leftMean := GetMean([elevationP] + elevationPoints[0..|points| - 1]);
    var rightMean := GetMean(elevationPoints[..]);
    d := leftMean.value - rightMean.value;
  }

  /**
   * Before rounding the two neighbourhoods differ by exactly the new point's
   * elevation minus the oldest window point's: every other elevation appears
   * in both.
   */
  lemma LeftMinusRightSum(point: GeoPoint, window: seq<GeoPoint>)
    requires |window| >= 1
    ensures Sum(LeftElevations(point, window)) - Sum(Elevations(window))
            == point.elevation - window[|window| - 1].elevation
  {
    var es := Elevations(window);
    var front := es[..|es| - 1];
    SumAppend([point.elevation], front);
    assert Sum([point.elevation]) == point.elevation by {
      assert [point.elevation][..0] == [];
    }
    assert es[..|es| - 1] == front;
  }

  /**
   * When the new point is as high as the oldest window point, the two
   * neighbourhoods have equal sums and lengths, so the difference is zero;
   * in particular it is zero when every elevation is the same.
   */
  lemma ElevationDiffZero(point: GeoPoint, window: seq<GeoPoint>)
    requires |window| >= 1
    requires point.elevation == window[|window| - 1].elevation
    ensures ElevationDiff(point, window) == 0.0
  {
    LeftMinusRightSum(point, window);
  }

  /**
   * Against a window of one point, as the second point of a file sees it,
   * the difference is that of the two elevations, each rounded.
   */
  lemma ElevationDiffOfOne(point: GeoPoint, q: GeoPoint)
    ensures ElevationDiff(point, [q]) == Round(point.elevation) - Round(q.elevation)
  {
    assert LeftElevations(point, [q]) == [point.elevation];
    assert Elevations([q]) == [q.elevation];
    MeanOfOne(point.elevation);
    MeanOfOne(q.elevation);
  }

  /** `Timestamp.Sub`: the nanoseconds from `b` to `a`. */
  function TimeDiff(a: GeoPoint, b: GeoPoint): int
  {
    a.time - b.time
  }

  /**
   * A pair slot of `getSpeed` is invalid when the distance between the
   * window's newest point and the other point is not positive, or the time
   * from the other point to the newest is not positive.
   */
  predicate InvalidPair(newest: GeoPoint, other: GeoPoint, dist: Distance)
  {
    dist(newest.lat, newest.lon, other.lat, other.lon) <= 0.0 || TimeDiff(newest, other) <= 0
  }

  /** A slot's speed in km/h; an invalid slot keeps the 0 `make` gave it. */
  function PairSpeed(newest: GeoPoint, other: GeoPoint, dist: Distance): (v: real)
    ensures v >= 0.0
    ensures InvalidPair(newest, other, dist) ==> v == 0.0
  {
    if InvalidPair(newest, other, dist) then 0.0
    else
      var d := dist(newest.lat, newest.lon, other.lat, other.lon);
      var secs := Seconds(TimeDiff(newest, other));
      NonNegativeQuotient(d, secs);
      d / secs * 3.6
  }

  lemma NonNegativeQuotient(x: real, y: real)
    requires x > 0.0 && y > 0.0
    ensures x / y > 0.0
  {
    var q := x / y;
    assert q * y == x;
    PositiveFactor(q, y);
  }

  /**
   * The slots of `getSpeed`. `previousPoint` is assigned only at index 0, so
   * slot `i` pairs the window's first (newest) point with point `i + 1`.
   */
  function SpeedSlots(points: seq<GeoPoint>, dist: Distance): (s: seq<real>)
    requires |points| >= 1
    ensures |s| == |points| - 1
    ensures forall i :: 0 <= i < |s| ==> s[i] == PairSpeed(points[0], points[i + 1], dist)
  {
    seq(|points| - 1, i requires 0 <= i < |points| - 1 => PairSpeed(points[0], points[i + 1], dist))
  }

  function InvalidSlots(points: seq<GeoPoint>, dist: Distance): (s: seq<bool>)
    requires |points| >= 1
    ensures |s| == |points| - 1
    ensures forall i :: 0 <= i < |s| ==> (s[i] <==> InvalidPair(points[0], points[i + 1], dist))
  {
    seq(|points| - 1, i requires 0 <= i < |points| - 1 => InvalidPair(points[0], points[i + 1], dist))
  }

  function CountTrue(s: seq<bool>): nat
  {
    if s == [] then 0 else CountTrue(s[..|s| - 1]) + (if s[|s| - 1] then 1 else 0)
  }

  /** At most every slot is invalid; a prefix has at most as many valid slots as the whole. */
  lemma {:induction false} CountTrueBounds(s: seq<bool>, i: nat)
    requires i <= |s|
    ensures CountTrue(s[..i]) <= CountTrue(s) <= |s|
    ensures i - CountTrue(s[..i]) <= |s| - CountTrue(s)
    decreases |s|
  {
    if i < |s| {
      assert s[..|s| - 1][..i] == s[..i];
      CountTrueBounds(s[..|s| - 1], i);
    } else {
      assert s[..i] == s;
      if s != [] {
        CountTrueBounds(s[..|s| - 1], 0);
      }
    }
  }

  /**
   * `getSpeed(points)`: the rounded mean over every slot, invalid slots
   * counted as 0. A one-point window has no slot and its mean is NaN.
   */
  function Speed(points: seq<GeoPoint>, dist: Distance): (r: Real64)
    requires |points| >= 1
    ensures r.NaN? <==> |points| == 1
  {
    Mean(SpeedSlots(points, dist))
  }

  /**
   * One pass of that loop: slot `i - 1` measures the step from the first
   * point to point `i`; an invalid step keeps its zero speed.
   */
  method FillSlot(points: seq<GeoPoint>, dist: Distance, i: nat,
                  speedPoints: array<real>, invalidPoint: array<bool>)
    returns (isInvalid: bool)
    requires 1 <= i < |points|
    requires speedPoints.Length == invalidPoint.Length == |points| - 1
    requires speedPoints[i - 1] == 0.0
    modifies speedPoints, invalidPoint
    ensures isInvalid == InvalidSlots(points, dist)[i - 1]
    ensures speedPoints[i - 1] == SpeedSlots(points, dist)[i - 1]
    ensures invalidPoint[i - 1] == isInvalid
    ensures forall k :: 0 <= k < speedPoints.Length && k != i - 1 ==>
      speedPoints[k] == old(speedPoints[k]) && invalidPoint[k] == old(invalidPoint[k])
  {
    var previousPoint, p := points[0], points[i];
    var distance := dist(previousPoint.lat, previousPoint.lon, p.lat, p.lon);
    var timeDiff := TimeDiff(previousPoint, p);
    SlotOf(points, dist, i - 1);
    if distance <= 0.0 || timeDiff <= 0 {
      invalidPoint[i - 1] := true;
      return true;
    }
    invalidPoint[i - 1] := false;
    speedPoints[i - 1] := distance / Seconds(timeDiff) * 3.6;
    return false;
  }

  /**
   * The first loop of `getSpeed`: fill each slot's speed and invalid flag
   * and count the invalid slots.
   */
  method FillSpeedSlots(points: seq<GeoPoint>, dist: Distance)
    returns (speedPoints: array<real>, invalidPoint: array<bool>, invalidPointCounter: nat)
    requires |points| >= 1
    ensures fresh(speedPoints) && fresh(invalidPoint)
    ensures speedPoints[..] == SpeedSlots(points, dist)
    ensures invalidPoint[..] == InvalidSlots(points, dist)
    ensures invalidPointCounter == CountTrue(InvalidSlots(points, dist))
  {
    var n := |points| - 1;
    speedPoints := new real[n](_ => 0.0);
    invalidPoint := new bool[n](_ => false);
    invalidPointCounter := 0;
    ghost var slots, invalid := SpeedSlots(points, dist), InvalidSlots(points, dist);

    for i := 1 to |points|
      invariant forall k :: 0 <= k < i - 1 ==> speedPoints[k] == slots[k]
      invariant forall k :: 0 <= k < i - 1 ==> invalidPoint[k] == invalid[k]
      invariant forall k :: i - 1 <= k < n ==> speedPoints[k] == 0.0
      invariant invalidPointCounter == CountTrue(invalid[..i - 1])
    {
      var isInvalid := FillSlot(points, dist, i, speedPoints, invalidPoint);
      assert invalid[..i] == invalid[..i - 1] + [invalid[i - 1]];
      if isInvalid {
        invalidPointCounter := invalidPointCounter + 1;
      }
    }
    assert invalid[..n] == invalid;
  }

  /** Slot `j` as the first loop of `getSpeed` computes it from the pair's distance and time difference. */
  lemma SlotOf(points: seq<GeoPoint>, dist: Distance, j: nat)
    requires j + 1 < |points|
    ensures var p, q := points[0], points[j + 1];
      var d, t := dist(p.lat, p.lon, q.lat, q.lon), TimeDiff(p, q);
      && InvalidSlots(points, dist)[j] == (d <= 0.0 || t <= 0)
      && SpeedSlots(points, dist)[j] == if d <= 0.0 || t <= 0 then 0.0 else d / Seconds(t) * 3.6
  {
  }

  /**
   * The second loop of `getSpeed`: copy the valid slots' speeds, in order,
   * into a list sized by the invalid count.
   */
  method CollectValidSpeeds(speedPoints: array<real>, invalidPoint: array<bool>, invalidPointCounter: nat)
    returns (newSpeedPoints: array<real>)
    requires speedPoints.Length == invalidPoint.Length
    requires invalidPointCounter == CountTrue(invalidPoint[..])
    ensures fresh(newSpeedPoints)
    ensures newSpeedPoints[..] == ValidOf(speedPoints[..], invalidPoint[..])
  {
    var n := speedPoints.Length;
    ghost var slots, invalid := speedPoints[..], invalidPoint[..];
    CountTrueBounds(invalid, 0);
    newSpeedPoints := new real[n - invalidPointCounter](_ => 0.0);
    var j := 0;
    for i := 0 to n
      invariant j == i - CountTrue(invalid[..i]) <= newSpeedPoints.Length
      invariant newSpeedPoints[..j] == ValidOf(slots[..i], invalid[..i])
    {
      ValidOfPrefix(slots, invalid, i);
      CountTrueBounds(invalid, i + 1);
      if invalidPoint[i] {
        continue;
      }
      ghost var before := newSpeedPoints[..j];
      newSpeedPoints[j] := speedPoints[i];
      assert newSpeedPoints[..j + 1] == before + [slots[i]];
      j := j + 1;
    }
    assert slots[..n] == slots && invalid[..n] == invalid;
  }

  /** One more slot extends the invalid count and the filtered list by that slot. */
  lemma ValidOfPrefix(slots: seq<real>, invalid: seq<bool>, i: nat)
    requires |slots| == |invalid| && i < |slots|
    ensures CountTrue(invalid[..i + 1]) == CountTrue(invalid[..i]) + (if invalid[i] then 1 else 0)
    ensures ValidOf(slots[..i + 1], invalid[..i + 1])
            == if invalid[i] then ValidOf(slots[..i], invalid[..i])
               else ValidOf(slots[..i], invalid[..i]) + [slots[i]]
  {
    assert slots[..i + 1][..i] == slots[..i];
    assert invalid[..i + 1][..i] == invalid[..i];
  }

  /**
   * `getSpeed` as written: fill the slots, build the filtered list of valid
   * speeds only when some but not all slots are invalid, never use it, and
   * return the mean over all slots. The source's `make` panics on an empty
   * window.
   */
  method GetSpeed(points: seq<GeoPoint>, dist: Distance) returns (speed: Real64)
    requires |points| >= 1
    ensures speed == Speed(points, dist)
  {
    var speedPoints, invalidPoint, invalidPointCounter := FillSpeedSlots(points, dist);
    if invalidPointCounter < speedPoints.Length && invalidPointCounter > 0 {
      var newSpeedPoints := CollectValidSpeeds(speedPoints, invalidPoint, invalidPointCounter);
    }
    speed := GetMean(speedPoints[..]);
  }

  /**
   * With two or more points every slot is at least 0, so the speed is a
   * number and not negative.
   */
  lemma SpeedNonNegative(points: seq<GeoPoint>, dist: Distance)
    requires |points| >= 2
    ensures Speed(points, dist).Num? && Speed(points, dist).value >= 0.0
  {
    MeanAtLeast(SpeedSlots(points, dist), 0.0);
    assert Round(0.0) == 0.0;
  }

  /** A one-point window has no pair slot: its speed is NaN. */
  lemma SpeedOfOnePoint(p: GeoPoint, dist: Distance)
    ensures Speed([p], dist) == NaN
  {
  }

  /**
   * The valid slots' speeds, in order: the filtered list `getSpeed` builds
   * and then drops.
   */
  function ValidSpeeds(points: seq<GeoPoint>, dist: Distance): seq<real>
    requires |points| >= 1
  {
    ValidOf(SpeedSlots(points, dist), InvalidSlots(points, dist))
  }

  function ValidOf(slots: seq<real>, invalid: seq<bool>): (v: seq<real>)
    requires |slots| == |invalid|
    ensures |v| == |slots| - CountTrue(invalid)
  {
    if slots == [] then []
    else
      var rest := ValidOf(slots[..|slots| - 1], invalid[..|invalid| - 1]);
      if invalid[|invalid| - 1] then rest else rest + [slots[|slots| - 1]]
  }

  /** Every speed in the filtered list is the speed of a valid slot. */
  lemma {:induction false} ValidOfMembers(slots: seq<real>, invalid: seq<bool>)
    requires |slots| == |invalid|
    ensures forall x :: x in ValidOf(slots, invalid) ==> exists i :: 0 <= i < |slots| && !invalid[i] && slots[i] == x
  {
    if slots != [] {
      var n := |slots| - 1;
      ValidOfMembers(slots[..n], invalid[..n]);
    }
  }

  /** Every slot is invalid exactly when the count of invalid slots is the number of slots. */
  lemma {:induction false} CountTrueAll(s: seq<bool>)
    ensures CountTrue(s) == |s| <==> forall i :: 0 <= i < |s| ==> s[i]
  {
    if s != [] {
      var n := |s| - 1;
      CountTrueAll(s[..n]);
      CountTrueBounds(s[..n], 0);
      assert forall i :: 0 <= i < n ==> s[..n][i] == s[i];
    }
  }

  /**
   * The speed `getSpeed` evidently means to return: the rounded mean of the
   * valid slots only (the list it builds and then drops), NaN when there is
   * none.
   */
  function CorrectedSpeed(points: seq<GeoPoint>, dist: Distance): Real64
    requires |points| >= 1
  {
    Mean(ValidSpeeds(points, dist))
  }

  /**
   * The corrected speed leaves excluded pairs out of the mean: it is NaN
   * exactly when every pair is excluded, and otherwise lies between the
   * rounded bounds of the valid pairs' speeds.
   */
  lemma CorrectedSpeedIgnoresInvalid(points: seq<GeoPoint>, dist: Distance, lo: real, hi: real)
    requires |points| >= 1
    requires forall i :: 1 <= i < |points| && !InvalidPair(points[0], points[i], dist) ==>
      lo <= PairSpeed(points[0], points[i], dist) <= hi
    ensures CorrectedSpeed(points, dist).NaN? <==> forall i :: 1 <= i < |points| ==> InvalidPair(points[0], points[i], dist)
    ensures CorrectedSpeed(points, dist).Num? ==> Round(lo) <= CorrectedSpeed(points, dist).value <= Round(hi)
  {
    var slots, invalid := SpeedSlots(points, dist), InvalidSlots(points, dist);
    var v := ValidSpeeds(points, dist);
    CountTrueAll(invalid);
    ValidOfMembers(slots, invalid);
    if (forall i :: 1 <= i < |points| ==> InvalidPair(points[0], points[i], dist)) {
      assert forall i :: 0 <= i < |invalid| ==> invalid[i];
    } else {
      var i :| 1 <= i < |points| && !InvalidPair(points[0], points[i], dist);
      assert !invalid[i - 1];
    }
    if v != [] {
      forall k | 0 <= k < |v| ensures lo <= v[k] <= hi {
        assert v[k] in v;
        var i :| 0 <= i < |slots| && !invalid[i] && slots[i] == v[k];
      }
      MeanBetween(v, lo, hi);
    }
  }

  /**
   * Three points 10 m apart, the middle one a second older than the newest
   * and the last as old as the newest: the first pair runs at 36 km/h and
   * the second is excluded, yet `getSpeed` averages it in as 0 and returns
   * 18, where the valid pairs alone give 36.
   */
  lemma SpeedAveragesExcludedAsZero()
    ensures var p0, p1, p2 := GeoPoint(0.0, 0.0, 0.0, 2 * NanosPerSecond),
                              GeoPoint(0.0, 0.001, 0.0, NanosPerSecond),
                              GeoPoint(0.0, 0.002, 0.0, 2 * NanosPerSecond);
      var dist := (a: real, b: real, c: real, d: real) => 10.0;
      && !InvalidPair(p0, p1, dist) && InvalidPair(p0, p2, dist)
      && Speed([p0, p1, p2], dist) == Num(18.0)
      && CorrectedSpeed([p0, p1, p2], dist) == Num(36.0)
  {
    var p0, p1, p2 := GeoPoint(0.0, 0.0, 0.0, 2 * NanosPerSecond),
                      GeoPoint(0.0, 0.001, 0.0, NanosPerSecond),
                      GeoPoint(0.0, 0.002, 0.0, 2 * NanosPerSecond);
    var dist := (a: real, b: real, c: real, d: real) => 10.0;
    var points := [p0, p1, p2];
    assert Seconds(TimeDiff(p0, p1)) == 1.0;
    assert PairSpeed(p0, p1, dist) == 36.0;
    var slots := SpeedSlots(points, dist);
    assert slots == [36.0, 0.0];
    assert Sum(slots) == 36.0 by {
      assert slots[..1] == [36.0];
      assert [36.0][..0] == [];
    }
    RoundWhole(18);
    assert InvalidSlots(points, dist) == [false, true];
    assert ValidSpeeds(points, dist) == [36.0] by {
      assert [36.0, 0.0][..1] == [36.0] && [false, true][..1] == [false];
      assert [36.0][..0] == [] && [false][..0] == [];
    }
    MeanOfOne(36.0);
    RoundWhole(36);
  }
}
