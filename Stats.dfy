/**
 * The one-pass analyser `getStats` of `tools/stats.go`. It walks tracks,
 * segments and points in order through one window of the last three points
 * (shared by every segment and never reset). For each point after the first
 * of its segment it records the maximum windowed speed, the steepest up- and
 * down-slopes, each with the point where it happened, and whether any such
 * point lies before the Unix epoch.
 */
module Stats {
  import opened Geo
  import opened Track
  import opened Queues
  import opened Algorithms

  /** The capacity of the analyser's window. */
  const WindowSize: nat := 3

  /** The `stats` record. */
  datatype Stats = Stats(
    invalidTime: bool,
    maxSpeed: real, maxSpeedPoint: Location,
    maxUpSlope: real, maxUpSlopePoint: Location,
    maxDownSlope: real, maxDownSlopePoint: Location)

  /** The record `getStats` starts from. */
  function NewStats(): Stats
  {
    Stats(false, 0.0, Origin, 0.0, Origin, -100.0, Origin)
  }

  /** The slope taken at a point, against the window of the points before it. */
  function SlopeAgainst(window: seq<GeoPoint>, point: GeoPoint, dist: Distance): Option<real>
    requires window != []
  {
    var lastPoint := window[|window| - 1];
    Slope(ElevationDiff(point, window), dist(point.lat, point.lon, lastPoint.lat, lastPoint.lon))
  }

  /**
   * A slope against the window is never zero, stays strictly between -100
   * and 100, and is negative exactly when the point lies below the window.
   */
  lemma SlopeAgainstRange(window: seq<GeoPoint>, point: GeoPoint, dist: Distance)
    requires window != []
    ensures var r := SlopeAgainst(window, point, dist);
      r.Some? ==>
        && r.value != 0.0 && -100.0 < r.value < 100.0
        && (r.value < 0.0 <==> ElevationDiff(point, window) < 0.0)
  {
  }

  /**
   * The updates `getStats` makes for a point that is not the first of its
   * segment, given the window before the point is pushed.
   */
  function Visit(st: Stats, window: seq<GeoPoint>, point: GeoPoint, dist: Distance): (r: Stats)
    requires window != []
    ensures r.invalidTime <==> st.invalidTime || Unix(point.time) < 0
    ensures r.maxSpeed >= st.maxSpeed
    ensures r.maxSpeedPoint != st.maxSpeedPoint ==> r.maxSpeed > st.maxSpeed
    ensures r.maxSpeed > st.maxSpeed ==> Speed(window, dist) == Num(r.maxSpeed) && r.maxSpeedPoint == Loc(point)
    ensures Speed(window, dist).Num? ==> r.maxSpeed >= Speed(window, dist).value
    ensures r.maxUpSlope >= st.maxUpSlope
    ensures r.maxUpSlope != st.maxUpSlope || r.maxUpSlopePoint != st.maxUpSlopePoint
            ==> r.maxUpSlope > st.maxUpSlope && SlopeAgainst(window, point, dist) == Some(r.maxUpSlope)
                && r.maxUpSlopePoint == Loc(point)
    ensures r.maxDownSlope <= st.maxDownSlope
    ensures r.maxDownSlope != st.maxDownSlope || r.maxDownSlopePoint != st.maxDownSlopePoint
            ==> r.maxDownSlope < st.maxDownSlope && SlopeAgainst(window, point, dist) == Some(r.maxDownSlope)
                && r.maxDownSlopePoint == Loc(point)
    ensures SlopeAgainst(window, point, dist).Some? ==>
              var s := SlopeAgainst(window, point, dist).value;
              (s < 0.0 ==> r.maxDownSlope <= s) && (s > 0.0 ==> r.maxUpSlope >= s)
  {
    var st := RecordTime(st, point);
    var st := RecordSpeed(st, Speed(window, dist), point);
    RecordSlope(st, SlopeAgainst(window, point, dist), point)
  }

  /** A point before the epoch marks the file's time as invalid, for good. */
  function RecordTime(st: Stats, point: GeoPoint): (r: Stats)
    ensures r.invalidTime <==> st.invalidTime || Unix(point.time) < 0
    ensures r.(invalidTime := st.invalidTime) == st
  {
    if Unix(point.time) < 0 then st.(invalidTime := true) else st
  }

  /** A windowed speed above the record replaces it; a NaN speed never does. */
  function RecordSpeed(st: Stats, curSpeed: Real64, point: GeoPoint): (r: Stats)
    ensures r.maxSpeed >= st.maxSpeed
    ensures curSpeed.Num? ==> r.maxSpeed >= curSpeed.value
    ensures r == st || (r.maxSpeed > st.maxSpeed && curSpeed == Num(r.maxSpeed)
                        && r == st.(maxSpeed := r.maxSpeed, maxSpeedPoint := Loc(point)))
  {
    if Exceeds(curSpeed, st.maxSpeed) then st.(maxSpeed := curSpeed.value, maxSpeedPoint := Loc(point)) else st
  }

  /**
   * A negative slope below the down-slope record replaces it; any other
   * slope above the up-slope record replaces that.
   */
  function RecordSlope(st: Stats, slope: Option<real>, point: GeoPoint): (r: Stats)
    ensures r.maxDownSlope <= st.maxDownSlope && r.maxUpSlope >= st.maxUpSlope
    ensures slope.Some? && slope.value < 0.0 ==> r.maxDownSlope <= slope.value
    ensures slope.Some? && slope.value > 0.0 ==> r.maxUpSlope >= slope.value
    ensures || r == st
            || (slope.Some? && r == st.(maxDownSlope := slope.value, maxDownSlopePoint := Loc(point)))
            || (slope.Some? && r == st.(maxUpSlope := slope.value, maxUpSlopePoint := Loc(point)))
  {
    match slope
    case None => st
    case Some(s) =>
      if s < 0.0 then
        if st.maxDownSlope > s then st.(maxDownSlope := s, maxDownSlopePoint := Loc(point)) else st
      else
        if s > st.maxUpSlope then st.(maxUpSlope := s, maxUpSlopePoint := Loc(point)) else st
  }

  /** The window and the record between two visits of the innermost loop. */
  datatype Analysis = Analysis(window: seq<GeoPoint>, stats: Stats)

  /**
   * One visit: the first point of a segment is only pushed; any other point
   * updates the record against the window, then is pushed.
   */
  function Step(a: Analysis, e: Entry, dist: Distance): (r: Analysis)
    requires e.first || a.window != []
    ensures r.window == PushOnto(a.window, e.point, WindowSize)
    ensures e.first ==> r.stats == a.stats
  {
    var stats := if e.first then a.stats else Visit(a.stats, a.window, e.point, dist);
    Analysis(PushOnto(a.window, e.point, WindowSize), stats)
  }

  /**
   * The visits of `es`, in order, from `a`. A non-first visit needs a point in
   * the window (the source dereferences the queue's tail), which holds when
   * the stream opens with a segment's first point.
   */
  function Run(a: Analysis, es: seq<Entry>, dist: Distance): (r: Analysis)
    requires a.window != [] || StartsSegment(es)
    ensures es != [] ==> r.window != []
    decreases |es|
  {
    if es == [] then a
    else Step(Run(a, es[..|es| - 1], dist), es[|es| - 1], dist)
  }

  /** The window after a run is every visited point pushed, in order, onto the starting window. */
  lemma {:induction false} RunWindow(a: Analysis, es: seq<Entry>, dist: Distance)
    requires a.window != [] || StartsSegment(es)
    ensures Run(a, es, dist).window == PushAll(a.window, Points(es), WindowSize)
    decreases |es|
  {
    if es != [] {
      var prefix := es[..|es| - 1];
      RunWindow(a, prefix, dist);
      assert Points(prefix) == Points(es)[..|es| - 1];
    }
  }

  /** Visiting one more entry is one more step. */
  lemma RunSnoc(a: Analysis, es: seq<Entry>, e: Entry, dist: Distance)
    requires a.window != [] || StartsSegment(es)
    requires es != [] || a.window != [] || e.first
    ensures StartsSegment(es + [e]) || a.window != []
    ensures Run(a, es + [e], dist) == Step(Run(a, es, dist), e, dist)
  {
    assert (es + [e])[..|es|] == es;
  }

  /** The record left after analysing a whole file from `start`. */
  function Analyse(start: Stats, tracks: seq<GpxTrack>, dist: Distance): Stats
  {
    Run(Analysis([], start), FileEntries(tracks), dist).stats
  }

  /** The window a visit sees: every point visited before it pushed onto the starting window. */
  function WindowAt(w: seq<GeoPoint>, es: seq<Entry>, k: nat): (window: seq<GeoPoint>)
    requires k < |es| && (w != [] || StartsSegment(es)) && !es[k].first
    ensures window != []
  {
    PushAll(w, Points(es[..k]), WindowSize)
  }

  /** The slope taken at visit `k` of `es`, if any. */
  function SlopeAt(w: seq<GeoPoint>, es: seq<Entry>, k: nat, dist: Distance): Option<real>
    requires k < |es| && (w != [] || StartsSegment(es)) && !es[k].first
  {
    SlopeAgainst(WindowAt(w, es, k), es[k].point, dist)
  }

  /**
   * Across any run the speed and up-slope records never fall, the down-slope
   * record never rises, and an invalid time stays invalid. No slope reaches
   * 100 in magnitude, so an up-slope record below 100 stays below 100 and a
   * down-slope record at -100 or below is never replaced.
   */
  lemma {:induction false} RunMonotone(a: Analysis, es: seq<Entry>, dist: Distance)
    requires a.window != [] || StartsSegment(es)
    ensures var r := Run(a, es, dist).stats;
      && r.maxSpeed >= a.stats.maxSpeed
      && r.maxUpSlope >= a.stats.maxUpSlope
      && r.maxDownSlope <= a.stats.maxDownSlope
      && (a.stats.invalidTime ==> r.invalidTime)
      && (a.stats.maxUpSlope < 100.0 ==> r.maxUpSlope < 100.0)
      && (a.stats.maxDownSlope <= -100.0 ==>
            r.maxDownSlope == a.stats.maxDownSlope && r.maxDownSlopePoint == a.stats.maxDownSlopePoint)
    decreases |es|
  {
    if es != [] {
      var prefix := es[..|es| - 1];
      RunMonotone(a, prefix, dist);
      assert Run(a, es, dist) == Step(Run(a, prefix, dist), es[|es| - 1], dist);
    }
  }

  /** Some visited point that is not the first of its segment lies before the epoch. */
  ghost predicate EarlyPoint(es: seq<Entry>)
  {
    exists k :: 0 <= k < |es| && !es[k].first && Unix(es[k].point.time) < 0
  }

  /**
   * After a run the time is invalid exactly when it was already, or some
   * visited point that is not the first of its segment lies before the epoch.
   */
  lemma {:induction false} RunInvalidTime(a: Analysis, es: seq<Entry>, dist: Distance)
    requires a.window != [] || StartsSegment(es)
    ensures Run(a, es, dist).stats.invalidTime <==> a.stats.invalidTime || EarlyPoint(es)
    decreases |es|
  {
    if es != [] {
      var n := |es| - 1;
      var prefix := es[..n];
      RunInvalidTime(a, prefix, dist);
      assert Run(a, es, dist) == Step(Run(a, prefix, dist), es[n], dist);
      StepInvalidTime(Run(a, prefix, dist), es[n], dist);
      EarlyPointSnoc(es);
    }
  }

  /** A stream has an early point exactly when its prefix has one or its last visit is one. */
  lemma EarlyPointSnoc(es: seq<Entry>)
    requires es != []
    ensures var n := |es| - 1;
      EarlyPoint(es) <==> EarlyPoint(es[..n]) || (!es[n].first && Unix(es[n].point.time) < 0)
  {
    var n := |es| - 1;
    var prefix := es[..n];
    if EarlyPoint(es) {
      var k :| 0 <= k < |es| && !es[k].first && Unix(es[k].point.time) < 0;
      if k < n {
        assert prefix[k] == es[k];
      }
    }
    if EarlyPoint(prefix) {
      var k :| 0 <= k < |prefix| && !prefix[k].first && Unix(prefix[k].point.time) < 0;
      assert es[k] == prefix[k];
    }
  }

  /** One visit marks the time invalid exactly when it was, or the visit is of a point after the first and before the epoch. */
  lemma StepInvalidTime(b: Analysis, e: Entry, dist: Distance)
    requires e.first || b.window != []
    ensures Step(b, e, dist).stats.invalidTime <==> b.stats.invalidTime || (!e.first && Unix(e.point.time) < 0)
  {
    if !e.first {
      assert Step(b, e, dist).stats == Visit(b.stats, b.window, e.point, dist);
    }
  }

  /**
   * Every slope taken during a run is bounded by the records after it: a
   * negative one from below by the down-slope record, a positive one from
   * above by the up-slope record.
   */
  lemma {:induction false} RunDominatesSlopes(a: Analysis, es: seq<Entry>, dist: Distance, k: nat)
    requires a.window != [] || StartsSegment(es)
    requires k < |es| && !es[k].first && SlopeAt(a.window, es, k, dist).Some?
    ensures var s, r := SlopeAt(a.window, es, k, dist).value, Run(a, es, dist).stats;
      (s < 0.0 ==> r.maxDownSlope <= s) && (s > 0.0 ==> r.maxUpSlope >= s)
    decreases |es|
  {
    if k < |es| - 1 {
      SlopeBoundCarries(a, es, dist, k);
      RunDominatesSlopes(a, es[..|es| - 1], dist, k);
    } else {
      RunDominatesLast(a, es, dist);
    }
  }

  /**
   * A slope taken before the last visit of a run is taken in the run's
   * prefix too, and a bound it keeps against the prefix's records it keeps
   * against the whole run's.
   */
  lemma SlopeBoundCarries(a: Analysis, es: seq<Entry>, dist: Distance, k: nat)
    requires a.window != [] || StartsSegment(es)
    requires k < |es| - 1 && !es[k].first && SlopeAt(a.window, es, k, dist).Some?
    ensures a.window != [] || StartsSegment(es[..|es| - 1])
    ensures es[..|es| - 1][k] == es[k]
    ensures SlopeAt(a.window, es[..|es| - 1], k, dist) == SlopeAt(a.window, es, k, dist)
    ensures var s, b, r := SlopeAt(a.window, es, k, dist).value, Run(a, es[..|es| - 1], dist).stats, Run(a, es, dist).stats;
      (s < 0.0 ==> b.maxDownSlope <= s) && (s > 0.0 ==> b.maxUpSlope >= s) ==>
      (s < 0.0 ==> r.maxDownSlope <= s) && (s > 0.0 ==> r.maxUpSlope >= s)
  {
    SlopeAtOfPrefix(a.window, es, |es| - 1, k, dist);
    RunLastMonotone(a, es, dist);
  }

  /** The last visit of a run never raises the down-slope record nor lowers the up-slope or speed record. */
  lemma RunLastMonotone(a: Analysis, es: seq<Entry>, dist: Distance)
    requires a.window != [] || StartsSegment(es)
    requires es != []
    ensures StartsSegment(es) ==> StartsSegment(es[..|es| - 1])
    ensures var r, b := Run(a, es, dist).stats, Run(a, es[..|es| - 1], dist).stats;
      r.maxDownSlope <= b.maxDownSlope && r.maxUpSlope >= b.maxUpSlope && r.maxSpeed >= b.maxSpeed
  {
    var n := |es| - 1;
    var before := Run(a, es[..n], dist);
    assert Run(a, es, dist) == Step(before, es[n], dist);
    StepMonotone(before, es[n], dist);
  }

  /** The slope taken at the last visit of a run is within the records the run leaves. */
  lemma RunDominatesLast(a: Analysis, es: seq<Entry>, dist: Distance)
    requires a.window != [] || StartsSegment(es)
    requires es != [] && !es[|es| - 1].first && SlopeAt(a.window, es, |es| - 1, dist).Some?
    ensures var s, r := SlopeAt(a.window, es, |es| - 1, dist).value, Run(a, es, dist).stats;
      (s < 0.0 ==> r.maxDownSlope <= s) && (s > 0.0 ==> r.maxUpSlope >= s)
  {
    var n := |es| - 1;
    var before := Run(a, es[..n], dist);
    assert Run(a, es, dist) == Step(before, es[n], dist);
    RunWindow(a, es[..n], dist);
    StepDominates(before, es[n], dist);
  }

  /** One visit never raises the down-slope record nor lowers the up-slope or speed record. */
  lemma StepMonotone(b: Analysis, e: Entry, dist: Distance)
    requires e.first || b.window != []
    ensures Step(b, e, dist).stats.maxSpeed >= b.stats.maxSpeed
    ensures Step(b, e, dist).stats.maxDownSlope <= b.stats.maxDownSlope
    ensures Step(b, e, dist).stats.maxUpSlope >= b.stats.maxUpSlope
  {
    if !e.first {
      assert Step(b, e, dist).stats == Visit(b.stats, b.window, e.point, dist);
    }
  }

  /** The speed and slope a visit takes are within the records the visit leaves. */
  lemma StepDominates(b: Analysis, e: Entry, dist: Distance)
    requires !e.first && b.window != []
    ensures Speed(b.window, dist).Num? ==> Step(b, e, dist).stats.maxSpeed >= Speed(b.window, dist).value
    ensures var r := Step(b, e, dist).stats;
      SlopeAgainst(b.window, e.point, dist).Some? ==>
        var s := SlopeAgainst(b.window, e.point, dist).value;
        (s < 0.0 ==> r.maxDownSlope <= s) && (s > 0.0 ==> r.maxUpSlope >= s)
  {
    assert Step(b, e, dist).stats == Visit(b.stats, b.window, e.point, dist);
  }

  /** The visit at `k` of `es` takes a slope of `v` at its point. */
  predicate SlopeRecordedAt(w: seq<GeoPoint>, es: seq<Entry>, k: int, dist: Distance, v: real, at: Location)
    requires w != [] || StartsSegment(es)
  {
    0 <= k < |es| && !es[k].first && SlopeAt(w, es, k, dist) == Some(v) && at == Loc(es[k].point)
  }

  /** A slope taken in a prefix of a run is taken at the same visit of the whole run. */
  lemma SlopeAtPrefix(w: seq<GeoPoint>, es: seq<Entry>, n: nat, dist: Distance)
    requires w != [] || StartsSegment(es)
    requires n <= |es|
    ensures w != [] || StartsSegment(es[..n])
    ensures forall k, v, at :: SlopeRecordedAt(w, es[..n], k, dist, v, at) ==> SlopeRecordedAt(w, es, k, dist, v, at)
  {
    forall k, v, at | SlopeRecordedAt(w, es[..n], k, dist, v, at)
      ensures SlopeRecordedAt(w, es, k, dist, v, at)
    {
      SlopeAtOfPrefix(w, es, n, k, dist);
    }
  }

  /** A visit in a prefix of a run sees the same window, so takes the same slope, as in the whole run. */
  lemma SlopeAtOfPrefix(w: seq<GeoPoint>, es: seq<Entry>, n: nat, k: nat, dist: Distance)
    requires w != [] || StartsSegment(es)
    requires k < n <= |es| && !es[k].first
    ensures w != [] || StartsSegment(es[..n])
    ensures es[..n][k] == es[k]
    ensures SlopeAt(w, es[..n], k, dist) == SlopeAt(w, es, k, dist)
  {
    assert es[..n][..k] == es[..k];
  }

  /**
   * The down-slope record either keeps its starting value and point, or is
   * the slope of some visit, recorded with that visit's point.
   */
  lemma {:induction false} RunDownSlopeAttained(a: Analysis, es: seq<Entry>, dist: Distance)
    requires a.window != [] || StartsSegment(es)
    ensures var r := Run(a, es, dist).stats;
      (r.maxDownSlope == a.stats.maxDownSlope && r.maxDownSlopePoint == a.stats.maxDownSlopePoint)
      || exists k :: SlopeRecordedAt(a.window, es, k, dist, r.maxDownSlope, r.maxDownSlopePoint)
    decreases |es|
  {
    if es != [] {
      var n := |es| - 1;
      var prefix := es[..n];
      RunDownSlopeAttained(a, prefix, dist);
      SlopeAtPrefix(a.window, es, n, dist);
      var before, r := Run(a, prefix, dist), Run(a, es, dist).stats;
      assert Run(a, es, dist) == Step(before, es[n], dist);
      if !es[n].first && (r.maxDownSlope != before.stats.maxDownSlope || r.maxDownSlopePoint != before.stats.maxDownSlopePoint) {
        RunWindow(a, prefix, dist);
        assert es[..n] == prefix;
        assert SlopeAt(a.window, es, n, dist) == SlopeAgainst(before.window, es[n].point, dist);
        assert SlopeRecordedAt(a.window, es, n, dist, r.maxDownSlope, r.maxDownSlopePoint);
      }
    }
  }

  /**
   * The up-slope record either keeps its starting value and point, or is
   * the slope of some visit, recorded with that visit's point.
   */
  lemma {:induction false} RunUpSlopeAttained(a: Analysis, es: seq<Entry>, dist: Distance)
    requires a.window != [] || StartsSegment(es)
    ensures var r := Run(a, es, dist).stats;
      (r.maxUpSlope == a.stats.maxUpSlope && r.maxUpSlopePoint == a.stats.maxUpSlopePoint)
      || exists k :: SlopeRecordedAt(a.window, es, k, dist, r.maxUpSlope, r.maxUpSlopePoint)
    decreases |es|
  {
    if es != [] {
      var n := |es| - 1;
      var prefix := es[..n];
      RunUpSlopeAttained(a, prefix, dist);
      SlopeAtPrefix(a.window, es, n, dist);
      var before, r := Run(a, prefix, dist), Run(a, es, dist).stats;
      assert Run(a, es, dist) == Step(before, es[n], dist);
      if !es[n].first && (r.maxUpSlope != before.stats.maxUpSlope || r.maxUpSlopePoint != before.stats.maxUpSlopePoint) {
        RunWindow(a, prefix, dist);
        assert es[..n] == prefix;
        assert SlopeAt(a.window, es, n, dist) == SlopeAgainst(before.window, es[n].point, dist);
        assert SlopeRecordedAt(a.window, es, n, dist, r.maxUpSlope, r.maxUpSlopePoint);
      }
    }
  }

  /** The windowed speed taken at visit `k` of `es`; NaN for a window of one point. */
  function SpeedAt(w: seq<GeoPoint>, es: seq<Entry>, k: nat, dist: Distance): Real64
    requires k < |es| && (w != [] || StartsSegment(es)) && !es[k].first
  {
    Speed(WindowAt(w, es, k), dist)
  }

  /** Every windowed speed taken is at most the speed record after the run. */
  lemma {:induction false} RunDominatesSpeed(a: Analysis, es: seq<Entry>, dist: Distance, k: nat)
    requires a.window != [] || StartsSegment(es)
    requires k < |es| && !es[k].first && SpeedAt(a.window, es, k, dist).Num?
    ensures Run(a, es, dist).stats.maxSpeed >= SpeedAt(a.window, es, k, dist).value
    decreases |es|
  {
    if k < |es| - 1 {
      SpeedBoundCarries(a, es, dist, k);
      RunDominatesSpeed(a, es[..|es| - 1], dist, k);
    } else {
      RunDominatesSpeedLast(a, es, dist);
    }
  }

  /**
   * A speed taken before the last visit of a run is taken in the run's
   * prefix too, and a bound the prefix's speed record keeps on it the whole
   * run's record keeps.
   */
  lemma SpeedBoundCarries(a: Analysis, es: seq<Entry>, dist: Distance, k: nat)
    requires a.window != [] || StartsSegment(es)
    requires k < |es| - 1 && !es[k].first && SpeedAt(a.window, es, k, dist).Num?
    ensures a.window != [] || StartsSegment(es[..|es| - 1])
    ensures es[..|es| - 1][k] == es[k]
    ensures SpeedAt(a.window, es[..|es| - 1], k, dist) == SpeedAt(a.window, es, k, dist)
    ensures Run(a, es[..|es| - 1], dist).stats.maxSpeed >= SpeedAt(a.window, es, k, dist).value ==>
      Run(a, es, dist).stats.maxSpeed >= SpeedAt(a.window, es, k, dist).value
  {
    SpeedAtOfPrefix(a.window, es, |es| - 1, k, dist);
    RunLastMonotone(a, es, dist);
  }

  /** The windowed speed taken at the last visit of a run is at most the speed record the run leaves. */
  lemma RunDominatesSpeedLast(a: Analysis, es: seq<Entry>, dist: Distance)
    requires a.window != [] || StartsSegment(es)
    requires es != [] && !es[|es| - 1].first && SpeedAt(a.window, es, |es| - 1, dist).Num?
    ensures Run(a, es, dist).stats.maxSpeed >= SpeedAt(a.window, es, |es| - 1, dist).value
  {
    var n := |es| - 1;
    var before := Run(a, es[..n], dist);
    assert Run(a, es, dist) == Step(before, es[n], dist);
    RunWindow(a, es[..n], dist);
    StepDominates(before, es[n], dist);
  }

  /** The visit at `k` of `es` takes a windowed speed of `v` at its point. */
  predicate SpeedRecordedAt(w: seq<GeoPoint>, es: seq<Entry>, k: int, dist: Distance, v: real, at: Location)
    requires w != [] || StartsSegment(es)
  {
    0 <= k < |es| && !es[k].first && SpeedAt(w, es, k, dist) == Num(v) && at == Loc(es[k].point)
  }

  /** A visit in a prefix of a run sees the same window, so takes the same speed, as in the whole run. */
  lemma SpeedAtOfPrefix(w: seq<GeoPoint>, es: seq<Entry>, n: nat, k: nat, dist: Distance)
    requires w != [] || StartsSegment(es)
    requires k < n <= |es| && !es[k].first
    ensures w != [] || StartsSegment(es[..n])
    ensures es[..n][k] == es[k]
    ensures SpeedAt(w, es[..n], k, dist) == SpeedAt(w, es, k, dist)
  {
    assert es[..n][..k] == es[..k];
  }

  /** A speed taken in a prefix of a run is taken at the same visit of the whole run. */
  lemma SpeedAtPrefix(w: seq<GeoPoint>, es: seq<Entry>, n: nat, dist: Distance)
    requires w != [] || StartsSegment(es)
    requires n <= |es|
    ensures w != [] || StartsSegment(es[..n])
    ensures forall k, v, at :: SpeedRecordedAt(w, es[..n], k, dist, v, at) ==> SpeedRecordedAt(w, es, k, dist, v, at)
  {
    forall k, v, at | SpeedRecordedAt(w, es[..n], k, dist, v, at)
      ensures SpeedRecordedAt(w, es, k, dist, v, at)
    {
      SpeedAtOfPrefix(w, es, n, k, dist);
    }
  }

  /**
   * The speed record either keeps its starting value and point, or is the
   * windowed speed of some visit, recorded with that visit's point.
   */
  lemma {:induction false} RunSpeedAttained(a: Analysis, es: seq<Entry>, dist: Distance)
    requires a.window != [] || StartsSegment(es)
    ensures var r := Run(a, es, dist).stats;
      (r.maxSpeed == a.stats.maxSpeed && r.maxSpeedPoint == a.stats.maxSpeedPoint)
      || exists k :: SpeedRecordedAt(a.window, es, k, dist, r.maxSpeed, r.maxSpeedPoint)
    decreases |es|
  {
    if es != [] {
      var n := |es| - 1;
      var prefix := es[..n];
      RunSpeedAttained(a, prefix, dist);
      SpeedAtPrefix(a.window, es, n, dist);
      var before, r := Run(a, prefix, dist), Run(a, es, dist).stats;
      assert Run(a, es, dist) == Step(before, es[n], dist);
      if !es[n].first && (r.maxSpeed != before.stats.maxSpeed || r.maxSpeedPoint != before.stats.maxSpeedPoint) {
        RunWindow(a, prefix, dist);
        assert es[..n] == prefix;
        assert SpeedAt(a.window, es, n, dist) == Speed(before.window, dist);
        assert SpeedRecordedAt(a.window, es, n, dist, r.maxSpeed, r.maxSpeedPoint);
      }
    }
  }

  /**
   * The speed record of a file is the highest windowed speed: at least every
   * speed taken, and when above 0 the speed of some visit, recorded at that
   * visit's point.
   */
  lemma AnalysedSpeedIsFastest(tracks: seq<GpxTrack>, dist: Distance)
    ensures var es, st := FileEntries(tracks), Analyse(NewStats(), tracks, dist);
      && (forall k: nat :: k < |es| && !es[k].first && SpeedAt([], es, k, dist).Num? ==>
            st.maxSpeed >= SpeedAt([], es, k, dist).value)
      && (st.maxSpeed > 0.0 ==> exists k :: SpeedRecordedAt([], es, k, dist, st.maxSpeed, st.maxSpeedPoint))
  {
    var es, a := FileEntries(tracks), Analysis([], NewStats());
    forall k: nat | k < |es| && !es[k].first && SpeedAt([], es, k, dist).Num?
      ensures Run(a, es, dist).stats.maxSpeed >= SpeedAt([], es, k, dist).value
    {
      RunDominatesSpeed(a, es, dist, k);
    }
    RunSpeedAttained(a, es, dist);
  }

  /** With capacity three, the window after a run holds the last three points visited, newest first. */
  lemma AnalysedWindow(tracks: seq<GpxTrack>, dist: Distance)
    ensures var ps := Points(FileEntries(tracks));
      Run(Analysis([], NewStats()), FileEntries(tracks), dist).window == Recent(ps, WindowSize)
  {
    RunWindow(Analysis([], NewStats()), FileEntries(tracks), dist);
    PushAllKeepsRecent(Points(FileEntries(tracks)), WindowSize);
  }

  /**
   * The record `getStats` returns: the maximum speed is not negative, the
   * steepest up-slope lies in [0, 100), and the steepest down-slope stays
   * at its initial -100 with its initial point, since no slope reaches -100.
   */
  lemma AnalysedBounds(tracks: seq<GpxTrack>, dist: Distance)
    ensures var st := Analyse(NewStats(), tracks, dist);
      && st.maxSpeed >= 0.0
      && 0.0 <= st.maxUpSlope < 100.0
      && st.maxDownSlope == -100.0 && st.maxDownSlopePoint == Origin
  {
    RunMonotone(Analysis([], NewStats()), FileEntries(tracks), dist);
  }

  /**
   * `getStats` marks the time invalid exactly when some point after the first
   * of its segment has a negative Unix time.
   */
  lemma AnalysedInvalidTime(tracks: seq<GpxTrack>, dist: Distance)
    ensures Analyse(NewStats(), tracks, dist).invalidTime <==> EarlyPoint(FileEntries(tracks))
  {
    RunInvalidTime(Analysis([], NewStats()), FileEntries(tracks), dist);
  }

  /**
   * The record `getStats` evidently means to start from: like the up-slope,
   * the down-slope starts at 0, so that any descent can replace it.
   */
  function CorrectedStats(): (st: Stats)
    ensures st.maxDownSlope == 0.0 && st == NewStats().(maxDownSlope := 0.0)
  {
    NewStats().(maxDownSlope := 0.0)
  }

  /** A negative slope taken at visit `k` of a file. */
  predicate DescentAt(es: seq<Entry>, k: nat, dist: Distance)
  {
    k < |es| && StartsSegment(es) && !es[k].first && SlopeAt([], es, k, dist).Some? && SlopeAt([], es, k, dist).value < 0.0
  }

  /** Some visit of a file takes a negative slope. */
  ghost predicate HasDescent(es: seq<Entry>, dist: Distance)
  {
    exists k: nat :: DescentAt(es, k, dist)
  }

  /**
   * From the corrected start, the down-slope record is the steepest descent
   * taken: at most every negative slope, negative exactly when some descent
   * was taken, and then the slope of a visit whose point it records.
   */
  lemma CorrectedDownSlopeIsSteepest(tracks: seq<GpxTrack>, dist: Distance)
    ensures var es, r := FileEntries(tracks), Analyse(CorrectedStats(), tracks, dist);
      && (forall k: nat :: DescentAt(es, k, dist) ==> r.maxDownSlope <= SlopeAt([], es, k, dist).value)
      && (r.maxDownSlope < 0.0 <==> HasDescent(es, dist))
      && (r.maxDownSlope < 0.0 ==>
            exists k: nat :: DescentAt(es, k, dist) && SlopeAt([], es, k, dist) == Some(r.maxDownSlope)
                        && r.maxDownSlopePoint == Loc(es[k].point))
  {
    var es := FileEntries(tracks);
    CorrectedDescentsDominated(es, dist);
    CorrectedDescentAttained(es, dist);
    CorrectedDescentExists(es, dist);
  }

  /** From the corrected start the down-slope record is at most every descent. */
  lemma CorrectedDescentsDominated(es: seq<Entry>, dist: Distance)
    requires StartsSegment(es)
    ensures var r := Run(Analysis([], CorrectedStats()), es, dist).stats;
      forall k: nat :: DescentAt(es, k, dist) ==> r.maxDownSlope <= SlopeAt([], es, k, dist).value
  {
    var a := Analysis([], CorrectedStats());
    forall k: nat | DescentAt(es, k, dist)
      ensures Run(a, es, dist).stats.maxDownSlope <= SlopeAt([], es, k, dist).value
    {
      RunDominatesSlopes(a, es, dist, k);
    }
  }

  /** From the corrected start a negative down-slope record is some descent, recorded at its point. */
  lemma CorrectedDescentAttained(es: seq<Entry>, dist: Distance)
    requires StartsSegment(es)
    ensures var r := Run(Analysis([], CorrectedStats()), es, dist).stats;
      && r.maxDownSlope <= 0.0
      && (r.maxDownSlope < 0.0 ==>
            exists k: nat :: DescentAt(es, k, dist) && SlopeAt([], es, k, dist) == Some(r.maxDownSlope)
                        && r.maxDownSlopePoint == Loc(es[k].point))
  {
    var a := Analysis([], CorrectedStats());
    var r := Run(a, es, dist).stats;
    RunMonotone(a, es, dist);
    RunDownSlopeAttained(a, es, dist);
    if r.maxDownSlope < 0.0 {
      var k :| SlopeRecordedAt([], es, k, dist, r.maxDownSlope, r.maxDownSlopePoint);
      assert DescentAt(es, k, dist);
    }
  }

  /** From the corrected start the down-slope record is negative exactly when some descent was taken. */
  lemma CorrectedDescentExists(es: seq<Entry>, dist: Distance)
    requires StartsSegment(es)
    ensures Run(Analysis([], CorrectedStats()), es, dist).stats.maxDownSlope < 0.0 <==> HasDescent(es, dist)
  {
    var r := Run(Analysis([], CorrectedStats()), es, dist).stats;
    CorrectedDescentsDominated(es, dist);
    CorrectedDescentAttained(es, dist);
    if HasDescent(es, dist) {
      var k: nat :| DescentAt(es, k, dist);
      assert r.maxDownSlope <= SlopeAt([], es, k, dist).value;
    }
  }

  /**
   * The source's start of -100 is below every slope the guard lets through,
   * so no descent ever replaces it: on a two-point segment dropping 10 m over
   * 20 m the slope taken is -50, yet the record stays at -100, while from the
   * corrected start it is -50 at the second point.
   */
  lemma DescentIgnored()
    ensures var p0, p1 := GeoPoint(0.0, 0.0, 10.0, 0), GeoPoint(0.0, 0.001, 0.0, 10 * NanosPerSecond);
      var tracks, dist := [GpxTrack([Segment([p0, p1])])], (a: real, b: real, c: real, d: real) => 20.0;
      && DescentAt(FileEntries(tracks), 1, dist) && SlopeAt([], FileEntries(tracks), 1, dist) == Some(-50.0)
      && Analyse(NewStats(), tracks, dist).maxDownSlope == -100.0
      && Analyse(CorrectedStats(), tracks, dist).maxDownSlope == -50.0
      && Analyse(CorrectedStats(), tracks, dist).maxDownSlopePoint == Loc(p1)
  {
    var p0, p1 := GeoPoint(0.0, 0.0, 10.0, 0), GeoPoint(0.0, 0.001, 0.0, 10 * NanosPerSecond);
    var tracks, dist := [GpxTrack([Segment([p0, p1])])], (a: real, b: real, c: real, d: real) => 20.0;
    RoundWhole(0);
    RoundWhole(10);
    assert Slope(Round(p1.elevation) - Round(p0.elevation), dist(p1.lat, p1.lon, p0.lat, p0.lon)) == Slope(-10.0, 20.0) == Some(-50.0);
    TwoPointDescent(p0, p1, dist);
  }

  /**
   * On a file of one two-point segment that descends, the source's record
   * stays at -100, while from the corrected start it is that descent, at the
   * second point.
   */
  lemma TwoPointDescent(p0: GeoPoint, p1: GeoPoint, dist: Distance)
    requires var s := Slope(Round(p1.elevation) - Round(p0.elevation), dist(p1.lat, p1.lon, p0.lat, p0.lon));
      s.Some? && s.value < 0.0
    ensures var tracks := [GpxTrack([Segment([p0, p1])])];
      var s := Slope(Round(p1.elevation) - Round(p0.elevation), dist(p1.lat, p1.lon, p0.lat, p0.lon));
      && DescentAt(FileEntries(tracks), 1, dist) && SlopeAt([], FileEntries(tracks), 1, dist) == s
      && Analyse(NewStats(), tracks, dist).maxDownSlope == -100.0
      && Analyse(CorrectedStats(), tracks, dist).maxDownSlope == s.value
      && Analyse(CorrectedStats(), tracks, dist).maxDownSlopePoint == Loc(p1)
  {
    var tracks := [GpxTrack([Segment([p0, p1])])];
    TwoPointFile(p0, p1, dist);
    AnalysedBounds(tracks, dist);
    var r := Visit(CorrectedStats(), [p0], p1, dist);
    assert Analyse(CorrectedStats(), tracks, dist) == r;
  }

  /**
   * A file of one two-point segment: its first point is only pushed, and the
   * second is compared against a window holding just the first, so its
   * slope is that of the rounded elevations.
   */
  lemma TwoPointFile(p0: GeoPoint, p1: GeoPoint, dist: Distance)
    ensures var es := FileEntries([GpxTrack([Segment([p0, p1])])]);
      && es == [Entry(p0, true), Entry(p1, false)]
      && SlopeAt([], es, 1, dist) == SlopeAgainst([p0], p1, dist)
      && SlopeAt([], es, 1, dist) == Slope(Round(p1.elevation) - Round(p0.elevation), dist(p1.lat, p1.lon, p0.lat, p0.lon))
      && forall st :: Run(Analysis([], st), es, dist).stats == Visit(st, [p0], p1, dist)
  {
    OneSegmentEntries(p0, p1);
    var es := [Entry(p0, true), Entry(p1, false)];
    assert WindowAt([], es, 1) == [p0] by {
      assert Points(es[..1]) == [p0];
      assert PushAll([], [p0], WindowSize) == PushOnto([], p0, WindowSize) by {
        assert [p0][..0] == [];
      }
    }
    ElevationDiffOfOne(p1, p0);
    forall st ensures Run(Analysis([], st), es, dist).stats == Visit(st, [p0], p1, dist) {
      TwoPointRun(st, p0, p1, dist);
    }
  }

  lemma TwoPointRun(st: Stats, p0: GeoPoint, p1: GeoPoint, dist: Distance)
    ensures Run(Analysis([], st), [Entry(p0, true), Entry(p1, false)], dist).stats == Visit(st, [p0], p1, dist)
  {
    var es := [Entry(p0, true), Entry(p1, false)];
    assert es[..1] == [es[0]] && [es[0]][..0] == [];
    assert Run(Analysis([], st), [es[0]], dist) == Analysis([p0], st);
  }

  /** Visiting `x` then `y` is visiting `x + y`. */
  lemma {:induction false} RunAppend(a: Analysis, x: seq<Entry>, y: seq<Entry>, dist: Distance)
    requires a.window != [] || StartsSegment(x + y)
    ensures Run(a, x, dist).window != [] || StartsSegment(y)
    ensures Run(a, x + y, dist) == Run(Run(a, x, dist), y, dist)
    decreases |y|
  {
    if x == [] {
      assert x + y == y;
    } else if y == [] {
      assert x + y == x;
    } else {
      var y', e := y[..|y| - 1], y[|y| - 1];
      assert (x + y)[..|x + y| - 1] == x + y' && (x + y)[|x + y| - 1] == e;
      assert (x + y')[0] == x[0] == (x + y)[0];
      RunAppend(a, x, y', dist);
      assert Run(a, x + y, dist) == Step(Run(a, x + y', dist), e, dist);
      assert Run(Run(a, x, dist), y, dist) == Step(Run(Run(a, x, dist), y', dist), e, dist);
    }
  }

  /**
   * `getStats` with its three nested loops and the one queue of capacity
   * three that every segment shares. The loops over a track's segments and
   * over a segment's points are the methods `VisitTrack` and `VisitSegment`.
   */
  method GetStats(tracks: seq<GpxTrack>, dist: Distance) returns (st: Stats)
    ensures st == Analyse(NewStats(), tracks, dist)
  {
    st := Stats(false, 0.0, Origin, 0.0, Origin, -100.0, Origin);
    var q := new Queue(3);
    ghost var init := Analysis([], st);

    for ti := 0 to |tracks|
      invariant fresh(q) && fresh(q.data) && q.Valid() && q.length == WindowSize
      invariant StartsSegment(FileEntries(tracks[..ti]))
      invariant Run(init, FileEntries(tracks[..ti]), dist) == Analysis(q.Contents, st)
    {
      ghost var done := FileEntries(tracks[..ti]);
      ghost var next := TrackEntries(tracks[ti].segments);
      assert tracks[..ti + 1][..ti] == tracks[..ti];
      assert FileEntries(tracks[..ti + 1]) == done + next;
      RunAppend(init, done, next, dist);
      st := VisitTrack(q, st, tracks[ti].segments, dist);
    }
    assert tracks[..|tracks|] == tracks;
  }

  /** The loop of `getStats` over one track's segments. */
  method VisitTrack(q: Queue, st: Stats, segments: seq<Segment>, dist: Distance) returns (st': Stats)
    requires q.Valid() && q.length == WindowSize
    requires q.Contents != [] || StartsSegment(TrackEntries(segments))
    modifies q, q.data
    ensures q.Valid() && q.data == old(q.data) && q.length == WindowSize
    ensures Analysis(q.Contents, st') == Run(Analysis(old(q.Contents), st), TrackEntries(segments), dist)
  {
    st' := st;
    ghost var start := Analysis(q.Contents, st);
    for si := 0 to |segments|
      invariant q.Valid() && q.data == old(q.data) && q.length == WindowSize
      invariant StartsSegment(TrackEntries(segments[..si]))
      invariant Run(start, TrackEntries(segments[..si]), dist) == Analysis(q.Contents, st')
    {
      ghost var done := TrackEntries(segments[..si]);
      ghost var next := SegmentEntries(segments[si].points);
      assert segments[..si + 1][..si] == segments[..si];
      assert TrackEntries(segments[..si + 1]) == done + next;
      RunAppend(start, done, next, dist);
      st' := VisitSegment(q, st', segments[si].points, dist);
    }
    assert segments[..|segments|] == segments;
  }

  /** The loop of `getStats` over one segment's points. */
  method VisitSegment(q: Queue, st: Stats, points: seq<GeoPoint>, dist: Distance) returns (st': Stats)
    requires q.Valid() && q.length == WindowSize
    modifies q, q.data
    ensures q.Valid() && q.data == old(q.data) && q.length == WindowSize
    ensures Analysis(q.Contents, st') == Run(Analysis(old(q.Contents), st), SegmentEntries(points), dist)
  {
    st' := st;
    ghost var start := Analysis(q.Contents, st);
    for pi := 0 to |points|
      invariant q.Valid() && q.data == old(q.data) && q.length == WindowSize
      invariant pi > 0 ==> q.Contents != []
      invariant Run(start, SegmentEntries(points[..pi]), dist) == Analysis(q.Contents, st')
    {
      var e := Entry(points[pi], pi == 0);
      SegmentEntriesSnoc(points, pi);
      RunSnoc(start, SegmentEntries(points[..pi]), e, dist);
      st' := VisitPoint(q, st', points[pi], pi == 0, dist);
    }
    assert points[..|points|] == points;
  }

  /**
   * The body of the innermost loop of `getStats` for one point: the first
   * point of a segment is only pushed; any other is compared against the
   * window's oldest point and the whole window, then pushed.
   */
  method VisitPoint(q: Queue, st: Stats, point: GeoPoint, first: bool, dist: Distance) returns (st': Stats)
    requires q.Valid() && q.length == WindowSize && (first || q.Contents != [])
    modifies q, q.data
    ensures q.Valid() && q.data == old(q.data) && q.length == WindowSize
    ensures Analysis(q.Contents, st') == Step(Analysis(old(q.Contents), st), Entry(point, first), dist)
  {
    st' := st;
    if first {
      q.Push(point);
      return;
    }
    var lastPoint := q.GetLast();
    var window := q.GetArray();
    st' := VisitWindow(st, window, lastPoint, point, dist);
    q.Push(point);
  }

  /**
   * The slope branch of the innermost loop: a slope is taken only under the
   * guard, and then updates the down- or up-slope record.
   */
  method UpdateSlopes(st: Stats, elevationDiff: real, distance: real, point: GeoPoint) returns (st': Stats)
    ensures st' == RecordSlope(st, Slope(elevationDiff, distance), point)
  {
    st' := st;
    if distance > 0.0 && elevationDiff != 0.0 && Abs(elevationDiff) < distance {
      if elevationDiff < 0.0 {
        var slope := 100.0 * elevationDiff / distance;
        if st'.maxDownSlope > slope {
          st' := st'.(maxDownSlope := slope, maxDownSlopePoint := Loc(point));
        }
      } else {
        var slope := 100.0 * elevationDiff / distance;
        if slope > st'.maxUpSlope {
          st' := st'.(maxUpSlope := slope, maxUpSlopePoint := Loc(point));
        }
      }
    }
  }

  /**
   * The updates of the innermost loop for a point that is not the first of
   * its segment, against a snapshot of the window and its oldest point.
   */
  method VisitWindow(st: Stats, window: seq<GeoPoint>, lastPoint: GeoPoint, point: GeoPoint, dist: Distance)
    returns (st': Stats)
    requires window != [] && lastPoint == window[|window| - 1]
    ensures st' == Visit(st, window, point, dist)
  {
    st' := st;
    if Unix(point.time) < 0 {
      st' := st'.(invalidTime := true);
    }
    assert st' == RecordTime(st, point);
    var curSpeed := GetSpeed(window, dist);
    ghost var timed := st';
    if Exceeds(curSpeed, st'.maxSpeed) {
      st' := st'.(maxSpeed := curSpeed.value, maxSpeedPoint := Loc(point));
    }
    assert st' == RecordSpeed(timed, Speed(window, dist), point);
    var distance := dist(point.lat, point.lon, lastPoint.lat, lastPoint.lon);
    var elevationDiff := GetElevationDiff(point, window);
    assert Slope(elevationDiff, distance) == SlopeAgainst(window, point, dist);
    st' := UpdateSlopes(st', elevationDiff, distance, point);
  }
}
