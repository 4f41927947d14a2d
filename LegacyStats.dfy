/**
 * The older analyser, `getStats` of `main.go`. It walks the file the same
 * way as the newer one through a shared queue of capacity three. It compares
 * each point only with the point visited just before it (the queue's head):
 * the speed between the two as gpxgo reports it, and the slope of their raw
 * elevation difference over the distance between them. It has no
 * invalid-time flag.
 */
module LegacyStats {
  import opened Geo
  import opened Track
  import opened Queues

  /** gpxgo's `point.SpeedBetween(&previousPoint, false)`, which is not modelled. */
  type SpeedBetween = (GeoPoint, GeoPoint) -> real

  /** The capacity of the queue. */
  const WindowSize: nat := 3

  /** The `stats` record of `main.go`. */
  datatype Stats = Stats(
    maxSpeed: real, maxSpeedPoint: Location,
    maxUpSlope: real, maxUpSlopePoint: Location,
    maxDownSlope: real, maxDownSlopePoint: Location)

  /** The record `getStats` starts from. */
  function NewStats(): Stats
  {
    Stats(0.0, Origin, 0.0, Origin, -100.0, Origin)
  }

  /** The slope between a point and the one before it, under the shared guard. */
  function PairSlope(previous: GeoPoint, point: GeoPoint, dist: Distance): Option<real>
  {
    Slope(point.elevation - previous.elevation, dist(point.lat, point.lon, previous.lat, previous.lon))
  }

  /**
   * A slope between two points is never zero, stays strictly between -100
   * and 100, and is negative exactly when the point is lower than the one
   * before it.
   */
  lemma PairSlopeRange(previous: GeoPoint, point: GeoPoint, dist: Distance)
    ensures var r := PairSlope(previous, point, dist);
      r.Some? ==>
        && r.value != 0.0 && -100.0 < r.value < 100.0
        && (r.value < 0.0 <==> point.elevation < previous.elevation)
  {
  }

  /**
   * The updates for a point that is not the first of its segment, against
   * the point visited before it.
   */
  function Visit(st: Stats, previous: GeoPoint, point: GeoPoint, speed: SpeedBetween, dist: Distance): (r: Stats)
    ensures r.maxSpeed >= st.maxSpeed && r.maxSpeed >= speed(point, previous)
    ensures r.maxSpeed != st.maxSpeed || r.maxSpeedPoint != st.maxSpeedPoint
            ==> r.maxSpeed > st.maxSpeed && r.maxSpeed == speed(point, previous) && r.maxSpeedPoint == Loc(point)
    ensures r.maxUpSlope >= st.maxUpSlope
    ensures r.maxUpSlope != st.maxUpSlope || r.maxUpSlopePoint != st.maxUpSlopePoint
            ==> r.maxUpSlope > st.maxUpSlope && PairSlope(previous, point, dist) == Some(r.maxUpSlope)
                && r.maxUpSlopePoint == Loc(point)
    ensures r.maxDownSlope <= st.maxDownSlope
    ensures r.maxDownSlope != st.maxDownSlope || r.maxDownSlopePoint != st.maxDownSlopePoint
            ==> r.maxDownSlope < st.maxDownSlope && PairSlope(previous, point, dist) == Some(r.maxDownSlope)
                && r.maxDownSlopePoint == Loc(point)
    ensures PairSlope(previous, point, dist).Some? ==>
              var s := PairSlope(previous, point, dist).value;
              (s < 0.0 ==> r.maxDownSlope <= s) && (s > 0.0 ==> r.maxUpSlope >= s)
  {
    var st := RecordSpeed(st, speed(point, previous), point);
    RecordSlope(st, PairSlope(previous, point, dist), point)
  }

  /** A speed above the record replaces it. */
  function RecordSpeed(st: Stats, curSpeed: real, point: GeoPoint): (r: Stats)
    ensures r.maxSpeed >= st.maxSpeed && r.maxSpeed >= curSpeed
    ensures r == st || (r.maxSpeed > st.maxSpeed && r.maxSpeed == curSpeed
                        && r == st.(maxSpeed := curSpeed, maxSpeedPoint := Loc(point)))
  {
    if curSpeed > st.maxSpeed then st.(maxSpeed := curSpeed, maxSpeedPoint := Loc(point)) else st
  }

  /**
   * A negative slope below the down-slope record replaces it; a positive
   * slope above the up-slope record replaces that.
   */
  function RecordSlope(st: Stats, slope: Option<real>, point: GeoPoint): (r: Stats)
    ensures r.maxDownSlope <= st.maxDownSlope && r.maxUpSlope >= st.maxUpSlope
    ensures slope.Some? && slope.value < 0.0 ==> r.maxDownSlope <= slope.value
    ensures slope.Some? && slope.value > 0.0 ==> r.maxUpSlope >= slope.value
    ensures || r == st
            || (slope.Some? && r == st.(maxDownSlope := slope.value, maxDownSlopePoint := Loc(point)))
            || (slope.Some? && r == st.(maxUpSlope := slope.value, maxUpSlopePoint := Loc(point)))
  {
    match slope
    case None => st
    case Some(s) =>
      if s < 0.0 then
        if st.maxDownSlope > s then st.(maxDownSlope := s, maxDownSlopePoint := Loc(point)) else st
      else
        if s > st.maxUpSlope then st.(maxUpSlope := s, maxUpSlopePoint := Loc(point)) else st
  }

  /** The queue's contents (newest first) and the record between two visits. */
  datatype Analysis = Analysis(window: seq<GeoPoint>, stats: Stats)

  /**
   * One visit: the first point of a segment is only pushed; any other point
   * updates the record against the queue's head, then is pushed.
   */
  function Step(a: Analysis, e: Entry, speed: SpeedBetween, dist: Distance): (r: Analysis)
    requires e.first || a.window != []
    ensures r.window == PushOnto(a.window, e.point, WindowSize)
    ensures e.first ==> r.stats == a.stats
  {
    var stats := if e.first then a.stats else Visit(a.stats, a.window[0], e.point, speed, dist);
    Analysis(PushOnto(a.window, e.point, WindowSize), stats)
  }

  /** The visits of `es`, in order, from `a`. */
  function Run(a: Analysis, es: seq<Entry>, speed: SpeedBetween, dist: Distance): (r: Analysis)
    requires a.window != [] || StartsSegment(es)
    ensures es != [] ==> r.window != [] && r.window[0] == es[|es| - 1].point
    decreases |es|
  {
    if es == [] then a
    else Step(Run(a, es[..|es| - 1], speed, dist), es[|es| - 1], speed, dist)
  }

  /** The queue after a run is every visited point pushed, in order, onto the starting queue. */
  lemma {:induction false} RunWindow(a: Analysis, es: seq<Entry>, speed: SpeedBetween, dist: Distance)
    requires a.window != [] || StartsSegment(es)
    ensures Run(a, es, speed, dist).window == PushAll(a.window, Points(es), WindowSize)
    decreases |es|
  {
    if es != [] {
      var prefix := es[..|es| - 1];
      RunWindow(a, prefix, speed, dist);
      assert Points(prefix) == Points(es)[..|es| - 1];
    }
  }

  lemma RunSnoc(a: Analysis, es: seq<Entry>, e: Entry, speed: SpeedBetween, dist: Distance)
    requires a.window != [] || StartsSegment(es)
    requires es != [] || a.window != [] || e.first
    ensures StartsSegment(es + [e]) || a.window != []
    ensures Run(a, es + [e], speed, dist) == Step(Run(a, es, speed, dist), e, speed, dist)
  {
    assert (es + [e])[..|es|] == es;
  }

  lemma {:induction false} RunAppend(a: Analysis, x: seq<Entry>, y: seq<Entry>, speed: SpeedBetween, dist: Distance)
    requires a.window != [] || StartsSegment(x + y)
    ensures Run(a, x, speed, dist).window != [] || StartsSegment(y)
    ensures Run(a, x + y, speed, dist) == Run(Run(a, x, speed, dist), y, speed, dist)
    decreases |y|
  {
    if x == [] {
      assert x + y == y;
    } else if y == [] {
      assert x + y == x;
    } else {
      var y', e := y[..|y| - 1], y[|y| - 1];
      assert (x + y)[..|x + y| - 1] == x + y' && (x + y)[|x + y| - 1] == e;
      assert (x + y')[0] == x[0] == (x + y)[0];
      RunAppend(a, x, y', speed, dist);
      assert Run(a, x + y, speed, dist) == Step(Run(a, x + y', speed, dist), e, speed, dist);
      assert Run(Run(a, x, speed, dist), y, speed, dist) == Step(Run(Run(a, x, speed, dist), y', speed, dist), e, speed, dist);
    }
  }

  /** The record left after analysing a whole file from `start`. */
  function Analyse(start: Stats, tracks: seq<GpxTrack>, speed: SpeedBetween, dist: Distance): Stats
  {
    Run(Analysis([], start), FileEntries(tracks), speed, dist).stats
  }

  /**
   * The point a visit is compared with: the head of the queue, which is the
   * point visited just before it, or the head of the starting queue for the
   * very first visit.
   */
  function PreviousAt(w: seq<GeoPoint>, es: seq<Entry>, k: nat): GeoPoint
    requires k < |es| && (k > 0 || w != [])
  {
    if k == 0 then w[0] else es[k - 1].point
  }

  /** The queue's head at every visit is the point visited just before it. */
  lemma PreviousIsQueueHead(a: Analysis, es: seq<Entry>, k: nat, speed: SpeedBetween, dist: Distance)
    requires a.window != [] || StartsSegment(es)
    requires k < |es| && !es[k].first
    ensures a.window != [] || k > 0
    ensures Run(a, es[..k], speed, dist).window != []
    ensures Run(a, es[..k], speed, dist).window[0] == PreviousAt(a.window, es, k)
  {
    if k == 0 {
      assert es[..k] == [];
    } else {
      assert es[..k][k - 1] == es[k - 1];
    }
  }

  /**
   * Along a run every record moves only towards its extreme; a down-slope
   * record at or below -100, beyond every slope the guard lets through,
   * never moves, and an up-slope record below 100 stays below it.
   */
  lemma {:induction false} RunMonotone(a: Analysis, es: seq<Entry>, speed: SpeedBetween, dist: Distance)
    requires a.window != [] || StartsSegment(es)
    ensures var r := Run(a, es, speed, dist).stats;
      && r.maxSpeed >= a.stats.maxSpeed
      && r.maxUpSlope >= a.stats.maxUpSlope
      && r.maxDownSlope <= a.stats.maxDownSlope
      && (a.stats.maxUpSlope < 100.0 ==> r.maxUpSlope < 100.0)
      && (a.stats.maxDownSlope <= -100.0 ==>
            r.maxDownSlope == a.stats.maxDownSlope && r.maxDownSlopePoint == a.stats.maxDownSlopePoint)
    decreases |es|
  {
    if es != [] {
      var prefix := es[..|es| - 1];
      RunMonotone(a, prefix, speed, dist);
      assert Run(a, es, speed, dist) == Step(Run(a, prefix, speed, dist), es[|es| - 1], speed, dist);
    }
  }

  /** Every visit's speed is at most the speed record after the run. */
  lemma {:induction false} RunDominatesSpeed(a: Analysis, es: seq<Entry>, speed: SpeedBetween, dist: Distance, k: nat)
    requires a.window != [] || StartsSegment(es)
    requires k < |es| && !es[k].first
    ensures a.window != [] || k > 0
    ensures Run(a, es, speed, dist).stats.maxSpeed >= speed(es[k].point, PreviousAt(a.window, es, k))
    decreases |es|
  {
    var n := |es| - 1;
    var before := Run(a, es[..n], speed, dist);
    assert Run(a, es, speed, dist) == Step(before, es[n], speed, dist);
    if k < n {
      PreviousAtPrefix(a.window, es, n, k);
      RunDominatesSpeed(a, es[..n], speed, dist, k);
      StepMonotone(before, es[n], speed, dist);
    } else {
      PreviousIsQueueHead(a, es, k, speed, dist);
      StepDominates(before, es[k], PreviousAt(a.window, es, k), speed, dist);
    }
  }

  /** Every slope taken is within the matching slope record after the run. */
  lemma {:induction false} RunDominatesSlopes(a: Analysis, es: seq<Entry>, speed: SpeedBetween, dist: Distance, k: nat)
    requires a.window != [] || StartsSegment(es)
    requires k < |es| && !es[k].first
    ensures a.window != [] || k > 0
    ensures var r, prev := Run(a, es, speed, dist).stats, PreviousAt(a.window, es, k);
      PairSlope(prev, es[k].point, dist).Some? ==>
        var s := PairSlope(prev, es[k].point, dist).value;
        (s < 0.0 ==> r.maxDownSlope <= s) && (s > 0.0 ==> r.maxUpSlope >= s)
    decreases |es|
  {
    var n := |es| - 1;
    var before := Run(a, es[..n], speed, dist);
    assert Run(a, es, speed, dist) == Step(before, es[n], speed, dist);
    if k < n {
      PreviousAtPrefix(a.window, es, n, k);
      RunDominatesSlopes(a, es[..n], speed, dist, k);
      StepMonotone(before, es[n], speed, dist);
    } else {
      PreviousIsQueueHead(a, es, k, speed, dist);
      StepDominates(before, es[k], PreviousAt(a.window, es, k), speed, dist);
    }
  }

  /** A visit in a prefix of a run is compared with the same point as in the whole run. */
  lemma PreviousAtPrefix(w: seq<GeoPoint>, es: seq<Entry>, n: nat, k: nat)
    requires w != [] || StartsSegment(es)
    requires k < n <= |es| && !es[k].first
    ensures w != [] || StartsSegment(es[..n])
    ensures es[..n][k] == es[k]
    ensures k > 0 || w != [] ==> PreviousAt(w, es[..n], k) == PreviousAt(w, es, k)
  {
  }

  /** One visit never lowers the speed or up-slope record, nor raises the down-slope record. */
  lemma StepMonotone(b: Analysis, e: Entry, speed: SpeedBetween, dist: Distance)
    requires e.first || b.window != []
    ensures var r := Step(b, e, speed, dist).stats;
      r.maxSpeed >= b.stats.maxSpeed && r.maxUpSlope >= b.stats.maxUpSlope && r.maxDownSlope <= b.stats.maxDownSlope
  {
    if !e.first {
      assert Step(b, e, speed, dist).stats == Visit(b.stats, b.window[0], e.point, speed, dist);
    }
  }

  /** A visit's speed and slope against the queue's head are within the records the visit leaves. */
  lemma StepDominates(b: Analysis, e: Entry, prev: GeoPoint, speed: SpeedBetween, dist: Distance)
    requires !e.first && b.window != [] && b.window[0] == prev
    ensures var r := Step(b, e, speed, dist).stats;
      && r.maxSpeed >= speed(e.point, prev)
      && (PairSlope(prev, e.point, dist).Some? ==>
            var s := PairSlope(prev, e.point, dist).value;
            (s < 0.0 ==> r.maxDownSlope <= s) && (s > 0.0 ==> r.maxUpSlope >= s))
  {
    assert Step(b, e, speed, dist).stats == Visit(b.stats, prev, e.point, speed, dist);
  }

  /** The visit at `k` of `es` would record a speed of `v` at its point. */
  predicate SpeedRecordedAt(a: Analysis, es: seq<Entry>, k: int, speed: SpeedBetween, v: real, at: Location)
    requires a.window != [] || StartsSegment(es)
  {
    0 <= k < |es| && !es[k].first && (a.window != [] || k > 0)
    && speed(es[k].point, PreviousAt(a.window, es, k)) == v && at == Loc(es[k].point)
  }

  /** The visit at `k` of `es` takes a slope of `v` at its point. */
  predicate SlopeRecordedAt(a: Analysis, es: seq<Entry>, k: int, dist: Distance, v: real, at: Location)
    requires a.window != [] || StartsSegment(es)
  {
    0 <= k < |es| && !es[k].first && (a.window != [] || k > 0)
    && PairSlope(PreviousAt(a.window, es, k), es[k].point, dist) == Some(v) && at == Loc(es[k].point)
  }

  /**
   * The speed record either keeps its starting value and point, or is the
   * speed of some visit, recorded with that visit's point.
   */
  lemma {:induction false} RunSpeedAttained(a: Analysis, es: seq<Entry>, speed: SpeedBetween, dist: Distance)
    requires a.window != [] || StartsSegment(es)
    ensures var r := Run(a, es, speed, dist).stats;
      (r.maxSpeed == a.stats.maxSpeed && r.maxSpeedPoint == a.stats.maxSpeedPoint)
      || exists k :: SpeedRecordedAt(a, es, k, speed, r.maxSpeed, r.maxSpeedPoint)
    decreases |es|
  {
    if es != [] {
      var prefix := es[..|es| - 1];
      var n := |prefix|;
      RunSpeedAttained(a, prefix, speed, dist);
      forall k, v, at | SpeedRecordedAt(a, prefix, k, speed, v, at)
        ensures SpeedRecordedAt(a, es, k, speed, v, at)
      {
      }
      var before, r := Run(a, prefix, speed, dist).stats, Run(a, es, speed, dist).stats;
      assert Run(a, es, speed, dist) == Step(Run(a, prefix, speed, dist), es[n], speed, dist);
      if !es[n].first {
        assert es[..n] == prefix;
        PreviousIsQueueHead(a, es, n, speed, dist);
        if r.maxSpeed != before.maxSpeed || r.maxSpeedPoint != before.maxSpeedPoint {
          assert SpeedRecordedAt(a, es, n, speed, r.maxSpeed, r.maxSpeedPoint);
        }
      }
    }
  }

  /**
   * The up-slope record either keeps its starting value and point, or is
   * the slope of some visit, recorded with that visit's point.
   */
  lemma {:induction false} RunUpSlopeAttained(a: Analysis, es: seq<Entry>, speed: SpeedBetween, dist: Distance)
    requires a.window != [] || StartsSegment(es)
    ensures var r := Run(a, es, speed, dist).stats;
      (r.maxUpSlope == a.stats.maxUpSlope && r.maxUpSlopePoint == a.stats.maxUpSlopePoint)
      || exists k :: SlopeRecordedAt(a, es, k, dist, r.maxUpSlope, r.maxUpSlopePoint)
    decreases |es|
  {
    if es != [] {
      var prefix := es[..|es| - 1];
      var n := |prefix|;
      RunUpSlopeAttained(a, prefix, speed, dist);
      forall k, v, at | SlopeRecordedAt(a, prefix, k, dist, v, at)
        ensures SlopeRecordedAt(a, es, k, dist, v, at)
      {
      }
      var before, r := Run(a, prefix, speed, dist).stats, Run(a, es, speed, dist).stats;
      assert Run(a, es, speed, dist) == Step(Run(a, prefix, speed, dist), es[n], speed, dist);
      if !es[n].first {
        assert es[..n] == prefix;
        PreviousIsQueueHead(a, es, n, speed, dist);
        if r.maxUpSlope != before.maxUpSlope || r.maxUpSlopePoint != before.maxUpSlopePoint {
          assert SlopeRecordedAt(a, es, n, dist, r.maxUpSlope, r.maxUpSlopePoint);
        }
      }
    }
  }

  /**
   * The down-slope record either keeps its starting value and point, or is
   * the slope of some visit, recorded with that visit's point.
   */
  lemma {:induction false} RunDownSlopeAttained(a: Analysis, es: seq<Entry>, speed: SpeedBetween, dist: Distance)
    requires a.window != [] || StartsSegment(es)
    ensures var r := Run(a, es, speed, dist).stats;
      (r.maxDownSlope == a.stats.maxDownSlope && r.maxDownSlopePoint == a.stats.maxDownSlopePoint)
      || exists k :: SlopeRecordedAt(a, es, k, dist, r.maxDownSlope, r.maxDownSlopePoint)
    decreases |es|
  {
    if es != [] {
      var prefix := es[..|es| - 1];
      var n := |prefix|;
      RunDownSlopeAttained(a, prefix, speed, dist);
      forall k, v, at | SlopeRecordedAt(a, prefix, k, dist, v, at)
        ensures SlopeRecordedAt(a, es, k, dist, v, at)
      {
      }
      var before, r := Run(a, prefix, speed, dist).stats, Run(a, es, speed, dist).stats;
      assert Run(a, es, speed, dist) == Step(Run(a, prefix, speed, dist), es[n], speed, dist);
      if !es[n].first {
        assert es[..n] == prefix;
        PreviousIsQueueHead(a, es, n, speed, dist);
        if r.maxDownSlope != before.maxDownSlope || r.maxDownSlopePoint != before.maxDownSlopePoint {
          assert SlopeRecordedAt(a, es, n, dist, r.maxDownSlope, r.maxDownSlopePoint);
        }
      }
    }
  }

  /**
   * From the source's start the down-slope record stays at -100 with no
   * point for every file, the up-slope record lies in [0, 100), and the
   * speed record is at least 0.
   */
  lemma AnalysedBounds(tracks: seq<GpxTrack>, speed: SpeedBetween, dist: Distance)
    ensures var st := Analyse(NewStats(), tracks, speed, dist);
      && st.maxSpeed >= 0.0
      && 0.0 <= st.maxUpSlope < 100.0
      && st.maxDownSlope == -100.0 && st.maxDownSlopePoint == Origin
  {
    RunMonotone(Analysis([], NewStats()), FileEntries(tracks), speed, dist);
  }

  /**
   * The speed record of a file is the fastest speed between consecutive
   * points of a segment: at least each of them, and when above 0 the speed
   * of one of them, recorded at its later point.
   */
  lemma AnalysedSpeedIsFastest(tracks: seq<GpxTrack>, speed: SpeedBetween, dist: Distance)
    ensures var es, st := FileEntries(tracks), Analyse(NewStats(), tracks, speed, dist);
      && (forall k :: 0 < k < |es| && !es[k].first ==> st.maxSpeed >= speed(es[k].point, es[k - 1].point))
      && (st.maxSpeed > 0.0 ==>
            exists k :: 0 < k < |es| && !es[k].first && speed(es[k].point, es[k - 1].point) == st.maxSpeed
                        && st.maxSpeedPoint == Loc(es[k].point))
  {
    var es, a := FileEntries(tracks), Analysis([], NewStats());
    var st := Run(a, es, speed, dist).stats;
    forall k | 0 < k < |es| && !es[k].first
      ensures st.maxSpeed >= speed(es[k].point, es[k - 1].point)
    {
      RunDominatesSpeed(a, es, speed, dist, k);
    }
    RunSpeedAttained(a, es, speed, dist);
    if st.maxSpeed > 0.0 {
      var k :| SpeedRecordedAt(a, es, k, speed, st.maxSpeed, st.maxSpeedPoint);
      assert 0 < k < |es| && !es[k].first && speed(es[k].point, es[k - 1].point) == st.maxSpeed;
    }
  }

  /** The record the older `getStats` evidently means to start from: the down-slope starts at 0. */
  function CorrectedStats(): (st: Stats)
    ensures st.maxDownSlope == 0.0 && st == NewStats().(maxDownSlope := 0.0)
  {
    NewStats().(maxDownSlope := 0.0)
  }

  /** A negative slope taken at visit `k` of a file. */
  predicate DescentAt(es: seq<Entry>, k: nat, dist: Distance)
  {
    0 < k < |es| && !es[k].first
    && PairSlope(es[k - 1].point, es[k].point, dist).Some? && PairSlope(es[k - 1].point, es[k].point, dist).value < 0.0
  }

  /** Some visit of a file takes a negative slope. */
  ghost predicate HasDescent(es: seq<Entry>, dist: Distance)
  {
    exists k: nat :: DescentAt(es, k, dist)
  }

  /**
   * From the corrected start, the down-slope record is the steepest descent
   * between consecutive points: at most every negative slope, negative
   * exactly when there is one, and then recorded at its point.
   */
  lemma CorrectedDownSlopeIsSteepest(tracks: seq<GpxTrack>, speed: SpeedBetween, dist: Distance)
    ensures var es, r := FileEntries(tracks), Analyse(CorrectedStats(), tracks, speed, dist);
      && (forall k: nat :: DescentAt(es, k, dist) ==>
            r.maxDownSlope <= PairSlope(es[k - 1].point, es[k].point, dist).value)
      && (r.maxDownSlope < 0.0 <==> HasDescent(es, dist))
      && (r.maxDownSlope < 0.0 ==>
            exists k: nat :: DescentAt(es, k, dist) && PairSlope(es[k - 1].point, es[k].point, dist) == Some(r.maxDownSlope)
                             && r.maxDownSlopePoint == Loc(es[k].point))
  {
    var es := FileEntries(tracks);
    CorrectedDescentsDominated(es, speed, dist);
    CorrectedDescentAttained(es, speed, dist);
    CorrectedDescentExists(es, speed, dist);
  }

  /** From the corrected start the down-slope record is negative exactly when some descent exists. */
  lemma CorrectedDescentExists(es: seq<Entry>, speed: SpeedBetween, dist: Distance)
    requires StartsSegment(es)
    ensures Run(Analysis([], CorrectedStats()), es, speed, dist).stats.maxDownSlope < 0.0 <==> HasDescent(es, dist)
  {
    var r := Run(Analysis([], CorrectedStats()), es, speed, dist).stats;
    CorrectedDescentsDominated(es, speed, dist);
    CorrectedDescentAttained(es, speed, dist);
    if exists k: nat :: DescentAt(es, k, dist) {
      var k: nat :| DescentAt(es, k, dist);
      assert r.maxDownSlope <= PairSlope(es[k - 1].point, es[k].point, dist).value;
    }
  }

  /** From the corrected start the down-slope record is at most every descent. */
  lemma CorrectedDescentsDominated(es: seq<Entry>, speed: SpeedBetween, dist: Distance)
    requires StartsSegment(es)
    ensures var r := Run(Analysis([], CorrectedStats()), es, speed, dist).stats;
      forall k: nat :: DescentAt(es, k, dist) ==> r.maxDownSlope <= PairSlope(es[k - 1].point, es[k].point, dist).value
  {
    var a := Analysis([], CorrectedStats());
    forall k: nat | DescentAt(es, k, dist)
      ensures Run(a, es, speed, dist).stats.maxDownSlope <= PairSlope(es[k - 1].point, es[k].point, dist).value
    {
      RunDominatesSlopes(a, es, speed, dist, k);
      assert PreviousAt([], es, k) == es[k - 1].point;
    }
  }

  /** From the corrected start a negative down-slope record is some descent, recorded at its point. */
  lemma CorrectedDescentAttained(es: seq<Entry>, speed: SpeedBetween, dist: Distance)
    requires StartsSegment(es)
    ensures var r := Run(Analysis([], CorrectedStats()), es, speed, dist).stats;
      && r.maxDownSlope <= 0.0
      && (r.maxDownSlope < 0.0 ==>
            exists k: nat :: DescentAt(es, k, dist) && PairSlope(es[k - 1].point, es[k].point, dist) == Some(r.maxDownSlope)
                             && r.maxDownSlopePoint == Loc(es[k].point))
  {
    var a := Analysis([], CorrectedStats());
    var r := Run(a, es, speed, dist).stats;
    RunMonotone(a, es, speed, dist);
    RunDownSlopeAttained(a, es, speed, dist);
    if r.maxDownSlope < 0.0 {
      var k :| SlopeRecordedAt(a, es, k, dist, r.maxDownSlope, r.maxDownSlopePoint);
      assert PreviousAt([], es, k) == es[k - 1].point;
      assert DescentAt(es, k, dist);
    }
  }

  /**
   * The source's start of -100 is below every slope the guard lets through:
   * on a two-point segment dropping 10 m over 20 m the slope taken is -50,
   * yet the record stays at -100, while from the corrected start it is -50
   * at the second point.
   */
  lemma DescentIgnored(speed: SpeedBetween)
    ensures var p0, p1 := GeoPoint(0.0, 0.0, 10.0, 0), GeoPoint(0.0, 0.001, 0.0, 10 * NanosPerSecond);
      var tracks, dist := [GpxTrack([Segment([p0, p1])])], (a: real, b: real, c: real, d: real) => 20.0;
      && DescentAt(FileEntries(tracks), 1, dist) && PairSlope(p0, p1, dist) == Some(-50.0)
      && Analyse(NewStats(), tracks, speed, dist).maxDownSlope == -100.0
      && Analyse(CorrectedStats(), tracks, speed, dist).maxDownSlope == -50.0
      && Analyse(CorrectedStats(), tracks, speed, dist).maxDownSlopePoint == Loc(p1)
  {
    var p0, p1 := GeoPoint(0.0, 0.0, 10.0, 0), GeoPoint(0.0, 0.001, 0.0, 10 * NanosPerSecond);
    var tracks, dist := [GpxTrack([Segment([p0, p1])])], (a: real, b: real, c: real, d: real) => 20.0;
    OneSegmentEntries(p0, p1);
    assert PairSlope(p0, p1, dist) == Some(-50.0);
    AnalysedBounds(tracks, speed, dist);
    TwoPointRun(CorrectedStats(), p0, p1, speed, dist);
    var r := Visit(CorrectedStats(), p0, p1, speed, dist);
    assert r.maxDownSlope <= -50.0;
  }

  /** A file of one two-point segment compares the second point with the first, once. */
  lemma TwoPointRun(st: Stats, p0: GeoPoint, p1: GeoPoint, speed: SpeedBetween, dist: Distance)
    ensures Run(Analysis([], st), [Entry(p0, true), Entry(p1, false)], speed, dist).stats == Visit(st, p0, p1, speed, dist)
  {
    var es := [Entry(p0, true), Entry(p1, false)];
    assert es[..1] == [es[0]] && [es[0]][..0] == [];
    assert Run(Analysis([], st), [es[0]], speed, dist) == Analysis([p0], st);
  }

  /**
   * `getStats` of `main.go` with its three nested loops and the one queue of
   * capacity three that every segment shares.
   */
  method GetStats(tracks: seq<GpxTrack>, speed: SpeedBetween, dist: Distance) returns (st: Stats)
    ensures st == Analyse(NewStats(), tracks, speed, dist)
  {
    st := Stats(0.0, Origin, 0.0, Origin, -100.0, Origin);
    var q := new Queue(3);
    ghost var init := Analysis([], st);

    for ti := 0 to |tracks|
      invariant fresh(q) && fresh(q.data) && q.Valid() && q.length == WindowSize
      invariant StartsSegment(FileEntries(tracks[..ti]))
      invariant Run(init, FileEntries(tracks[..ti]), speed, dist) == Analysis(q.Contents, st)
    {
      ghost var done := FileEntries(tracks[..ti]);
      ghost var next := TrackEntries(tracks[ti].segments);
      assert tracks[..ti + 1][..ti] == tracks[..ti];
      assert FileEntries(tracks[..ti + 1]) == done + next;
      RunAppend(init, done, next, speed, dist);
      st := VisitTrack(q, st, tracks[ti].segments, speed, dist);
    }
    assert tracks[..|tracks|] == tracks;
  }

  /** The loop over one track's segments. */
  method VisitTrack(q: Queue, st: Stats, segments: seq<Segment>, speed: SpeedBetween, dist: Distance) returns (st': Stats)
    requires q.Valid() && q.length == WindowSize
    requires q.Contents != [] || StartsSegment(TrackEntries(segments))
    modifies q, q.data
    ensures q.Valid() && q.data == old(q.data) && q.length == WindowSize
    ensures Analysis(q.Contents, st') == Run(Analysis(old(q.Contents), st), TrackEntries(segments), speed, dist)
  {
    st' := st;
    ghost var start := Analysis(q.Contents, st);
    for si := 0 to |segments|
      invariant q.Valid() && q.data == old(q.data) && q.length == WindowSize
      invariant StartsSegment(TrackEntries(segments[..si]))
      invariant Run(start, TrackEntries(segments[..si]), speed, dist) == Analysis(q.Contents, st')
    {
      ghost var done := TrackEntries(segments[..si]);
      ghost var next := SegmentEntries(segments[si].points);
      assert segments[..si + 1][..si] == segments[..si];
      assert TrackEntries(segments[..si + 1]) == done + next;
      RunAppend(start, done, next, speed, dist);
      st' := VisitSegment(q, st', segments[si].points, speed, dist);
    }
    assert segments[..|segments|] == segments;
  }

  /** The loop over one segment's points. */
  method VisitSegment(q: Queue, st: Stats, points: seq<GeoPoint>, speed: SpeedBetween, dist: Distance) returns (st': Stats)
    requires q.Valid() && q.length == WindowSize
    modifies q, q.data
    ensures q.Valid() && q.data == old(q.data) && q.length == WindowSize
    ensures Analysis(q.Contents, st') == Run(Analysis(old(q.Contents), st), SegmentEntries(points), speed, dist)
  {
    st' := st;
    ghost var start := Analysis(q.Contents, st);
    for pi := 0 to |points|
      invariant q.Valid() && q.data == old(q.data) && q.length == WindowSize
      invariant pi > 0 ==> q.Contents != []
      invariant Run(start, SegmentEntries(points[..pi]), speed, dist) == Analysis(q.Contents, st')
    {
      var e := Entry(points[pi], pi == 0);
      SegmentEntriesSnoc(points, pi);
      RunSnoc(start, SegmentEntries(points[..pi]), e, speed, dist);
      st' := VisitPoint(q, st', points[pi], pi == 0, speed, dist);
    }
    assert points[..|points|] == points;
  }

  /**
   * The body of the innermost loop for one point: the first point of a
   * segment is only pushed; any other is compared with the queue's head,
   * then pushed.
   */
  method VisitPoint(q: Queue, st: Stats, point: GeoPoint, first: bool, speed: SpeedBetween, dist: Distance)
    returns (st': Stats)
    requires q.Valid() && q.length == WindowSize && (first || q.Contents != [])
    modifies q, q.data
    ensures q.Valid() && q.data == old(q.data) && q.length == WindowSize
    ensures Analysis(q.Contents, st') == Step(Analysis(old(q.Contents), st), Entry(point, first), speed, dist)
  {
    st' := st;
    if first {
      q.Push(point);
      return;
    }
    var previousPoint := q.GetFirst();
    var curSpeed := speed(point, previousPoint);
    if curSpeed > st'.maxSpeed {
      st' := st'.(maxSpeed := curSpeed, maxSpeedPoint := Loc(point));
    }
    assert st' == RecordSpeed(st, curSpeed, point);
    var distance := dist(point.lat, point.lon, previousPoint.lat, previousPoint.lon);
    var elevationDiff := point.elevation - previousPoint.elevation;
    ghost var sped := st';
    if distance > 0.0 && elevationDiff != 0.0 && Abs(elevationDiff) < distance {
      if elevationDiff < 0.0 {
        var slope := 100.0 * elevationDiff / distance;
        if st'.maxDownSlope > slope {
          st' := st'.(maxDownSlope := slope, maxDownSlopePoint := Loc(point));
        }
      } else {
        var slope := 100.0 * elevationDiff / distance;
        if slope > st'.maxUpSlope {
          st' := st'.(maxUpSlope := slope, maxUpSlopePoint := Loc(point));
        }
      }
    }
    assert st' == RecordSlope(sped, PairSlope(previousPoint, point, dist), point);
    q.Push(point);
  }
}
