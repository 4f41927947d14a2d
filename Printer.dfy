/**
 * The accumulation loop of `PrintCombinedStats` in `tools/printer.go`: one
 * pass over several GPX files that sums their moving and stopped times (only
 * over files whose timestamps are valid), lists the files whose timestamps
 * are not, sums their moving distances, and keeps six extrema, each with the
 * name of the file that produced it.
 */
module Printer {
  import opened Geo
  import opened Track
  import opened Stats

  /**
   * A parsed GPX file, with the figures gpxgo's `MovingData()` and
   * `ElevationBounds()` report for it (times in seconds, distance in metres).
   */
  datatype GpxFile = GpxFile(
    tracks: seq<GpxTrack>,
    movingTime: real, stoppedTime: real, movingDistance: real,
    minElevation: real, maxElevation: real)

  /** An extreme value and the name of the file it came from ("" for none). */
  datatype Extremum = Extremum(value: real, file: string)

  /** The accumulators of the loop, as they stand after it. */
  datatype Combined = Combined(
    movingTime: real, stoppedTime: real,
    minElevation: Extremum, maxElevation: Extremum,
    minGradient: Extremum, maxGradient: Extremum,
    totalDistance: real,
    maxSpeed: Extremum, maxStretch: Extremum,
    ignoredTimeFiles: seq<string>)

  /** Go's `math.MaxFloat64`. */
  const MaxFloat64: real := 179769313486231570814527423731704356798070567525844996598917476803157260780028538760589558632766878171540458953514382464234321326889464182768467546703537516986049910576551282076245490090389328944075868508455133942304583236903222948165808559332123348274797826204144723168738177180919299881250404026184124858368.0

  /** The accumulators before the loop. */
  function Initial(): Combined
  {
    Combined(0.0, 0.0, Extremum(MaxFloat64, ""), Extremum(0.0, ""), Extremum(-100.0, ""),
             Extremum(0.0, ""), 0.0, Extremum(0.0, ""), Extremum(0.0, ""), [])
  }

  /** What one iteration of the loop sees: the file, its name and its stats. */
  datatype Report = Report(file: GpxFile, name: string, stats: Stats)

  /** The reports of the loop over `files`, each file analysed from `start`. */
  function Reports(start: Stats, files: seq<GpxFile>, fnames: seq<string>, dist: Distance): (rs: seq<Report>)
    requires |fnames| >= |files|
    ensures |rs| == |files|
    ensures forall i :: 0 <= i < |files| ==>
      rs[i] == Report(files[i], fnames[i], Analyse(start, files[i].tracks, dist))
  {
    seq(|files|, i requires 0 <= i < |files| => Report(files[i], fnames[i], Analyse(start, files[i].tracks, dist)))
  }

  /** Replace `e` by `c` when `c` is strictly smaller. */
  function Lower(e: Extremum, c: Extremum): Extremum
  {
    if e.value > c.value then c else e
  }

  /** Replace `e` by `c` when `c` is strictly larger. */
  function Higher(e: Extremum, c: Extremum): Extremum
  {
    if e.value < c.value then c else e
  }

  /** One iteration of the loop. */
  function Accumulate(c: Combined, r: Report): Combined
  {
    var f, st := r.file, r.stats;
    Combined(
      if st.invalidTime then c.movingTime else c.movingTime + f.movingTime,
      if st.invalidTime then c.stoppedTime else c.stoppedTime + f.stoppedTime,
      Lower(c.minElevation, Extremum(f.minElevation, r.name)),
      Higher(c.maxElevation, Extremum(f.maxElevation, r.name)),
      Lower(c.minGradient, Extremum(st.maxDownSlope, r.name)),
      Higher(c.maxGradient, Extremum(st.maxUpSlope, r.name)),
      c.totalDistance + f.movingDistance,
      Higher(c.maxSpeed, Extremum(st.maxSpeed, r.name)),
      Higher(c.maxStretch, Extremum(f.movingDistance, r.name)),
      if st.invalidTime then c.ignoredTimeFiles + [r.name] else c.ignoredTimeFiles)
  }

  /** The accumulators after the loop has visited `rs`, starting from `c`. */
  function CombineAll(c: Combined, rs: seq<Report>): Combined
  {
    if rs == [] then c else Accumulate(CombineAll(c, rs[..|rs| - 1]), rs[|rs| - 1])
  }

  /** One more iteration of the loop. */
  lemma CombineAllSnoc(c: Combined, rs: seq<Report>, i: nat)
    requires i < |rs|
    ensures CombineAll(c, rs[..i + 1]) == Accumulate(CombineAll(c, rs[..i]), rs[i])
  {
    assert rs[..i + 1][..i] == rs[..i];
  }

  /** The per-file figures each extremum is taken over. */
  datatype Figure = MinElevation | MaxElevation | DownSlope | UpSlope | Speed | Stretch

  function FigureOf(r: Report, f: Figure): real
  {
    match f
    case MinElevation => r.file.minElevation
    case MaxElevation => r.file.maxElevation
    case DownSlope => r.stats.maxDownSlope
    case UpSlope => r.stats.maxUpSlope
    case Speed => r.stats.maxSpeed
    case Stretch => r.file.movingDistance
  }

  /** Each file's value of figure `f`, with the file's name. */
  function Candidates(rs: seq<Report>, f: Figure): (cs: seq<Extremum>)
    ensures |cs| == |rs|
    ensures forall i :: 0 <= i < |rs| ==> cs[i] == Extremum(FigureOf(rs[i], f), rs[i].name)
  {
    seq(|rs|, i requires 0 <= i < |rs| => Extremum(FigureOf(rs[i], f), rs[i].name))
  }

  /**
   * The smallest of `init` and the candidates `cs`, which is `init` itself
   * unless a candidate is strictly smaller; otherwise the earliest candidate
   * of that smallest value.
   */
  function Lowest(init: Extremum, cs: seq<Extremum>): (r: Extremum)
    ensures r.value <= init.value
    ensures forall i :: 0 <= i < |cs| ==> r.value <= cs[i].value
    ensures r.value < init.value ==>
      exists i :: 0 <= i < |cs| && r == cs[i] && forall j :: 0 <= j < i ==> cs[j].value > r.value
    ensures r.value == init.value ==> r == init
  {
    if cs == [] then init
    else
      var p, c := Lowest(init, cs[..|cs| - 1]), cs[|cs| - 1];
      assert forall i :: 0 <= i < |cs| - 1 ==> cs[..|cs| - 1][i] == cs[i];
      Lower(p, c)
  }

  /**
   * The largest of `init` and the candidates `cs`, which is `init` itself
   * unless a candidate is strictly larger; otherwise the earliest candidate
   * of that largest value.
   */
  function Highest(init: Extremum, cs: seq<Extremum>): (r: Extremum)
    ensures r.value >= init.value
    ensures forall i :: 0 <= i < |cs| ==> r.value >= cs[i].value
    ensures r.value > init.value ==>
      exists i :: 0 <= i < |cs| && r == cs[i] && forall j :: 0 <= j < i ==> cs[j].value < r.value
    ensures r.value == init.value ==> r == init
  {
    if cs == [] then init
    else
      var p, c := Highest(init, cs[..|cs| - 1]), cs[|cs| - 1];
      assert forall i :: 0 <= i < |cs| - 1 ==> cs[..|cs| - 1][i] == cs[i];
      Higher(p, c)
  }

  /** The reports of the files whose timestamps are valid, in order. */
  function Timed(rs: seq<Report>): seq<Report>
  {
    if rs == [] then []
    else Timed(rs[..|rs| - 1]) + if rs[|rs| - 1].stats.invalidTime then [] else [rs[|rs| - 1]]
  }

  /** The reports of the files whose timestamps are invalid, in order. */
  function Untimed(rs: seq<Report>): seq<Report>
  {
    if rs == [] then []
    else Untimed(rs[..|rs| - 1]) + if rs[|rs| - 1].stats.invalidTime then [rs[|rs| - 1]] else []
  }

  /**
   * The timed reports are exactly those of `rs` with valid timestamps, the
   * untimed ones exactly the others.
   */
  lemma {:induction false} TimedMembers(rs: seq<Report>)
    ensures forall r :: r in Timed(rs) <==> r in rs && !r.stats.invalidTime
    ensures forall r :: r in Untimed(rs) <==> r in rs && r.stats.invalidTime
  {
    if rs != [] {
      var init := rs[..|rs| - 1];
      TimedMembers(init);
      assert rs == init + [rs[|rs| - 1]];
    }
  }

  /** Every report is either timed or untimed. */
  lemma {:induction false} TimedUntimedPartition(rs: seq<Report>)
    ensures |Timed(rs)| + |Untimed(rs)| == |rs|
  {
    if rs != [] {
      TimedUntimedPartition(rs[..|rs| - 1]);
    }
  }

  function Names(rs: seq<Report>): (ns: seq<string>)
    ensures |ns| == |rs|
    ensures forall i :: 0 <= i < |rs| ==> ns[i] == rs[i].name
  {
    seq(|rs|, i requires 0 <= i < |rs| => rs[i].name)
  }

  function MovingTimes(rs: seq<Report>): (ts: seq<real>)
    ensures |ts| == |rs|
    ensures forall i :: 0 <= i < |rs| ==> ts[i] == rs[i].file.movingTime
  {
    seq(|rs|, i requires 0 <= i < |rs| => rs[i].file.movingTime)
  }

  function StoppedTimes(rs: seq<Report>): (ts: seq<real>)
    ensures |ts| == |rs|
    ensures forall i :: 0 <= i < |rs| ==> ts[i] == rs[i].file.stoppedTime
  {
    seq(|rs|, i requires 0 <= i < |rs| => rs[i].file.stoppedTime)
  }

  function Distances(rs: seq<Report>): (ds: seq<real>)
    ensures |ds| == |rs|
    ensures forall i :: 0 <= i < |rs| ==> ds[i] == rs[i].file.movingDistance
  {
    seq(|rs|, i requires 0 <= i < |rs| => rs[i].file.movingDistance)
  }

  /** The accumulator that keeps the extremum of figure `f`. */
  function Best(c: Combined, f: Figure): Extremum
  {
    match f
    case MinElevation => c.minElevation
    case MaxElevation => c.maxElevation
    case DownSlope => c.minGradient
    case UpSlope => c.maxGradient
    case Speed => c.maxSpeed
    case Stretch => c.maxStretch
  }

  /** The figures whose extremum is a minimum. */
  predicate Lowers(f: Figure)
  {
    f == MinElevation || f == DownSlope
  }

  lemma AccumulateBest(c: Combined, r: Report, f: Figure)
    ensures Best(Accumulate(c, r), f) ==
      if Lowers(f) then Lower(Best(c, f), Extremum(FigureOf(r, f), r.name))
      else Higher(Best(c, f), Extremum(FigureOf(r, f), r.name))
  {
  }

  /**
   * Each extremum the loop keeps is the lowest or highest of its initial
   * value and every file's value of its figure.
   */
  lemma {:induction false} CombineAllBest(c: Combined, rs: seq<Report>, f: Figure)
    ensures Best(CombineAll(c, rs), f) ==
      if Lowers(f) then Lowest(Best(c, f), Candidates(rs, f)) else Highest(Best(c, f), Candidates(rs, f))
  {
    if rs != [] {
      var init := rs[..|rs| - 1];
      CombineAllBest(c, init, f);
      assert Candidates(rs, f)[..|rs| - 1] == Candidates(init, f);
      AccumulateBest(CombineAll(c, init), rs[|rs| - 1], f);
    }
  }

  /**
   * The times the loop accumulates are sums over the files with valid
   * timestamps, and the distance is a sum over every file.
   */
  lemma {:induction false} CombineAllSums(c: Combined, rs: seq<Report>)
    ensures var r := CombineAll(c, rs);
      && r.movingTime == c.movingTime + Sum(MovingTimes(Timed(rs)))
      && r.stoppedTime == c.stoppedTime + Sum(StoppedTimes(Timed(rs)))
      && r.totalDistance == c.totalDistance + Sum(Distances(rs))
  {
    if rs != [] {
      var init, x := rs[..|rs| - 1], rs[|rs| - 1];
      CombineAllSums(c, init);
      assert Distances(rs) == Distances(init) + [x.file.movingDistance];
      SumAppend(Distances(init), [x.file.movingDistance]);
      if x.stats.invalidTime {
        assert Timed(rs) == Timed(init);
      } else {
        assert Timed(rs) == Timed(init) + [x];
        assert MovingTimes(Timed(rs)) == MovingTimes(Timed(init)) + [x.file.movingTime];
        assert StoppedTimes(Timed(rs)) == StoppedTimes(Timed(init)) + [x.file.stoppedTime];
        SumAppend(MovingTimes(Timed(init)), [x.file.movingTime]);
        SumAppend(StoppedTimes(Timed(init)), [x.file.stoppedTime]);
      }
    }
  }

  /** The names the loop collects are those of the files with invalid timestamps, in order. */
  lemma {:induction false} CombineAllIgnored(c: Combined, rs: seq<Report>)
    ensures CombineAll(c, rs).ignoredTimeFiles == c.ignoredTimeFiles + Names(Untimed(rs))
  {
    if rs != [] {
      var init, x := rs[..|rs| - 1], rs[|rs| - 1];
      CombineAllIgnored(c, init);
      if x.stats.invalidTime {
        assert Names(Untimed(rs)) == Names(Untimed(init)) + [x.name];
      }
    }
  }

  /** The combined figures of `files`, as `PrintCombinedStats` accumulates them. */
  function Combine(files: seq<GpxFile>, fnames: seq<string>, dist: Distance): Combined
    requires |fnames| >= |files|
  {
    CombineAll(Initial(), Reports(NewStats(), files, fnames, dist))
  }

  /** The body of the loop, for one file, its name and its stats. */
  method AccumulateFile(c0: Combined, gpxFile: GpxFile, name: string, st: Stats) returns (c: Combined)
    ensures c == Accumulate(c0, Report(gpxFile, name, st))
  {
    c := c0;
    if !st.invalidTime {
      c := c.(movingTime := c.movingTime + gpxFile.movingTime,
              stoppedTime := c.stoppedTime + gpxFile.stoppedTime);
    } else {
      c := c.(ignoredTimeFiles := c.ignoredTimeFiles + [name]);
    }
    ghost var r := Report(gpxFile, name, st);
    assert c.movingTime == Accumulate(c0, r).movingTime && c.stoppedTime == Accumulate(c0, r).stoppedTime;
    assert c.ignoredTimeFiles == Accumulate(c0, r).ignoredTimeFiles;
    if c.minElevation.value > gpxFile.minElevation {
      c := c.(minElevation := Extremum(gpxFile.minElevation, name));
    }
    assert c.minElevation == Accumulate(c0, r).minElevation;
    if c.maxElevation.value < gpxFile.maxElevation {
      c := c.(maxElevation := Extremum(gpxFile.maxElevation, name));
    }
    assert c.maxElevation == Accumulate(c0, r).maxElevation;
    if c.minGradient.value > st.maxDownSlope {
      c := c.(minGradient := Extremum(st.maxDownSlope, name));
    }
    assert c.minGradient == Accumulate(c0, r).minGradient;
    if c.maxGradient.value < st.maxUpSlope {
      c := c.(maxGradient := Extremum(st.maxUpSlope, name));
    }
    assert c.maxGradient == Accumulate(c0, r).maxGradient;
    c := c.(totalDistance := c.totalDistance + gpxFile.movingDistance);
    if c.maxSpeed.value < st.maxSpeed {
      c := c.(maxSpeed := Extremum(st.maxSpeed, name));
    }
    assert c.maxSpeed == Accumulate(c0, r).maxSpeed;
    if gpxFile.movingDistance > c.maxStretch.value {
      c := c.(maxStretch := Extremum(gpxFile.movingDistance, name));
    }
  }

  /**
   * The accumulation loop of `PrintCombinedStats`; it runs `getStats` on
   * each file and folds the results into the accumulators it then prints.
   * `fnames[i]` names `gpxFiles[i]`, so there must be a name for each file.
   */
  method CombineFiles(gpxFiles: seq<GpxFile>, fnames: seq<string>, dist: Distance) returns (c: Combined)
    requires |fnames| >= |gpxFiles|
    ensures c == Combine(gpxFiles, fnames, dist)
  {
    c := Combined(0.0, 0.0, Extremum(MaxFloat64, ""), Extremum(0.0, ""), Extremum(-100.0, ""),
                  Extremum(0.0, ""), 0.0, Extremum(0.0, ""), Extremum(0.0, ""), []);
    ghost var rs := Reports(NewStats(), gpxFiles, fnames, dist);

    var i := 0;
    while i < |gpxFiles|
      invariant 0 <= i <= |gpxFiles|
      invariant c == CombineAll(Initial(), rs[..i])
    {
      var st := GetStats(gpxFiles[i].tracks, dist);
      c := AccumulateFile(c, gpxFiles[i], fnames[i], st);
      CombineAllSnoc(Initial(), rs, i);
      i := i + 1;
    }
    assert rs[..i] == rs;
  }

  /**
   * Over files whose timestamps are all valid, the times are the sums over
   * every file and no file is ignored; the distance is always the sum over
   * every file.
   */
  lemma CombineAllTimed(files: seq<GpxFile>, fnames: seq<string>, dist: Distance)
    requires |fnames| >= |files|
    requires forall i :: 0 <= i < |files| ==> !Analyse(NewStats(), files[i].tracks, dist).invalidTime
    ensures var rs, c := Reports(NewStats(), files, fnames, dist), Combine(files, fnames, dist);
      && c.movingTime == Sum(MovingTimes(rs))
      && c.stoppedTime == Sum(StoppedTimes(rs))
      && c.totalDistance == Sum(Distances(rs))
      && c.ignoredTimeFiles == []
  {
    var rs := Reports(NewStats(), files, fnames, dist);
    CombineAllSums(Initial(), rs);
    CombineAllIgnored(Initial(), rs);
    TimedAll(rs);
  }

  /** Filtering reports that all have valid timestamps keeps them all. */
  lemma {:induction false} TimedAll(rs: seq<Report>)
    requires forall i :: 0 <= i < |rs| ==> !rs[i].stats.invalidTime
    ensures Timed(rs) == rs && Untimed(rs) == []
  {
    if rs != [] {
      TimedAll(rs[..|rs| - 1]);
      assert rs[..|rs| - 1] + [rs[|rs| - 1]] == rs;
    }
  }

  /** The names of the untimed reports are exactly those of the reports with invalid timestamps. */
  lemma UntimedNames(rs: seq<Report>)
    ensures forall name :: name in Names(Untimed(rs)) <==>
      exists i :: 0 <= i < |rs| && rs[i].name == name && rs[i].stats.invalidTime
  {
    var us := Untimed(rs);
    TimedMembers(rs);
    forall name | name in Names(us)
      ensures exists i :: 0 <= i < |rs| && rs[i].name == name && rs[i].stats.invalidTime
    {
      var k :| 0 <= k < |us| && Names(us)[k] == name;
      assert us[k] in rs;
    }
    forall i | 0 <= i < |rs| && rs[i].stats.invalidTime
      ensures rs[i].name in Names(us)
    {
      assert rs[i] in rs;
      var k :| 0 <= k < |us| && us[k] == rs[i];
      assert Names(us)[k] == rs[i].name;
    }
  }

  /**
   * The ignored list names exactly the files whose timestamps are invalid,
   * as many as there are such files.
   */
  lemma IgnoredExactly(files: seq<GpxFile>, fnames: seq<string>, dist: Distance)
    requires |fnames| >= |files|
    ensures var rs, c := Reports(NewStats(), files, fnames, dist), Combine(files, fnames, dist);
      && |c.ignoredTimeFiles| + |Timed(rs)| == |files|
      && forall name :: name in c.ignoredTimeFiles <==>
           exists i :: 0 <= i < |files| && fnames[i] == name && Analyse(NewStats(), files[i].tracks, dist).invalidTime
  {
    var rs := Reports(NewStats(), files, fnames, dist);
    CombineAllIgnored(Initial(), rs);
    TimedUntimedPartition(rs);
    UntimedNames(rs);
  }

  /**
   * The extrema of the combined figures: each is bounded by its initial
   * value and by every file's value, is a file's value and name only when
   * that file strictly beats the initial value (the earliest such file on
   * ties), and otherwise keeps the initial value and the empty name.
   */
  lemma CombinedExtrema(files: seq<GpxFile>, fnames: seq<string>, dist: Distance)
    requires |fnames| >= |files|
    ensures var rs, c := Reports(NewStats(), files, fnames, dist), Combine(files, fnames, dist);
      && c.minElevation == Lowest(Extremum(MaxFloat64, ""), Candidates(rs, MinElevation))
      && c.maxElevation == Highest(Extremum(0.0, ""), Candidates(rs, MaxElevation))
      && c.minGradient == Lowest(Extremum(-100.0, ""), Candidates(rs, DownSlope))
      && c.maxGradient == Highest(Extremum(0.0, ""), Candidates(rs, UpSlope))
      && c.maxSpeed == Highest(Extremum(0.0, ""), Candidates(rs, Speed))
      && c.maxStretch == Highest(Extremum(0.0, ""), Candidates(rs, Stretch))
  {
    var rs := Reports(NewStats(), files, fnames, dist);
    CombineAllBest(Initial(), rs, MinElevation);
    CombineAllBest(Initial(), rs, MaxElevation);
    CombineAllBest(Initial(), rs, DownSlope);
    CombineAllBest(Initial(), rs, UpSlope);
    CombineAllBest(Initial(), rs, Speed);
    CombineAllBest(Initial(), rs, Stretch);
  }

  /**
   * As written, the combined minimum gradient never moves from its initial
   * -100: every file's down-slope record is itself stuck at -100, which is
   * not strictly below it, so the file name stays empty for every input.
   */
  lemma MinGradientNeverSet(files: seq<GpxFile>, fnames: seq<string>, dist: Distance)
    requires |fnames| >= |files|
    ensures Combine(files, fnames, dist).minGradient == Extremum(-100.0, "")
  {
    var rs := Reports(NewStats(), files, fnames, dist);
    CombineAllBest(Initial(), rs, DownSlope);
    forall i | 0 <= i < |rs| ensures Candidates(rs, DownSlope)[i].value == -100.0 {
      AnalysedBounds(files[i].tracks, dist);
    }
  }

  /** The accumulators the loop evidently means to start from: the minimum gradient starts at 0. */
  function CorrectedInitial(): (c: Combined)
    ensures c.minGradient == Extremum(0.0, "") && c == Initial().(minGradient := Extremum(0.0, ""))
  {
    Initial().(minGradient := Extremum(0.0, ""))
  }

  /** The combined figures with both starting points corrected. */
  function CorrectedCombine(files: seq<GpxFile>, fnames: seq<string>, dist: Distance): Combined
    requires |fnames| >= |files|
  {
    CombineAll(CorrectedInitial(), Reports(CorrectedStats(), files, fnames, dist))
  }

  /**
   * With both starting points corrected, the combined minimum gradient is
   * the steepest descent of all files: at most every negative slope taken in
   * any file, negative exactly when some file has one, and then the
   * down-slope record of a file whose name it carries.
   */
  lemma CorrectedMinGradientIsSteepest(files: seq<GpxFile>, fnames: seq<string>, dist: Distance)
    requires |fnames| >= |files|
    ensures var g := CorrectedCombine(files, fnames, dist).minGradient;
      && (forall i, k: nat :: 0 <= i < |files| && DescentAt(FileEntries(files[i].tracks), k, dist) ==>
            g.value <= SlopeAt([], FileEntries(files[i].tracks), k, dist).value)
      && (g.value < 0.0 <==> exists i :: 0 <= i < |files| && HasDescent(FileEntries(files[i].tracks), dist))
      && (g.value < 0.0 ==>
            exists i :: 0 <= i < |files| && g.file == fnames[i]
                        && g.value == Analyse(CorrectedStats(), files[i].tracks, dist).maxDownSlope)
  {
    CorrectedMinGradientDominates(files, fnames, dist);
    CorrectedMinGradientAttained(files, fnames, dist);
    if exists i :: 0 <= i < |files| && HasDescent(FileEntries(files[i].tracks), dist) {
      var i :| 0 <= i < |files| && HasDescent(FileEntries(files[i].tracks), dist);
      CorrectedMinGradientExists(files, fnames, dist, i);
    }
  }

  /** The corrected combined minimum gradient is the lowest of the files' down-slope records. */
  lemma CorrectedMinGradientLowest(files: seq<GpxFile>, fnames: seq<string>, dist: Distance)
    requires |fnames| >= |files|
    ensures var cs := Candidates(Reports(CorrectedStats(), files, fnames, dist), DownSlope);
      CorrectedCombine(files, fnames, dist).minGradient == Lowest(Extremum(0.0, ""), cs)
  {
    CombineAllBest(CorrectedInitial(), Reports(CorrectedStats(), files, fnames, dist), DownSlope);
  }

  lemma CorrectedMinGradientDominates(files: seq<GpxFile>, fnames: seq<string>, dist: Distance)
    requires |fnames| >= |files|
    ensures var g := CorrectedCombine(files, fnames, dist).minGradient;
      forall i, k: nat :: 0 <= i < |files| && DescentAt(FileEntries(files[i].tracks), k, dist) ==>
        g.value <= SlopeAt([], FileEntries(files[i].tracks), k, dist).value
  {
    var cs := Candidates(Reports(CorrectedStats(), files, fnames, dist), DownSlope);
    CorrectedMinGradientLowest(files, fnames, dist);
    var g := Lowest(Extremum(0.0, ""), cs);
    forall i, k: nat | 0 <= i < |files| && DescentAt(FileEntries(files[i].tracks), k, dist)
      ensures g.value <= SlopeAt([], FileEntries(files[i].tracks), k, dist).value
    {
      FileDescentDominated(files[i], k, dist);
      assert g.value <= cs[i].value;
    }
  }

  /** A descent in one file is at least the file's corrected down-slope record. */
  lemma FileDescentDominated(f: GpxFile, k: nat, dist: Distance)
    requires DescentAt(FileEntries(f.tracks), k, dist)
    ensures Analyse(CorrectedStats(), f.tracks, dist).maxDownSlope <= SlopeAt([], FileEntries(f.tracks), k, dist).value
  {
    CorrectedDownSlopeIsSteepest(f.tracks, dist);
  }

  /** A file with a descent has a negative corrected down-slope record. */
  lemma FileDescentNegative(f: GpxFile, dist: Distance)
    requires HasDescent(FileEntries(f.tracks), dist)
    ensures Analyse(CorrectedStats(), f.tracks, dist).maxDownSlope < 0.0
  {
    CorrectedDownSlopeIsSteepest(f.tracks, dist);
  }

  lemma CorrectedMinGradientAttained(files: seq<GpxFile>, fnames: seq<string>, dist: Distance)
    requires |fnames| >= |files|
    ensures var g := CorrectedCombine(files, fnames, dist).minGradient;
      g.value < 0.0 ==>
        && (exists i :: 0 <= i < |files| && HasDescent(FileEntries(files[i].tracks), dist))
        && exists i :: 0 <= i < |files| && g.file == fnames[i]
                     && g.value == Analyse(CorrectedStats(), files[i].tracks, dist).maxDownSlope
  {
    var cs := Candidates(Reports(CorrectedStats(), files, fnames, dist), DownSlope);
    CorrectedMinGradientLowest(files, fnames, dist);
    var g := Lowest(Extremum(0.0, ""), cs);
    if g.value < 0.0 {
      var i :| 0 <= i < |cs| && g == cs[i] && forall j :: 0 <= j < i ==> cs[j].value > g.value;
      CorrectedDownSlopeIsSteepest(files[i].tracks, dist);
      assert HasDescent(FileEntries(files[i].tracks), dist);
    }
  }

  lemma CorrectedMinGradientExists(files: seq<GpxFile>, fnames: seq<string>, dist: Distance, i: nat)
    requires |fnames| >= |files|
    requires i < |files| && HasDescent(FileEntries(files[i].tracks), dist)
    ensures CorrectedCombine(files, fnames, dist).minGradient.value < 0.0
  {
    var rs := Reports(CorrectedStats(), files, fnames, dist);
    var cs := Candidates(rs, DownSlope);
    CorrectedMinGradientLowest(files, fnames, dist);
    FileDescentNegative(files[i], dist);
    assert cs[i].value == Analyse(CorrectedStats(), files[i].tracks, dist).maxDownSlope;
    assert Lowest(Extremum(0.0, ""), cs).value <= cs[i].value;
  }

  /**
   * One file whose only segment drops 10 m over 20 m: as written the
   * combined minimum gradient stays at -100 with no file, while with both
   * starting points corrected it is the file's -50.
   */
  lemma DescentIgnoredCombined()
    ensures var p0, p1 := GeoPoint(0.0, 0.0, 10.0, 0), GeoPoint(0.0, 0.001, 0.0, 10 * NanosPerSecond);
      var file := GpxFile([GpxTrack([Segment([p0, p1])])], 10.0, 0.0, 20.0, 0.0, 10.0);
      var dist := (a: real, b: real, c: real, d: real) => 20.0;
      && Combine([file], ["down.gpx"], dist).minGradient == Extremum(-100.0, "")
      && CorrectedCombine([file], ["down.gpx"], dist).minGradient == Extremum(-50.0, "down.gpx")
  {
    var p0, p1 := GeoPoint(0.0, 0.0, 10.0, 0), GeoPoint(0.0, 0.001, 0.0, 10 * NanosPerSecond);
    var file := GpxFile([GpxTrack([Segment([p0, p1])])], 10.0, 0.0, 20.0, 0.0, 10.0);
    var dist := (a: real, b: real, c: real, d: real) => 20.0;
    DescentIgnored();
    MinGradientNeverSet([file], ["down.gpx"], dist);
    var rs := Reports(CorrectedStats(), [file], ["down.gpx"], dist);
    CombineAllBest(CorrectedInitial(), rs, DownSlope);
    var cs := Candidates(rs, DownSlope);
    assert cs == [Extremum(-50.0, "down.gpx")];
    assert cs[..0] == [];
  }
}
