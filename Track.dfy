/**
 * The nested structure a GPX file is parsed into (tracks of segments of
 * points), the order in which both revisions of `getStats` visit its points,
 * and the slope guard both revisions share.
 */
module Track {
  import opened Geo

  datatype Segment = Segment(points: seq<GeoPoint>)
  datatype GpxTrack = GpxTrack(segments: seq<Segment>)

  /**
   * One visit of the analyser's innermost loop: the point, and whether it is
   * the first point of its segment (index 0 of the range loop).
   */
  datatype Entry = Entry(point: GeoPoint, first: bool)

  /** The visits of one segment's loop, in order. */
  function SegmentEntries(points: seq<GeoPoint>): (es: seq<Entry>)
    ensures |es| == |points|
    ensures forall i :: 0 <= i < |es| ==> es[i].point == points[i] && (es[i].first <==> i == 0)
  {
    seq(|points|, i requires 0 <= i < |points| => Entry(points[i], i == 0))
  }

  /** One more iteration of a segment's loop adds one visit. */
  lemma SegmentEntriesSnoc(points: seq<GeoPoint>, i: nat)
    requires i < |points|
    ensures SegmentEntries(points[..i + 1]) == SegmentEntries(points[..i]) + [Entry(points[i], i == 0)]
  {
    var a, b := SegmentEntries(points[..i + 1]), SegmentEntries(points[..i]) + [Entry(points[i], i == 0)];
    assert |a| == |b|;
    forall k | 0 <= k < |a| ensures a[k] == b[k] {
    }
  }

  /** The visits of the loops over a track's segments, in order. */
  function TrackEntries(segments: seq<Segment>): (es: seq<Entry>)
    ensures StartsSegment(es)
  {
    if segments == [] then []
    else TrackEntries(segments[..|segments| - 1]) + SegmentEntries(segments[|segments| - 1].points)
  }

  /** The visits of the three nested loops over a file's tracks, in order. */
  function FileEntries(tracks: seq<GpxTrack>): (es: seq<Entry>)
    ensures StartsSegment(es)
  {
    if tracks == [] then []
    else FileEntries(tracks[..|tracks| - 1]) + TrackEntries(tracks[|tracks| - 1].segments)
  }

  /** The visited points, in visiting order. */
  function Points(es: seq<Entry>): (ps: seq<GeoPoint>)
    ensures |ps| == |es|
    ensures forall i :: 0 <= i < |es| ==> ps[i] == es[i].point
  {
    seq(|es|, i requires 0 <= i < |es| => es[i].point)
  }

  /** A stream of visits that begins with the first point of a segment, or is empty. */
  predicate StartsSegment(es: seq<Entry>)
  {
    es == [] || es[0].first
  }

  /**
   * The slope, in percent, that both revisions of `getStats` take from an
   * elevation difference and a distance: only when the distance is positive,
   * the difference is non-zero and smaller in magnitude than the distance.
   * Hence every slope taken lies strictly between -100 and 100.
   */
  function Slope(elevationDiff: real, distance: real): (s: Option<real>)
    ensures s.Some? <==> distance > 0.0 && elevationDiff != 0.0 && Abs(elevationDiff) < distance
    ensures s.Some? ==> -100.0 < s.value < 100.0 && s.value != 0.0
    ensures s.Some? ==> (s.value < 0.0 <==> elevationDiff < 0.0)
  {
    if distance > 0.0 && elevationDiff != 0.0 && Abs(elevationDiff) < distance then
      RatioBelowOne(elevationDiff, distance);
      Some(100.0 * elevationDiff / distance)
    else
      None
  }

  /** A quotient whose numerator is smaller in magnitude than its positive denominator. */
  lemma RatioBelowOne(a: real, d: real)
    requires d > 0.0 && Abs(a) < d
    ensures -100.0 < 100.0 * a / d < 100.0
    ensures 100.0 * a / d < 0.0 <==> a < 0.0
  {
    assert -d < a < d;
    var r := 100.0 * a / d;
    assert r * d == 100.0 * a;
    var above, below := (100.0 - r) * d, (100.0 + r) * d;
    assert above == 100.0 * d - r * d == 100.0 * (d - a);
    assert below == 100.0 * d + r * d == 100.0 * (d + a);
    assert above > 0.0 && below > 0.0;
    PositiveFactor(100.0 - r, d);
    PositiveFactor(100.0 + r, d);
    if a < 0.0 {
      PositiveFactor(-r, d);
    } else {
      assert r * d >= 0.0;
    }
  }

  datatype Option<T> = None | Some(value: T)

  /** A file of one two-point segment visits the first point as a segment start, then the second. */
  lemma OneSegmentEntries(p0: GeoPoint, p1: GeoPoint)
    ensures FileEntries([GpxTrack([Segment([p0, p1])])]) == [Entry(p0, true), Entry(p1, false)]
  {
    var es := [Entry(p0, true), Entry(p1, false)];
    assert SegmentEntries([p0, p1]) == es;
    assert TrackEntries([Segment([p0, p1])]) == es by {
      assert [Segment([p0, p1])][..0] == [];
    }
    assert [GpxTrack([Segment([p0, p1])])][..0] == [];
  }
}
