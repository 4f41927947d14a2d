/**
 * The bounded window of `queue.go`: a queue of fixed capacity that keeps its
 * points newest first, inserts at the head and evicts the tail (the oldest
 * point) when a push overflows the capacity.
 *
 * The source links its points through its `next` and `previous` fields; here the
 * same queue is a ring buffer over an array, whose abstract value is the
 * ghost sequence `Contents`, newest first.
 */
module Queues {
  import opened Geo

  /**
   * The window after pushing `p` onto window `w` of capacity `n`: `p` goes in
   * front, and when that makes the window longer than `n` the last (oldest)
   * point is dropped.
   */
  function PushOnto<T>(w: seq<T>, p: T, n: nat): (r: seq<T>)
    requires n >= 1
    ensures |w| <= n ==> 1 <= |r| <= n
    ensures |r| >= 1 && r[0] == p
    ensures |w| < n ==> r == [p] + w
    ensures |w| == n ==> r == [p] + w[..n - 1]
  {
    var s := [p] + w;
    if |s| > n then s[..|s| - 1] else s
  }

  /** The window after pushing every point of `ps`, in order, onto `w`. */
  function PushAll<T>(w: seq<T>, ps: seq<T>, n: nat): seq<T>
    requires n >= 1
  {
    if ps == [] then w else PushOnto(PushAll(w, ps[..|ps| - 1], n), ps[|ps| - 1], n)
  }

  function Min(a: int, b: int): int
  {
    if a < b then a else b
  }

  /** `s` back to front. */
  function Reverse<T>(s: seq<T>): (r: seq<T>)
    ensures |r| == |s|
    ensures forall i :: 0 <= i < |s| ==> r[i] == s[|s| - 1 - i]
  {
    seq(|s|, i requires 0 <= i < |s| => s[|s| - 1 - i])
  }

  /** The last `min(|ps|, n)` points of `ps`, newest first. */
  function Recent<T>(ps: seq<T>, n: nat): seq<T>
  {
    Reverse(ps[|ps| - Min(|ps|, n)..])
  }

  /**
   * Pushing `ps` one by one into an empty window of capacity `n` leaves
   * exactly the last `min(|ps|, n)` points pushed, newest first.
   */
  lemma {:induction false} PushAllKeepsRecent<T>(ps: seq<T>, n: nat)
    requires n >= 1
    ensures PushAll([], ps, n) == Recent(ps, n)
    ensures |PushAll([], ps, n)| == Min(|ps|, n)
  {
    if ps != [] {
      var init, p := ps[..|ps| - 1], ps[|ps| - 1];
      PushAllKeepsRecent(init, n);
      var w := Recent(init, n);
      var r := PushOnto(w, p, n);
      assert PushAll([], ps, n) == r;
      var m := Min(|init|, n);
      if |init| < n {
        assert init[|init| - m..] == init;
        assert ps[|ps| - Min(|ps|, n)..] == ps;
        assert r == [p] + w;
      } else {
        var tail := init[|init| - n..];
        assert r == [p] + w[..n - 1];
        assert ps[|ps| - Min(|ps|, n)..] == tail[1..] + [p];
      }
    }
  }

  /** After any pushes, the newest point of the window is the one pushed last. */
  lemma NewestIsLastPushed<T>(w: seq<T>, ps: seq<T>, n: nat)
    requires n >= 1 && ps != []
    ensures PushAll(w, ps, n) != [] && PushAll(w, ps, n)[0] == ps[|ps| - 1]
  {
  }

  /** A window never grows past its capacity. */
  lemma {:induction false} PushAllBounded<T>(w: seq<T>, ps: seq<T>, n: nat)
    requires n >= 1 && |w| <= n
    ensures |PushAll(w, ps, n)| <= n
    ensures ps != [] ==> PushAll(w, ps, n) != []
  {
    if ps != [] {
      PushAllBounded(w, ps[..|ps| - 1], n);
    }
  }

  /** Capacity 3, five pushes p1..p5: the window is [p5, p4, p3]. */
  lemma FivePushesIntoThree<T>(p1: T, p2: T, p3: T, p4: T, p5: T)
    ensures PushAll([], [p1, p2, p3, p4, p5], 3) == [p5, p4, p3]
  {
    PushAllKeepsRecent([p1, p2, p3, p4, p5], 3);
    assert [p1, p2, p3, p4, p5][2..] == [p3, p4, p5];
  }

  /** `Queue` of `queue.go`, holding GPX points. */
  class Queue {
    /** The ring: the newest point is at `data[head]`, older ones follow, wrapping around. */
    var data: array<GeoPoint>
    var head: nat
    /** The capacity, as passed to `NewQueue`. */
    var length: int
    /** The number of points held. */
    var elements: nat

    /** The points held, newest first. */
    ghost var Contents: seq<GeoPoint>

    /** Array slot of the `k`-th newest point. */
    function Slot(k: nat): nat
      reads this, data
      requires head < data.Length && k < data.Length
      ensures Slot(k) < data.Length
    {
      if head + k < data.Length then head + k else head + k - data.Length
    }

    ghost predicate Valid()
      reads this, data
    {
      && data.Length == (if length > 0 then length else 0)
      && elements == |Contents|
      && elements <= data.Length
      && (data.Length > 0 ==> head < data.Length)
      && forall k :: 0 <= k < elements ==> Contents[k] == data[Slot(k)]
    }

    /** `NewQueue(n)`: an empty queue of capacity `n`. */
    constructor (n: int)
      ensures Valid() && fresh(data)
      ensures length == n && elements == 0 && Contents == []
    {
      data := new GeoPoint[if n > 0 then n else 0](_ => GeoPoint(0.0, 0.0, 0.0, 0));
      head := 0;
      length := n;
      elements := 0;
      Contents := [];
    }

    /**
     * `Push(p)`: `p` becomes the newest point; on overflow the oldest point
     * is evicted. The source dereferences a nil tail when the capacity is
     * below one, so a capacity of at least one is required.
     */
    method Push(p: GeoPoint)
      requires Valid() && length >= 1
      modifies this, data
      ensures Valid() && data == old(data) && length == old(length)
      ensures Contents == PushOnto(old(Contents), p, length)
    {
      var n := data.Length;
      ghost var before := Contents;
      head := if head == 0 then n - 1 else head - 1;
      data[head] := p;
      if elements < n {
        elements := elements + 1;
        Contents := [p] + before;
      } else {
        Contents := [p] + before[..n - 1];
      }
      forall k | 1 <= k < elements
        ensures Contents[k] == data[Slot(k)]
      {
        assert Slot(k) == old(Slot(k - 1));
      }
    }

    /** `GetFirst()`: the newest point; the source dereferences a nil head on an empty queue. */
    method GetFirst() returns (p: GeoPoint)
      requires Valid() && elements > 0
      ensures p == Contents[0]
    {
      p := data[head];
    }

    /** `GetLast()`: the oldest point; the source dereferences a nil tail on an empty queue. */
    method GetLast() returns (p: GeoPoint)
      requires Valid() && elements > 0
      ensures p == Contents[elements - 1]
    {
      p := data[Slot(elements - 1)];
    }

    /** `GetArray()`: every point held, newest first, walking from the head. */
    method GetArray() returns (points: seq<GeoPoint>)
      requires Valid()
      ensures points == Contents
    {
      var result := new GeoPoint[elements](_ => GeoPoint(0.0, 0.0, 0.0, 0));
      var at := head;
      var i := 0;
      while i < elements
        invariant 0 <= i <= elements
        invariant elements > 0 ==> at < data.Length && (i < elements ==> at == Slot(i))
        invariant forall k :: 0 <= k < i ==> result[k] == Contents[k]
      {
        result[i] := data[at];
        at := if at + 1 == data.Length then 0 else at + 1;
        i := i + 1;
      }
      points := result[..];
    }
  }
}
