/** Key frames and trajectories (graphics/src/Animation.cc). */
module Animations {

  datatype KeyFrame<V> = KeyFrame(time: real, value: V)

  predicate Sorted<V>(frames: seq<KeyFrame<V>>) {
    forall j, k :: 0 <= j < k < |frames| ==> frames[j].time <= frames[k].time
  }

  /** Every frame is at a time from 0 up to the length. */
  predicate Within<V>(frames: seq<KeyFrame<V>>, length: real) {
    forall k :: 0 <= k < |frames| ==> 0.0 <= frames[k].time <= length
  }

  const EPSILON := 0.000001

  /** Equality of times, up to the library's default tolerance. */
  predicate Equal(a: real, b: real) {
    -EPSILON <= a - b <= EPSILON
  }

  /** The time is brought into the animation by taking off its length n times, and not once more than needed. */
  ghost predicate Wrapped(time: real, length: real, reduced: real, n: nat) {
    reduced == time - n as real * length && (n > 0 ==> reduced > 0.0) && (length > 0.0 ==> reduced <= length)
  }

  // -------- arithmetic --------

  /** How often the length goes into the time. */
  ghost function Rounds(time: real, length: real): nat {
    if length > 0.0 && time >= 0.0 then RoundedDown(time / length) else 0
  }

  ghost function RoundedDown(x: real): nat {
    if x >= 0.0 then x.Floor else 0
  }

  lemma QuotientStep(a: real, b: real)
    requires b > 0.0 && a > b
    ensures (a - b) / b == a / b - 1.0 && a / b > 1.0
    ensures Rounds(a - b, b) < Rounds(a, b)
  {
    var q := a / b;
    assert q * b == a;
    assert (q - 1.0) * b == a - b;
    QuotientIs(a - b, b, q - 1.0);
  }

  lemma NextRound(n: nat, x: real)
    ensures (n + 1) as real * x == n as real * x + x
  {
  }

  lemma QuotientIs(a: real, b: real, q: real)
    requires b > 0.0 && a == q * b
    ensures a / b == q
  {
    var r := a / b;
    assert r * b == a;
    assert (r - q) * b == 0.0;
  }

  lemma Portion(a: real, b: real)
    requires 0.0 <= a <= b && b > 0.0
    ensures 0.0 <= a / b <= 1.0 && a / b * b == a
  {
  }

  /** A value part of the way from one to another lies between them. */
  lemma PartOfTheWay(x: real, y: real, p: real)
    requires 0.0 <= p <= 1.0
    ensures x <= y ==> x <= x + (y - x) * p <= y
    ensures y <= x ==> y <= x + (y - x) * p <= x
  {
  }

  lemma NotWrapped(time: real, length: real, reduced: real, n: nat)
    requires Wrapped(time, length, reduced, n) && 0.0 <= time <= length
    ensures reduced == time
  {
    if n > 0 {
      AtLeastOnce(n, length, time);
    }
  }

  lemma AtLeastOnce(n: nat, x: real, time: real)
    requires n > 0 && 0.0 <= time <= x
    ensures time - n as real * x <= 0.0
  {
    assert n as real >= 1.0;
    assert (n as real - 1.0) * x >= 0.0;
  }

  // -------- key frames --------

  /** The time of frame j, in the next round when the time asked for is after the last frame. */
  function NextTime<V>(frames: seq<KeyFrame<V>>, length: real, time: real, j: nat): real
    requires j < |frames|
  {
    if time > frames[|frames| - 1].time then length + frames[j].time else frames[j].time
  }

  /** Frames i and j are those around the time: one frame, two neighbours, or the last one and the first one. */
  ghost predicate Placed<V>(frames: seq<KeyFrame<V>>, length: real, time: real, i: nat, j: nat)
    requires i < |frames| && j < |frames|
  {
    var last := |frames| - 1;
    if time > frames[last].time then
      i == last && j == 0 && (length > 0.0 ==> frames[i].time < time <= length + frames[0].time)
    else if time == frames[j].time || (time < frames[j].time && j == 0) then
      i == j && forall k :: 0 <= k < j ==> frames[k].time < time
    else
      i + 1 == j && frames[i].time < time < frames[j].time
  }

  /** What two frames and a parameter say of a time: it is the frame's own, or that part of the way to the next. */
  ghost predicate Located<V>(frames: seq<KeyFrame<V>>, length: real, time: real, i: nat, j: nat, p: real)
    requires i < |frames| && j < |frames|
  {
    var t1, t2 := frames[i].time, NextTime(frames, length, time, j);
    && Placed(frames, length, time, i, j)
    && if Equal(t1, t2) then p == 0.0 else t1 + (t2 - t1) * p == time
  }

  lemma LocatedAtFrame<V>(frames: seq<KeyFrame<V>>, length: real, time: real, i: nat, j: nat, p: real, k: nat)
    requires Sorted(frames) && i < |frames| && j < |frames| && Located(frames, length, time, i, j, p)
    requires k < |frames| && time == frames[k].time && (k > 0 ==> frames[k - 1].time < time)
    ensures i == j == k && p == 0.0
  {
    assert frames[k].time <= frames[|frames| - 1].time;
  }

  /** At the time of a frame, that frame is returned and nothing is interpolated. */
  lemma OnlyThatFrame<V>(frames: seq<KeyFrame<V>>, length: real, time: real, reduced: real, n: nat, i: nat, j: nat, p: real)
    requires Sorted(frames) && Within(frames, length) && i < |frames| && j < |frames|
    requires Wrapped(time, length, reduced, n) && Located(frames, length, reduced, i, j, p)
    ensures forall k :: 0 <= k < |frames| && time == frames[k].time && (k > 0 ==> frames[k - 1].time < time) ==>
      i == j == k && p == 0.0
  {
    forall k: nat | k < |frames| && time == frames[k].time && (k > 0 ==> frames[k - 1].time < time)
      ensures i == j == k && p == 0.0
    {
      NotWrapped(time, length, reduced, n);
      LocatedAtFrame(frames, length, reduced, i, j, p, k);
    }
  }

  class Animation<V> {
    var length: real
    var keyFrames: seq<KeyFrame<V>>

    constructor (length: real)
      ensures this.length == length && keyFrames == []
    {
      this.length, keyFrames := length, [];
    }

    /** The position of the first frame after the time. */
    method UpperBound(time: real) returns (n: nat)
      requires Sorted(keyFrames)
      ensures n <= |keyFrames|
      ensures forall k :: 0 <= k < n ==> keyFrames[k].time <= time
      ensures forall k :: n <= k < |keyFrames| ==> time < keyFrames[k].time
    {
      var hi;
      n, hi := 0, |keyFrames|;
      while n < hi
        invariant n <= hi <= |keyFrames|
        invariant forall k :: 0 <= k < n ==> keyFrames[k].time <= time
        invariant forall k :: hi <= k < |keyFrames| ==> time < keyFrames[k].time
      {
        var mid := (n + hi) / 2;
        if time < keyFrames[mid].time {
          hi := mid;
        } else {
          n := mid + 1;
        }
      }
    }

    /** The position of the first frame at the time or after it. */
    method LowerBound(time: real) returns (n: nat)
      requires Sorted(keyFrames)
      ensures n <= |keyFrames|
      ensures forall k :: 0 <= k < n ==> keyFrames[k].time < time
      ensures forall k :: n <= k < |keyFrames| ==> time <= keyFrames[k].time
    {
      var hi;
      n, hi := 0, |keyFrames|;
      while n < hi
        invariant n <= hi <= |keyFrames|
        invariant forall k :: 0 <= k < n ==> keyFrames[k].time < time
        invariant forall k :: hi <= k < |keyFrames| ==> time <= keyFrames[k].time
      {
        var mid := (n + hi) / 2;
        if keyFrames[mid].time < time {
          n := mid + 1;
        } else {
          hi := mid;
        }
      }
    }

    /** Inserts a frame behind those at the same time and before; the frames stay sorted. */
    method CreateKeyFrame(time: real, value: V) returns (index: nat)
      requires Sorted(keyFrames)
      modifies this`keyFrames
      ensures Sorted(keyFrames) && index <= |old(keyFrames)|
      ensures keyFrames == old(keyFrames)[..index] + [KeyFrame(time, value)] + old(keyFrames)[index..]
      ensures forall k :: 0 <= k < index ==> keyFrames[k].time <= time
      ensures forall k :: index < k < |keyFrames| ==> time < keyFrames[k].time
    {
      index := UpperBound(time);
      keyFrames := keyFrames[..index] + [KeyFrame(time, value)] + keyFrames[index..];
    }

    /** Takes the length off until the time is within the animation. */
    method Wrap(time: real) returns (reduced: real, ghost n: nat)
      requires time >= 0.0
      ensures Wrapped(time, length, reduced, n) && reduced >= 0.0
    {
      hide Rounds, RoundedDown;
      reduced, n := time, 0;
      while reduced > length && length > 0.0
        invariant reduced == time - n as real * length && reduced >= 0.0 && (n > 0 ==> reduced > 0.0)
        decreases Rounds(reduced, length)
      {
        QuotientStep(reduced, length);
        NextRound(n, length);
        reduced, n := reduced - length, n + 1;
      }
    }

    /** The frames around a time within the animation, and the time of the second one. */
    method FramesAround(t: real, ghost n: nat, ghost time: real) returns (iter: nat, second: nat, t2: real)
      requires keyFrames != [] && Sorted(keyFrames) && Within(keyFrames, length)
      requires t >= 0.0 && Wrapped(time, length, t, n)
      ensures iter < |keyFrames| && second < |keyFrames| && Placed(keyFrames, length, t, iter, second)
      ensures t2 == NextTime(keyFrames, length, t, second)
      ensures keyFrames[iter].time == t2 || keyFrames[iter].time <= t <= t2
    {
      iter := LowerBound(t);
      if iter == |keyFrames| {
        second := 0;
        t2 := length + keyFrames[0].time;
        iter := iter - 1;
      } else {
        second := iter;
        t2 := keyFrames[second].time;
        if iter != 0 && t < keyFrames[iter].time {
          iter := iter - 1;
        }
      }
    }

    /** The frames around a time, and how far it is from the first to the second. */
    method KeyFramesAtTime(time: real) returns (p: real, firstKeyIndex: nat, second: nat, ghost reduced: real, ghost n: nat)
      requires keyFrames != [] && Sorted(keyFrames) && Within(keyFrames, length) && time >= 0.0
      ensures Wrapped(time, length, reduced, n)
      ensures firstKeyIndex < |keyFrames| && second < |keyFrames| && 0.0 <= p <= 1.0
      ensures Located(keyFrames, length, reduced, firstKeyIndex, second, p)
    {
      hide Wrapped, Placed, Sorted, Within, NextTime;
      var t, rounds := Wrap(time);
      reduced, n := t, rounds;
      var iter, t2;
      iter, second, t2 := FramesAround(t, rounds, time);
      firstKeyIndex := iter;
      var t1 := keyFrames[iter].time;
      if Equal(t1, t2) {
        p := 0.0;
      } else {
        Portion(t - t1, t2 - t1);
        p := (t - t1) / (t2 - t1);
      }
    }
  }

  function Min(a: real, b: real): real {
    if a <= b then a else b
  }

  function Max(a: real, b: real): real {
    if a <= b then b else a
  }

  /**
    * The value at a time, from the frames i and j around it: that of the first, or as much of the way to that of the
    * second as the time is. It is within the two, and at the time of a frame it is that of the frame.
    */
  method InterpolatedKeyFrame(anim: Animation<real>, time: real)
    returns (value: real, ghost reduced: real, ghost n: nat, ghost i: nat, ghost j: nat, ghost p: real)
    requires anim.keyFrames != [] && Sorted(anim.keyFrames) && Within(anim.keyFrames, anim.length) && time >= 0.0
    ensures Wrapped(time, anim.length, reduced, n) && i < |anim.keyFrames| && j < |anim.keyFrames|
    ensures Located(anim.keyFrames, anim.length, reduced, i, j, p) && 0.0 <= p <= 1.0
    ensures var a, b := anim.keyFrames[i].value, anim.keyFrames[j].value;
      value == a + (b - a) * (if p <= EPSILON then 0.0 else p) && Min(a, b) <= value <= Max(a, b)
    ensures var frames := anim.keyFrames;
      forall k :: 0 <= k < |frames| && time == frames[k].time && (k > 0 ==> frames[k - 1].time < time) ==>
        value == frames[k].value
  {
    hide Located, Wrapped, Sorted, Within;
    var t, first, second;
    t, first, second, reduced, n := anim.KeyFramesAtTime(time);
    i, j, p := first, second, t;
    var k1, k2 := anim.keyFrames[first], anim.keyFrames[second];
    OnlyThatFrame(anim.keyFrames, anim.length, time, reduced, n, i, j, p);
    if Equal(t, 0.0) {
      value := k1.value;
    } else {
      var diff := k2.value - k1.value;
      PartOfTheWay(k1.value, k2.value, t);
      value := k1.value + diff * t;
    }
  }

  // -------- trajectories --------

  /** The end of a segment, in ticks since the start, and the distance it covers. */
  datatype Segment = Segment(end: int, distance: real)

  predicate Increasing(segs: seq<Segment>) {
    forall j, k :: 0 <= j < k < |segs| ==> segs[j].end < segs[k].end
  }

  predicate NonNegative(segs: seq<Segment>) {
    forall k :: 0 <= k < |segs| ==> segs[k].distance >= 0.0
  }

  /** The distance of the first k segments. */
  function Covered(segs: seq<Segment>, k: nat): real
    requires k <= |segs|
  {
    if k == 0 then 0.0 else Covered(segs, k - 1) + segs[k - 1].distance
  }

  /** Segment k is the first one not completed at the time. */
  predicate Reached(segs: seq<Segment>, time: int, k: nat) {
    && k <= |segs|
    && (forall j :: 0 <= j < k ==> segs[j].end <= time)
    && (k < |segs| ==> time < segs[k].end)
  }

  /** The distance while segment k is under way: that of those before and a part of it in proportion to the time. */
  function Underway(segs: seq<Segment>, time: int, k: nat): real
    requires Increasing(segs) && Reached(segs, time, k)
  {
    if k == |segs| || k == 0 then Covered(segs, k)
    else Covered(segs, k) + Part(time - segs[k - 1].end, segs[k].end - segs[k - 1].end, segs[k].distance)
  }

  function Part(done: int, all: int, distance: real): real
    requires 0 <= done < all
  {
    done as real / all as real * distance
  }

  lemma PartBounds(done: int, all: int, distance: real)
    requires 0 <= done < all && distance >= 0.0
    ensures 0.0 <= Part(done, all, distance) <= distance && Part(0, all, distance) == 0.0
  {
    Portion(done as real, all as real);
    PartOfTheWay(0.0, distance, done as real / all as real);
    QuotientIs(0.0, all as real, 0.0);
  }

  /** The part is to the whole as the time is to that of the whole. */
  lemma PartIsProportional(done: int, all: int, distance: real)
    requires 0 <= done < all
    ensures Part(done, all, distance) * all as real == done as real * distance
  {
    var q := done as real / all as real;
    assert q * all as real == done as real;
    assert q * distance * all as real == q * all as real * distance;
  }

  lemma PartGrows(done: int, more: int, all: int, distance: real)
    requires 0 <= done <= more < all && distance >= 0.0
    ensures Part(done, all, distance) <= Part(more, all, distance)
  {
    var a, b := done as real / all as real, more as real / all as real;
    assert a * all as real <= b * all as real;
    assert (b - a) * all as real >= 0.0;
    assert b >= a;
    assert (b - a) * distance >= 0.0;
  }

  lemma {:induction false} CoveredGrows(segs: seq<Segment>, j: nat, k: nat)
    requires j <= k <= |segs| && NonNegative(segs)
    ensures 0.0 <= Covered(segs, j) <= Covered(segs, k)
  {
    if k > 0 {
      CoveredGrows(segs, if j < k then j else k - 1, k - 1);
    }
  }

  /** The segment that ends at a waypoint: from the one before, or nothing at the first one. */
  function SegmentTo<P>(waypoints: seq<(int, P)>, planar: (P, P) -> real, k: nat): Segment
    requires k < |waypoints|
  {
    Segment(waypoints[k].0 - waypoints[0].0, planar(waypoints[if k == 0 then 0 else k - 1].1, waypoints[k].1))
  }

  /** The frame of a waypoint: at its time since the start, in seconds. */
  function FrameAt<P>(waypoints: seq<(int, P)>, tick: real, k: nat): KeyFrame<P>
    requires k < |waypoints|
  {
    KeyFrame((waypoints[k].0 - waypoints[0].0) as real * tick, waypoints[k].1)
  }

  function FramesAt<P>(waypoints: seq<(int, P)>, tick: real, n: nat): (r: seq<KeyFrame<P>>)
    requires n <= |waypoints|
    ensures |r| == n && forall k :: 0 <= k < n ==> r[k] == FrameAt(waypoints, tick, k)
  {
    seq(n, k requires 0 <= k < n => FrameAt(waypoints, tick, k))
  }

  ghost predicate Chronological<P>(waypoints: seq<(int, P)>) {
    forall j, k :: 0 <= j < k < |waypoints| ==> waypoints[j].0 < waypoints[k].0
  }

  lemma TimesGrow(a: int, b: int, tick: real)
    requires a <= b && tick > 0.0
    ensures a as real * tick <= b as real * tick
    ensures a < b ==> a as real * tick < b as real * tick
  {
    assert (b as real - a as real) * tick >= 0.0;
  }

  /** The frames are at the times of the waypoints, in their order and within the duration. */
  lemma FramesInOrder<P>(waypoints: seq<(int, P)>, tick: real, n: nat)
    requires waypoints != [] && Chronological(waypoints) && tick > 0.0 && n <= |waypoints|
    ensures forall j, k :: 0 <= j < k < n ==>
      FrameAt(waypoints, tick, j).time < FrameAt(waypoints, tick, k).time
    ensures Sorted(FramesAt(waypoints, tick, n))
    ensures Within(FramesAt(waypoints, tick, n), (waypoints[|waypoints| - 1].0 - waypoints[0].0) as real * tick)
  {
    var start, end := waypoints[0].0, waypoints[|waypoints| - 1].0;
    forall j, k | 0 <= j < k < n ensures FrameAt(waypoints, tick, j).time < FrameAt(waypoints, tick, k).time {
      TimesGrow(waypoints[j].0 - start, waypoints[k].0 - start, tick);
    }
    forall k | 0 <= k < n ensures 0.0 <= FrameAt(waypoints, tick, k).time <= (end - start) as real * tick {
      TimesGrow(0, waypoints[k].0 - start, tick);
      TimesGrow(waypoints[k].0 - start, end - start, tick);
    }
  }

  /** At the time of a waypoint the animation is at its frame alone. */
  lemma MeetsWaypoint<P>(waypoints: seq<(int, P)>, tick: real, k: nat, reduced: real, n: nat, i: nat, j: nat, p: real)
    requires Chronological(waypoints) && tick > 0.0 && k < |waypoints| && i < |waypoints| && j < |waypoints|
    requires
      var frames := FramesAt(waypoints, tick, |waypoints|);
      var length := (waypoints[|waypoints| - 1].0 - waypoints[0].0) as real * tick;
      Wrapped(frames[k].time, length, reduced, n) && Located(frames, length, reduced, i, j, p)
    ensures i == j == k && p == 0.0
  {
    hide Located, Wrapped, Sorted, Within, FrameAt;
    FramesInOrder(waypoints, tick, |waypoints|);
    var frames := FramesAt(waypoints, tick, |waypoints|);
    assert k > 0 ==> FrameAt(waypoints, tick, k - 1).time < FrameAt(waypoints, tick, k).time;
    var length := (waypoints[|waypoints| - 1].0 - waypoints[0].0) as real * tick;
    OnlyThatFrame(frames, length, frames[k].time, reduced, n, i, j, p);
  }

  /** Inserted behind the earlier frames, the next one is the last. */
  lemma NextFrameIsLast<P>(waypoints: seq<(int, P)>, tick: real, n: nat, index: nat, frames: seq<KeyFrame<P>>)
    requires waypoints != [] && Chronological(waypoints) && tick > 0.0 && n < |waypoints|
    requires index <= n && frames ==
      FramesAt(waypoints, tick, n)[..index] + [FrameAt(waypoints, tick, n)] + FramesAt(waypoints, tick, n)[index..]
    requires forall k :: index < k < |frames| ==> FrameAt(waypoints, tick, n).time < frames[k].time
    ensures frames == FramesAt(waypoints, tick, n + 1)
  {
    FramesInOrder(waypoints, tick, n + 1);
    assert index < n ==> frames[index + 1] == FrameAt(waypoints, tick, index);
  }

  /** The distance beyond that of the first k segments is to that of segment k as the time since is to its length. */
  ghost predicate InProportion(segs: seq<Segment>, time: int, k: nat, distance: real)
    requires 0 < k < |segs|
  {
    (distance - Covered(segs, k)) * (segs[k].end - segs[k - 1].end) as real ==
    (time - segs[k - 1].end) as real * segs[k].distance
  }

  class TrajectoryInfo<P> {
    var segDistance: seq<Segment>
    var startTime: int
    var endTime: int
    var translated: bool
    var waypoints: Animation?<P>

    constructor ()
      ensures segDistance == [] && startTime == endTime == 0 && !translated && waypoints == null
    {
      segDistance, startTime, endTime, translated, waypoints := [], 0, 0, false, null;
    }

    /** The time of the trajectory, in ticks. */
    function Duration(): int
      reads this
    {
      endTime - startTime
    }

    /**
      * Sets everything from the waypoints, which come in the order of their times: the times of the first and the last
      * of them, the segments between them, of which the first covers nothing, and an animation with their poses as
      * frames, at the times since the start. A tick is that part of a second.
      */
    method SetWaypoints(poses: seq<(int, P)>, planar: (P, P) -> real, tick: real)
      requires poses != [] && Chronological(poses) && tick > 0.0
      requires forall k, l :: 0 <= k < |poses| && 0 <= l < |poses| ==>
        planar(poses[k].1, poses[l].1) >= 0.0 && (k == l ==> planar(poses[k].1, poses[l].1) == 0.0)
      modifies this
      ensures startTime == poses[0].0 && endTime == poses[|poses| - 1].0 && translated
      ensures Increasing(segDistance) && NonNegative(segDistance) && |segDistance| == |poses|
      ensures segDistance[0] == Segment(0, 0.0) && segDistance[|poses| - 1].end == Duration()
      ensures forall k :: 0 < k < |poses| ==>
        segDistance[k] == Segment(poses[k].0 - poses[0].0, planar(poses[k - 1].1, poses[k].1))
      ensures waypoints != null && fresh(waypoints) && waypoints.length == Duration() as real * tick
      ensures |waypoints.keyFrames| == |poses| && forall k :: 0 <= k < |poses| ==>
        waypoints.keyFrames[k] == KeyFrame((poses[k].0 - poses[0].0) as real * tick, poses[k].1)
      ensures Sorted(waypoints.keyFrames) && Within(waypoints.keyFrames, waypoints.length)
    {
      hide Sorted, Within;
      startTime, endTime := poses[0].0, poses[|poses| - 1].0;
      FramesInOrder(poses, tick, |poses|);
      var anim := new Animation<P>(Duration() as real * tick);
      assert anim.length == (poses[|poses| - 1].0 - poses[0].0) as real * tick;
      SetSegments(poses, planar, tick, anim);
      waypoints := anim;
      translated := true;
    }

    /** The loop over the waypoints. */
    method SetSegments(poses: seq<(int, P)>, planar: (P, P) -> real, tick: real, anim: Animation<P>)
      requires poses != [] && Chronological(poses) && tick > 0.0 && anim.keyFrames == [] && startTime == poses[0].0
      modifies this`segDistance, anim`keyFrames
      ensures |segDistance| == |poses|
      ensures forall k :: 0 <= k < |poses| ==> segDistance[k] == SegmentTo(poses, planar, k)
      ensures anim.keyFrames == FramesAt(poses, tick, |poses|)
    {
      hide Sorted;
      segDistance := [];
      var prevPose := poses[0].1;
      for i := 0 to |poses|
        invariant prevPose == poses[if i == 0 then 0 else i - 1].1 && |segDistance| == i
        invariant forall k :: 0 <= k < i ==> segDistance[k] == SegmentTo(poses, planar, k)
        invariant anim.keyFrames == FramesAt(poses, tick, i)
      {
        FramesInOrder(poses, tick, i);
        var time := (poses[i].0 - startTime) as real * tick;
        assert KeyFrame(time, poses[i].1) == FrameAt(poses, tick, i);
        var index := anim.CreateKeyFrame(time, poses[i].1);
        NextFrameIsLast(poses, tick, i, index, anim.keyFrames);
        segDistance := segDistance + [Segment(poses[i].0 - startTime, planar(prevPose, poses[i].1))];
        prevPose := poses[i].1;
      }
    }

    /** The distance so far: of all completed segments, and the part of the next one that is done. */
    method DistanceSoFar(time: int) returns (distance: real)
      requires Increasing(segDistance)
      ensures forall k: nat :: Reached(segDistance, time, k) ==> distance == Underway(segDistance, time, k)
      ensures exists k: nat :: Reached(segDistance, time, k)
      ensures forall k :: 0 < k < |segDistance| && Reached(segDistance, time, k) ==>
        InProportion(segDistance, time, k, distance)
    {
      hide InProportion;
      distance := 0.0;
      var segment, prevSegment := 0, 0;
      while segment < |segDistance| && segDistance[segment].end <= time
        invariant segment <= |segDistance| && prevSegment == (if segment == 0 then 0 else segment - 1)
        invariant forall j :: 0 <= j < segment ==> segDistance[j].end <= time
        invariant distance == Covered(segDistance, segment)
      {
        distance := distance + segDistance[segment].distance;
        prevSegment, segment := segment, segment + 1;
      }
      assert Reached(segDistance, time, segment);
      forall k: nat | Reached(segDistance, time, k) ensures k == segment {
      }
      if 0 < segment < |segDistance| {
        UnderwayIsProportional(segDistance, time, segment);
      }
      if segment == |segDistance| {
        return;
      }
      var since := time - segDistance[prevSegment].end;
      if since > 0 {
        var all := segDistance[segment].end - segDistance[prevSegment].end;
        distance := distance + since as real / all as real * segDistance[segment].distance;
      } else if segment > 0 {
        ZeroPart(segDistance[segment].end - segDistance[prevSegment].end, segDistance[segment].distance);
      }
    }
  }

  lemma UnderwayIsProportional(segs: seq<Segment>, time: int, k: nat)
    requires Increasing(segs) && Reached(segs, time, k) && 0 < k < |segs|
    ensures InProportion(segs, time, k, Underway(segs, time, k))
  {
    PartIsProportional(time - segs[k - 1].end, segs[k].end - segs[k - 1].end, segs[k].distance);
  }

  /** Within a segment the distance grows in proportion to the time. */
  lemma DistanceIsLinear(segs: seq<Segment>, t1: int, t2: int, k: nat)
    requires Increasing(segs) && 0 < k < |segs| && Reached(segs, t1, k) && Reached(segs, t2, k)
    ensures (Underway(segs, t2, k) - Underway(segs, t1, k)) * (segs[k].end - segs[k - 1].end) as real ==
            (t2 - t1) as real * segs[k].distance
  {
    UnderwayIsProportional(segs, t1, k);
    UnderwayIsProportional(segs, t2, k);
    var all, base := (segs[k].end - segs[k - 1].end) as real, Covered(segs, k);
    var a, b := Underway(segs, t1, k) - base, Underway(segs, t2, k) - base;
    hide Underway, Covered;
    DifferenceTimes(b, a, all);
    DifferenceTimes((t2 - segs[k - 1].end) as real, (t1 - segs[k - 1].end) as real, segs[k].distance);
  }

  lemma DifferenceTimes(a: real, b: real, x: real)
    ensures (a - b) * x == a * x - b * x
  {
  }

  lemma ZeroPart(all: int, distance: real)
    requires all > 0
    ensures Part(0, all, distance) == 0.0
  {
    QuotientIs(0.0, all as real, 0.0);
  }

  /** The distance lies between what is completed and what will be with the segment under way. */
  lemma UnderwayBounds(segs: seq<Segment>, time: int, k: nat)
    requires Increasing(segs) && NonNegative(segs) && Reached(segs, time, k)
    ensures Covered(segs, k) <= Underway(segs, time, k) <= Covered(segs, if k < |segs| then k + 1 else k)
    ensures 0.0 <= Underway(segs, time, k) <= Covered(segs, |segs|)
  {
    CoveredGrows(segs, k, |segs|);
    if k < |segs| {
      CoveredGrows(segs, k + 1, |segs|);
      CoveredGrows(segs, k, k + 1);
      if k > 0 {
        PartBounds(time - segs[k - 1].end, segs[k].end - segs[k - 1].end, segs[k].distance);
      }
    }
  }

  /** The distance never shrinks as time goes on. */
  lemma DistanceGrows(segs: seq<Segment>, t1: int, k1: nat, t2: int, k2: nat)
    requires Increasing(segs) && NonNegative(segs) && t1 <= t2
    requires Reached(segs, t1, k1) && Reached(segs, t2, k2)
    ensures Underway(segs, t1, k1) <= Underway(segs, t2, k2)
  {
    UnderwayBounds(segs, t1, k1);
    UnderwayBounds(segs, t2, k2);
    if k1 == k2 {
      if 0 < k1 < |segs| {
        PartGrows(t1 - segs[k1 - 1].end, t2 - segs[k1 - 1].end, segs[k1].end - segs[k1 - 1].end, segs[k1].distance);
      }
    } else if k2 < k1 {
      assert false;
    } else {
      CoveredGrows(segs, k1 + 1, k2);
    }
  }

  /** At the end of a segment the distance is exactly that of the segments up to it. */
  lemma ExactAtWaypoints(segs: seq<Segment>, k: nat)
    requires Increasing(segs) && k < |segs|
    ensures Reached(segs, segs[k].end, k + 1) && Underway(segs, segs[k].end, k + 1) == Covered(segs, k + 1)
    ensures Underway(segs, segs[k].end, k + 1) ==
      segs[k].distance + if k == 0 then 0.0 else Underway(segs, segs[k - 1].end, k)
  {
    if k + 1 < |segs| {
      ZeroPart(segs[k + 1].end - segs[k].end, segs[k + 1].distance);
    }
    if k > 0 {
      ZeroPart(segs[k].end - segs[k - 1].end, segs[k].distance);
    }
  }
}
