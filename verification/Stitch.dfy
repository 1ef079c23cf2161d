/** Stitching loose line segments into polylines (graphics/src/SVGLoader.cc, PathsToClosedPolylines). */
module Stitching {
  import opened Sequences

  datatype Point = Point(x: real, y: real)

  type Segment = (Point, Point)

  function SquaredDistance(a: Point, b: Point): real {
    (a.x - b.x) * (a.x - b.x) + (a.y - b.y) * (a.y - b.y)
  }

  /** Vector2dCompare. */
  predicate Near(tol: real, a: Point, b: Point) {
    SquaredDistance(a, b) < tol * tol
  }

  /** Whether the distance of two points is below tol. */
  predicate Short(tol: real, a: Point, b: Point) {
    0.0 < tol && SquaredDistance(a, b) < tol * tol
  }

  // -------- from polylines to segments --------

  /** The segments from `start` through the points that follow, leaving out points too close to where it has got. */
  function SegmentsFrom(tol: real, start: Point, points: seq<Point>): seq<Segment>
    decreases |points|
  {
    if points == [] then []
    else if Short(tol, points[0], start) then SegmentsFrom(tol, start, points[1..])
    else [(start, points[0])] + SegmentsFrom(tol, points[0], points[1..])
  }

  function AllSegments(tol: real, polys: seq<seq<Point>>): seq<Segment>
    requires forall k :: 0 <= k < |polys| ==> polys[k] != []
  {
    if polys == [] then [] else SegmentsFrom(tol, polys[0][0], polys[0][1..]) + AllSegments(tol, polys[1..])
  }

  /** The segments of a polyline follow one another from its start, none of them is short, and each point of the
      polyline is an end of one or was too close to the point reached before it. */
  lemma {:induction false} SegmentsFollow(tol: real, start: Point, points: seq<Point>)
    ensures var segs := SegmentsFrom(tol, start, points);
      && (segs != [] ==> segs[0].0 == start)
      && (forall k :: 0 <= k < |segs| - 1 ==> segs[k].1 == segs[k+1].0)
      && (forall k :: 0 <= k < |segs| ==> !Short(tol, segs[k].1, segs[k].0) && segs[k].1 in points)
      && (forall p :: p in points ==>
            Short(tol, p, start) || exists k :: 0 <= k < |segs| && (p == segs[k].1 || Short(tol, p, segs[k].1)))
    decreases |points|
  {
    hide Short;
    if points != [] {
      var p0 := points[0];
      var segs := SegmentsFrom(tol, start, points);
      if Short(tol, p0, start) {
        SegmentsFollow(tol, start, points[1..]);
      } else {
        SegmentsFollow(tol, p0, points[1..]);
        var rest := SegmentsFrom(tol, p0, points[1..]);
        forall p | p in points
          ensures Short(tol, p, start) || exists k :: 0 <= k < |segs| && (p == segs[k].1 || Short(tol, p, segs[k].1))
        {
          if p == p0 || Short(tol, p, p0) {
            assert segs[0].1 == p0;
          } else {
            var k :| 0 <= k < |rest| && (p == rest[k].1 || Short(tol, p, rest[k].1));
            assert segs[k+1] == rest[k];
          }
        }
      }
    }
  }

  /** One more point adds the segment to it from where the segments end, unless that segment would be short. */
  lemma {:induction false} OnePointMore(tol: real, start: Point, points: seq<Point>, p: Point)
    ensures
      var segs := SegmentsFrom(tol, start, points);
      var end := if segs == [] then start else segs[|segs|-1].1;
      SegmentsFrom(tol, start, points + [p]) == if Short(tol, p, end) then segs else segs + [(end, p)]
    decreases |points|
  {
    hide Short;
    if points == [] {
      assert (points + [p])[1..] == [];
    } else {
      assert (points + [p])[1..] == points[1..] + [p];
      OnePointMore(tol, if Short(tol, points[0], start) then start else points[0], points[1..], p);
    }
  }

  /** One more polyline adds its own segments. */
  lemma {:induction false} OnePolylineMore(tol: real, polys: seq<seq<Point>>, poly: seq<Point>)
    requires poly != [] && forall k :: 0 <= k < |polys| ==> polys[k] != []
    ensures AllSegments(tol, polys + [poly]) == AllSegments(tol, polys) + SegmentsFrom(tol, poly[0], poly[1..])
  {
    hide SegmentsFrom;
    if polys == [] {
      assert (polys + [poly])[1..] == [];
    } else {
      assert (polys + [poly])[1..] == polys[1..] + [poly];
      OnePolylineMore(tol, polys[1..], poly);
    }
  }

  // -------- from segments to polylines --------

  /** A polyline, and the segments it was made from. */
  datatype Line = Line(points: seq<Point>, used: seq<Segment>, closed: bool)

  predicate Touches(tol: real, end: Point, seg: Segment) {
    Near(tol, end, seg.0) || Near(tol, end, seg.1)
  }

  /** The end of a touching segment that is added: the first end if its second one touches. */
  function FarEnd(tol: real, end: Point, seg: Segment): Point {
    if Near(tol, end, seg.1) then seg.0 else seg.1
  }

  /** The position of the first segment that touches, or the number of segments. */
  function FirstTouching(tol: real, end: Point, segs: seq<Segment>): (i: nat)
    ensures i <= |segs| && (i < |segs| ==> Touches(tol, end, segs[i]))
    ensures forall j :: 0 <= j < i ==> !Touches(tol, end, segs[j])
  {
    if segs == [] || Touches(tol, end, segs[0]) then 0 else 1 + FirstTouching(tol, end, segs[1..])
  }

  function Last(line: Line): Point
    requires line.points != []
  {
    line.points[|line.points|-1]
  }

  function Extended(tol: real, line: Line, seg: Segment): Line
    requires line.points != []
  {
    var next := FarEnd(tol, Last(line), seg);
    Line(line.points + [next], line.used + [seg], Near(tol, next, line.points[0]))
  }

  /** The line grown as far as it goes, and the segments that remain. */
  function Grown(tol: real, line: Line, segs: seq<Segment>): (r: (Line, seq<Segment>))
    requires line.points != []
    ensures |r.1| <= |segs| && r.0.points != []
    decreases |segs|
  {
    if line.closed then (line, segs)
    else
      var i := FirstTouching(tol, Last(line), segs);
      if i == |segs| then (line, segs)
      else Grown(tol, Extended(tol, line, segs[i]), Without(segs, i))
  }

  function LineOf(seg: Segment): Line {
    Line([seg.0, seg.1], [seg], false)
  }

  function Lines(tol: real, segs: seq<Segment>): seq<Line>
    decreases |segs|
  {
    if segs == [] then []
    else
      var (line, rest) := Grown(tol, LineOf(segs[0]), segs[1..]);
      [line] + Lines(tol, rest)
  }

  /** The polylines among the lines that are closed, or those that are open. */
  function Polylines(lines: seq<Line>, closed: bool): seq<seq<Point>> {
    if lines == [] then []
    else (if lines[0].closed == closed then [lines[0].points] else []) + Polylines(lines[1..], closed)
  }

  // -------- what a line is --------

  /** Segment seg leads from a point within tolerance of one of its ends to the other end: to its first end if the point
      is near both. */
  predicate Leads(tol: real, from: Point, seg: Segment, to: Point) {
    if Near(tol, from, seg.1) then to == seg.0 else Near(tol, from, seg.0) && to == seg.1
  }

  /** One segment for each pair of consecutive points: the first is the first segment itself, and each later point
      is the far end of a segment that touches the point before it. The line is closed when, and as soon as, a point
      comes within tolerance of its start. */
  ghost predicate Stitched(tol: real, line: Line) {
    && |line.points| == |line.used| + 1 && 1 <= |line.used|
    && line.points[0] == line.used[0].0 && line.points[1] == line.used[0].1
    && (forall k :: 1 <= k < |line.used| ==> Leads(tol, line.points[k], line.used[k], line.points[k+1]))
    && (forall k :: 2 <= k < |line.points| - 1 ==> !Near(tol, line.points[k], line.points[0]))
    && (line.closed <==> 2 <= |line.used| && Near(tol, Last(line), line.points[0]))
  }

  lemma {:induction false} GrownIsStitched(tol: real, line: Line, segs: seq<Segment>)
    requires Stitched(tol, line)
    ensures var (grown, rest) := Grown(tol, line, segs);
      && Stitched(tol, grown)
      && line.used <= grown.used
      && multiset(grown.used) + multiset(rest) == multiset(line.used) + multiset(segs)
      && (!grown.closed ==> forall k :: 0 <= k < |rest| ==> !Touches(tol, Last(grown), rest[k]))
    decreases |segs|
  {
    hide Near;
    if !line.closed {
      var i := FirstTouching(tol, Last(line), segs);
      if i < |segs| {
        var longer := Extended(tol, line, segs[i]);
        ExtendedIsStitched(tol, line, segs[i]);
        WithoutOne(segs, i);
        GrownIsStitched(tol, longer, Without(segs, i));
        hide Stitched;
      }
    }
  }

  lemma ExtendedIsStitched(tol: real, line: Line, seg: Segment)
    requires Stitched(tol, line) && !line.closed && Touches(tol, Last(line), seg)
    ensures Stitched(tol, Extended(tol, line, seg))
  {
    hide Near;
  }

  ghost function AllUsed(lines: seq<Line>): seq<Segment> {
    if lines == [] then [] else lines[0].used + AllUsed(lines[1..])
  }

  /** The end of an open line is touched by no segment of a later line. */
  ghost predicate OpenEndsAreFree(tol: real, lines: seq<Line>) {
    forall i, j, k :: 0 <= i < j < |lines| && !lines[i].closed && lines[i].points != [] && 0 <= k < |lines[j].used| ==>
      !Touches(tol, Last(lines[i]), lines[j].used[k])
  }

  lemma {:induction false} UsedIn(lines: seq<Line>, j: nat, k: nat)
    requires j < |lines| && k < |lines[j].used|
    ensures lines[j].used[k] in AllUsed(lines)
  {
    if 0 < j {
      UsedIn(lines[1..], j - 1, k);
    }
  }

  /** The end of a line that is still open is touched by none of the segments. */
  ghost predicate EndIsFree(tol: real, line: Line, rest: seq<Segment>) {
    line.points != [] && (!line.closed ==> forall k :: 0 <= k < |rest| ==> !Touches(tol, Last(line), rest[k]))
  }

  /** Where the end of the first line is free, and so are those of the later lines, all are. */
  lemma FirstEndIsFree(tol: real, line: Line, later: seq<Line>, rest: seq<Segment>)
    requires OpenEndsAreFree(tol, later) && multiset(AllUsed(later)) == multiset(rest)
    requires EndIsFree(tol, line, rest)
    ensures OpenEndsAreFree(tol, [line] + later)
  {
    hide Touches, AllUsed;
    var lines := [line] + later;
    forall i, j, k | 0 <= i < j < |lines| && !lines[i].closed && lines[i].points != [] && 0 <= k < |lines[j].used|
      ensures !Touches(tol, Last(lines[i]), lines[j].used[k])
    {
      assert lines[j] == later[j-1];
      if i == 0 {
        UsedIn(later, j - 1, k);
        assert lines[j].used[k] in multiset(rest);
      } else {
        assert lines[i] == later[i-1];
      }
    }
  }

  lemma AllUsedCons(line: Line, later: seq<Line>)
    ensures multiset(AllUsed([line] + later)) == multiset(line.used) + multiset(AllUsed(later))
  {
    assert ([line] + later)[1..] == later;
  }

  lemma FirstLine(tol: real, segs: seq<Segment>)
    requires segs != []
    ensures var (line, rest) := Grown(tol, LineOf(segs[0]), segs[1..]);
      && Stitched(tol, line) && EndIsFree(tol, line, rest)
      && multiset(line.used) + multiset(rest) == multiset(segs)
  {
    SingleIsStitched(tol, segs[0]);
    GrownIsStitched(tol, LineOf(segs[0]), segs[1..]);
    hide Stitched, Grown, Touches;
    assert segs == [segs[0]] + segs[1..];
  }

  /** Stitching conserves the segments: each one is used for exactly one step of one polyline. Every line is stitched
      as it should be, and a line is left open only if no remaining segment touches its end. */
  lemma {:induction false} StitchingConserves(tol: real, segs: seq<Segment>)
    ensures var lines := Lines(tol, segs);
      && multiset(AllUsed(lines)) == multiset(segs)
      && (forall i :: 0 <= i < |lines| ==> Stitched(tol, lines[i]))
      && OpenEndsAreFree(tol, lines)
    decreases |segs|
  {
    hide Stitched, Grown, OpenEndsAreFree, AllUsed, EndIsFree;
    if segs != [] {
      var (line, rest) := Grown(tol, LineOf(segs[0]), segs[1..]);
      FirstLine(tol, segs);
      StitchingConserves(tol, rest);
      hide Lines;
      AllUsedCons(line, Lines(tol, rest));
      FirstEndIsFree(tol, line, Lines(tol, rest), rest);
    } else {
      NoLines(tol);
    }
  }

  /** Growing a line leaves the other segments in their order: what was before a segment that remains is still before
      it or is used by the line. */
  lemma {:induction false} GrownKeepsOrder(tol: real, line: Line, segs: seq<Segment>, m: nat) returns (n: nat)
    requires line.points != [] && m < |Grown(tol, line, segs).1|
    ensures var (grown, rest) := Grown(tol, line, segs);
      && n < |segs| && segs[n] == rest[m]
      && multiset(line.used) + multiset(segs[..n]) <= multiset(rest[..m]) + multiset(grown.used)
    decreases |segs|
  {
    hide Touches, FarEnd;
    var i := if line.closed then |segs| else FirstTouching(tol, Last(line), segs);
    if i == |segs| {
      n := m;
    } else {
      var others := Without(segs, i);
      var k := GrownKeepsOrder(tol, Extended(tol, line, segs[i]), others, m);
      hide Grown;
      if k < i {
        n := k;
        assert others[..k] == segs[..k];
      } else {
        n := k + 1;
        assert segs[..n] == segs[..i] + [segs[i]] + segs[i+1..n];
        assert others[..k] == segs[..i] + segs[i+1..n];
      }
    }
  }

  /** Line i starts with the first segment that no earlier line has used. */
  ghost predicate StartsAt(segs: seq<Segment>, lines: seq<Line>, i: nat, n: nat)
    requires i < |lines|
  {
    && n < |segs| && lines[i].used != [] && lines[i].used[0] == segs[n]
    && multiset(segs[..n]) <= multiset(AllUsed(lines[..i]))
  }

  lemma FirstStarts(tol: real, first: Segment, tail: seq<Segment>, later: seq<Line>)
    ensures StartsAt([first] + tail, [Grown(tol, LineOf(first), tail).0] + later, 0, 0)
  {
    SingleIsStitched(tol, first);
    GrownIsStitched(tol, LineOf(first), tail);
    hide Stitched, Grown;
  }

  lemma OneLineEarlier(first: Segment, tail: seq<Segment>, line: Line, rest: seq<Segment>, later: seq<Line>,
                       i: nat, m: nat, k: nat)
    requires i < |later| && StartsAt(rest, later, i, m) && k < |tail| && tail[k] == rest[m]
    requires multiset{first} + multiset(tail[..k]) <= multiset(rest[..m]) + multiset(line.used)
    ensures StartsAt([first] + tail, [line] + later, i + 1, k + 1)
  {
    var segs, lines := [first] + tail, [line] + later;
    AllUsedCons(line, later[..i]);
    hide AllUsed;
    assert lines[..i+1] == [line] + later[..i];
    assert segs[..k+1] == [first] + tail[..k];
  }

  lemma {:induction false} LinesStartInOrder(tol: real, segs: seq<Segment>, i: nat) returns (n: nat)
    requires i < |Lines(tol, segs)|
    ensures n < |segs| && StartsAt(segs, Lines(tol, segs), i, n)
    decreases |segs|
  {
    hide Grown, StartsAt, AllUsed, Touches, Stitched;
    var first, tail := segs[0], segs[1..];
    var (line, rest) := Grown(tol, LineOf(first), tail);
    assert segs == [first] + tail;
    if i == 0 {
      n := 0;
      FirstStarts(tol, first, tail, Lines(tol, rest));
    } else {
      var m := LinesStartInOrder(tol, rest, i - 1);
      var k := GrownKeepsOrder(tol, LineOf(first), tail, m);
      n := k + 1;
      OneLineEarlier(first, tail, line, rest, Lines(tol, rest), i - 1, m, k);
    }
  }

  lemma NoLines(tol: real)
    ensures Lines(tol, []) == [] && AllUsed([]) == [] && OpenEndsAreFree(tol, [])
  {
  }

  lemma SingleIsStitched(tol: real, seg: Segment)
    ensures Stitched(tol, LineOf(seg))
  {
  }

  // -------- the code --------

  method ExtractSegments(tol: real, polys: seq<seq<Point>>) returns (segments: seq<Segment>)
    requires forall k :: 0 <= k < |polys| ==> polys[k] != []
    ensures segments == AllSegments(tol, polys)
  {
    hide Short;
    segments := [];
    for k := 0 to |polys|
      invariant segments + AllSegments(tol, polys[k..]) == AllSegments(tol, polys)
    {
      var poly := polys[k];
      var startPoint := poly[0];
      ghost var before := segments;
      ghost var all := SegmentsFrom(tol, poly[0], poly[1..]);
      for i := 1 to |poly|
        invariant segments + SegmentsFrom(tol, startPoint, poly[i..]) == before + all
      {
        var endPoint := poly[i];
        assert poly[i..][0] == endPoint && poly[i..][1..] == poly[i+1..];
        if !Short(tol, endPoint, startPoint) {
          segments := segments + [(startPoint, endPoint)];
          startPoint := endPoint;
        }
      }
      assert segments == before + all;
      assert polys[k..][0] == poly && polys[k..][1..] == polys[k+1..];
      assert before + all + AllSegments(tol, polys[k+1..]) == before + (all + AllSegments(tol, polys[k+1..]));
    }
  }

  /** One search through the remaining segments; adds the first that touches the end of the polyline. */
  method FindNext(tol: real, polyline0: seq<Point>, segments0: seq<Segment>, ghost used: seq<Segment>)
    returns (found: bool, loopClosed: bool, polyline: seq<Point>, segments: seq<Segment>)
    requires polyline0 != []
    ensures var i := FirstTouching(tol, polyline0[|polyline0|-1], segments0);
      if i == |segments0| then !found && !loopClosed && polyline == polyline0 && segments == segments0
      else
        var next := Extended(tol, Line(polyline0, used, false), segments0[i]);
        found && polyline == next.points && loopClosed == next.closed && segments == Without(segments0, i)
  {
    hide Near;
    polyline, segments, found, loopClosed := polyline0, segments0, false, false;
    var end := polyline[|polyline|-1];
    for it := 0 to |segments0|
      invariant polyline == polyline0 && segments == segments0 && !found && !loopClosed
      invariant FirstTouching(tol, end, segments0) == it + FirstTouching(tol, end, segments0[it..])
    {
      var seg := segments0[it];
      var nextPoint := seg.0;
      if Near(tol, end, seg.0) {
        nextPoint := seg.1;
        found := true;
      }
      if Near(tol, end, seg.1) {
        nextPoint := seg.0;
        found := true;
      }
      if found {
        segments := Without(segments, it);
        polyline := polyline + [nextPoint];
        loopClosed := Near(tol, nextPoint, polyline[0]);
        return;
      }
    }
  }

  /** Makes one polyline from the first segment, taking what it uses from the others. */
  method GrowPolyline(tol: real, first: Segment, segments0: seq<Segment>)
    returns (polyline: seq<Point>, loopClosed: bool, segments: seq<Segment>)
    ensures var (line, rest) := Grown(tol, LineOf(first), segments0);
      polyline == line.points && loopClosed == line.closed && segments == rest
  {
    hide Near;
    polyline, segments, loopClosed := [first.0, first.1], segments0, false;
    ghost var used := [first];
    var segmentFound := true;
    while segmentFound && !loopClosed
      invariant polyline != []
      invariant Grown(tol, Line(polyline, used, loopClosed), segments) == Grown(tol, LineOf(first), segments0)
      invariant !segmentFound ==> FirstTouching(tol, polyline[|polyline|-1], segments) == |segments|
      decreases |segments|, segmentFound
    {
      ghost var i := FirstTouching(tol, polyline[|polyline|-1], segments);
      ghost var line, rest := Line(polyline, used, false), segments;
      segmentFound, loopClosed, polyline, segments := FindNext(tol, polyline, segments, used);
      if i < |rest| {
        used := used + [rest[i]];
        assert Line(polyline, used, loopClosed) == Extended(tol, line, rest[i]);
      }
    }
  }

  method StitchSegments(tol: real, segments0: seq<Segment>) returns (closedPolys: seq<seq<Point>>, openPolys: seq<seq<Point>>)
    ensures closedPolys == Polylines(Lines(tol, segments0), true)
    ensures openPolys == Polylines(Lines(tol, segments0), false)
  {
    hide Grown;
    closedPolys, openPolys := [], [];
    var segments := segments0;
    while segments != []
      invariant closedPolys + Polylines(Lines(tol, segments), true) == Polylines(Lines(tol, segments0), true)
      invariant openPolys + Polylines(Lines(tol, segments), false) == Polylines(Lines(tol, segments0), false)
      decreases |segments|
    {
      ghost var lines := Lines(tol, segments);
      var polyline, loopClosed, rest := GrowPolyline(tol, segments[0], segments[1..]);
      assert lines[1..] == Lines(tol, rest);
      if loopClosed {
        closedPolys := closedPolys + [polyline];
      } else {
        openPolys := openPolys + [polyline];
      }
      segments := rest;
    }
  }

  method PathsToClosedPolylines(tol: real, polys: seq<seq<Point>>)
    returns (closedPolys: seq<seq<Point>>, openPolys: seq<seq<Point>>)
    requires forall k :: 0 <= k < |polys| ==> polys[k] != []
    ensures closedPolys == Polylines(Lines(tol, AllSegments(tol, polys)), true)
    ensures openPolys == Polylines(Lines(tol, AllSegments(tol, polys)), false)
  {
    var segments := ExtractSegments(tol, polys);
    closedPolys, openPolys := StitchSegments(tol, segments);
  }
}
